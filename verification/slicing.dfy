/** Python's slice `s[lo:hi]` for non-negative bounds: both bounds are clamped to the length. */
module Slicing {

  function Slice<T>(s: seq<T>, lo: nat, hi: nat): seq<T>
  {
    var end := if hi < |s| then hi else |s|;
    if end <= lo then [] else s[lo..end]
  }

  /**
   * A slice holds `min(hi, |s|) - lo` elements, or none, and each is the element of the sequence
   * at the same offset from `lo`.
   */
  lemma SliceElements<T>(s: seq<T>, lo: nat, hi: nat)
    ensures |Slice(s, lo, hi)| == (var end := if hi < |s| then hi else |s|; if lo < end then end - lo else 0)
    ensures forall k :: 0 <= k < |Slice(s, lo, hi)| ==> lo + k < |s| && Slice(s, lo, hi)[k] == s[lo + k]
  {
  }
}
