/**
 * Python's `split(sep)` and `sep.join(pieces)` on byte strings and text, for a non-empty separator:
 * the buffer is scanned left to right, every non-overlapping occurrence of the separator ends a
 * piece, and empty pieces (a separator at either end, or two separators in a row) are kept.
 */
module Splitting {

  /** `sep` occurs in `s` starting at index i. */
  predicate OccursAt<T(==)>(s: seq<T>, sep: seq<T>, i: int) {
    0 <= i && i + |sep| <= |s| && s[i..i + |sep|] == sep
  }

  predicate Contains<T(==)>(s: seq<T>, sep: seq<T>) {
    exists i :: 0 <= i <= |s| - |sep| && OccursAt(s, sep, i)
  }

  /** No proper prefix of `sep` is also a suffix of it, so two occurrences can never overlap. */
  predicate BorderFree<T(==)>(sep: seq<T>) {
    forall k :: 0 < k < |sep| ==> sep[k..] != sep[..|sep| - k]
  }

  function Split<T(==)>(s: seq<T>, sep: seq<T>): (pieces: seq<seq<T>>)
    requires |sep| > 0
    ensures |pieces| >= 1
    decreases |s|
  {
    if |s| < |sep| then [s]
    else if s[..|sep|] == sep then [[]] + Split(s[|sep|..], sep)
    else
      var rest := Split(s[1..], sep);
      [[s[0]] + rest[0]] + rest[1..]
  }

  function Join<T>(pieces: seq<seq<T>>, sep: seq<T>): seq<T>
  {
    if |pieces| == 0 then []
    else if |pieces| == 1 then pieces[0]
    else pieces[0] + sep + Join(pieces[1..], sep)
  }

  /** The number of non-overlapping occurrences of `sep`, matched leftmost first. */
  function CountOccurrences<T(==)>(s: seq<T>, sep: seq<T>): nat
    requires |sep| > 0
    decreases |s|
  {
    if |s| < |sep| then 0
    else if s[..|sep|] == sep then 1 + CountOccurrences(s[|sep|..], sep)
    else CountOccurrences(s[1..], sep)
  }

  /** Prefixing the first piece prefixes the joined result. */
  lemma JoinPrepend<T>(x: seq<T>, pieces: seq<seq<T>>, sep: seq<T>)
    requires |pieces| >= 1
    ensures Join([x + pieces[0]] + pieces[1..], sep) == x + Join(pieces, sep)
  {
    var ps := [x + pieces[0]] + pieces[1..];
    if |pieces| > 1 {
      assert ps[1..] == pieces[1..];
      assert Join(ps, sep) == (x + pieces[0]) + sep + Join(pieces[1..], sep);
    }
  }

  /** Joining the pieces with the separator gives back the buffer that was split. */
  lemma {:induction false} JoinSplit<T>(s: seq<T>, sep: seq<T>)
    requires |sep| > 0
    ensures Join(Split(s, sep), sep) == s
    decreases |s|
  {
    if |s| < |sep| {
    } else if s[..|sep|] == sep {
      var rest := Split(s[|sep|..], sep);
      assert Split(s, sep) == [[]] + rest;
      JoinSplit(s[|sep|..], sep);
      assert ([[]] + rest)[1..] == rest;
      assert Join([[]] + rest, sep) == [] + sep + Join(rest, sep);
      assert s == sep + s[|sep|..];
    } else {
      var rest := Split(s[1..], sep);
      assert Split(s, sep) == [[s[0]] + rest[0]] + rest[1..];
      JoinSplit(s[1..], sep);
      JoinPrepend([s[0]], rest, sep);
      assert s == [s[0]] + s[1..];
    }
  }

  /** There is one more piece than there are separators. */
  lemma {:induction false} SplitCount<T>(s: seq<T>, sep: seq<T>)
    requires |sep| > 0
    ensures |Split(s, sep)| == CountOccurrences(s, sep) + 1
    decreases |s|
  {
    if |s| < |sep| {
    } else if s[..|sep|] == sep {
      SplitCount(s[|sep|..], sep);
    } else {
      SplitCount(s[1..], sep);
    }
  }

  /** The first piece is a prefix of the buffer. */
  lemma {:induction false} SplitHeadIsPrefix<T>(s: seq<T>, sep: seq<T>)
    requires |sep| > 0
    ensures |Split(s, sep)[0]| <= |s| && Split(s, sep)[0] == s[..|Split(s, sep)[0]|]
    decreases |s|
  {
    if |s| < |sep| {
    } else if s[..|sep|] == sep {
    } else {
      var h := Split(s[1..], sep)[0];
      SplitHeadIsPrefix(s[1..], sep);
      assert Split(s, sep)[0] == [s[0]] + h;
      assert s[..|h| + 1] == [s[0]] + s[1..][..|h|];
    }
  }

  /** No piece contains the separator. */
  lemma {:induction false} SplitPiecesFree<T>(s: seq<T>, sep: seq<T>)
    requires |sep| > 0
    ensures forall p :: p in Split(s, sep) ==> !Contains(p, sep)
    decreases |s|
  {
    var pieces := Split(s, sep);
    if |s| < |sep| {
      assert pieces == [s];
      assert forall i :: !OccursAt(s, sep, i);
    } else if s[..|sep|] == sep {
      SplitPiecesFree(s[|sep|..], sep);
      assert forall i :: !OccursAt([], sep, i);
      assert pieces == [[]] + Split(s[|sep|..], sep);
    } else {
      var rest := Split(s[1..], sep);
      SplitPiecesFree(s[1..], sep);
      SplitHeadIsPrefix(s[1..], sep);
      var head := [s[0]] + rest[0];
      assert rest[0] in rest;
      assert head == s[..|head|] by {
        assert rest[0] == s[1..][..|rest[0]|];
      }
      assert !OccursAt(head, sep, 0) by {
        if |head| >= |sep| {
          assert head[..|sep|] == s[..|sep|];
        }
      }
      forall i | OccursAt(head, sep, i) ensures false {
        if i != 0 {
          assert head[i..i + |sep|] == rest[0][i - 1..i - 1 + |sep|];
          assert OccursAt(rest[0], sep, i - 1);
        }
      }
      assert pieces == [head] + rest[1..];
      forall p | p in pieces ensures !Contains(p, sep) {
        if p != head {
          assert p in rest;
        }
      }
    }
  }

  /** A buffer that holds no separator is one piece. */
  lemma {:induction false} SplitFree<T>(p: seq<T>, sep: seq<T>)
    requires |sep| > 0 && !Contains(p, sep)
    ensures Split(p, sep) == [p]
    decreases |p|
  {
    if |p| >= |sep| {
      assert !OccursAt(p, sep, 0);
      forall i | OccursAt(p[1..], sep, i) ensures false {
        assert p[1..][i..i + |sep|] == p[i + 1..i + 1 + |sep|];
        assert OccursAt(p, sep, i + 1);
      }
      SplitFree(p[1..], sep);
      assert [p[0]] + p[1..] == p;
    }
  }

  /** A piece free of the separator, then the separator, splits off exactly that piece. */
  lemma {:induction false} SplitAfterPiece<T>(p: seq<T>, sep: seq<T>, rest: seq<T>)
    requires |sep| > 0 && BorderFree(sep) && !Contains(p, sep)
    ensures Split(p + sep + rest, sep) == [p] + Split(rest, sep)
    decreases |p|
  {
    var b := p + sep + rest;
    if p == [] {
      assert b[..|sep|] == sep && b[|sep|..] == rest;
    } else {
      if |p| >= |sep| {
        assert p[0..|sep|] == b[..|sep|];
        assert !OccursAt(p, sep, 0);
      } else {
        var k := |p|;
        assert b[k..|sep|] == sep[..|sep| - k];
        assert b[..|sep|][k..] == b[k..|sep|];
        assert sep[k..] != sep[..|sep| - k];
      }
      assert b[..|sep|] != sep;
      forall i | OccursAt(p[1..], sep, i) ensures false {
        assert p[1..][i..i + |sep|] == p[i + 1..i + 1 + |sep|];
        assert OccursAt(p, sep, i + 1);
      }
      assert b[1..] == p[1..] + sep + rest;
      SplitAfterPiece(p[1..], sep, rest);
      assert [p[0]] + p[1..] == p;
    }
  }

  /** Splitting undoes joining, when no piece holds the separator and occurrences cannot overlap. */
  lemma {:induction false} SplitJoin<T>(pieces: seq<seq<T>>, sep: seq<T>)
    requires |sep| > 0 && BorderFree(sep) && |pieces| >= 1
    requires forall p :: p in pieces ==> !Contains(p, sep)
    ensures Split(Join(pieces, sep), sep) == pieces
    decreases |pieces|
  {
    if |pieces| == 1 {
      SplitFree(pieces[0], sep);
    } else {
      assert pieces[0] in pieces;
      SplitAfterPiece(pieces[0], sep, Join(pieces[1..], sep));
      SplitJoin(pieces[1..], sep);
      assert [pieces[0]] + pieces[1..] == pieces;
    }
  }
}
