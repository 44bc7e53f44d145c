/**
 * Amplitude analysis of decoded events and its aggregation over files
 * (mada_reader/rootfile_generator/gbkb.py). Samples are integers, so every mean and average is
 * taken exactly over the reals.
 */
module Gbkb {
  import opened Wrappers
  import opened Stats
  import opened Slicing
  import Parser

  /**
   * The waveform of one event: four channels of ADC samples in clock order. How it is unpacked
   * from the bytes of a piece is not part of this model; only the four sequences are.
   */
  datatype FlushAdc = FlushAdc(ch0: seq<int>, ch1: seq<int>, ch2: seq<int>, ch3: seq<int>)
  {
    /** Channel i in the order iteration visits them: ch0, ch1, ch2, ch3. */
    function Channel(i: nat): seq<int>
      requires i < 4
    {
      if i == 0 then ch0 else if i == 1 then ch1 else if i == 2 then ch2 else ch3
    }

    predicate HasEmptyChannel() {
      exists i :: 0 <= i < 4 && |Channel(i)| == 0
    }
  }

  datatype Event = Event(header: Parser.EventHeader, fadc: FlushAdc)

  /** The tag "min" or "max" of an amplitude. */
  datatype Attr = AttrMin | AttrMax

  /** One value per channel. */
  type Quad = s: seq<real> | |s| == 4 witness [0.0, 0.0, 0.0, 0.0]

  datatype FlushAdcAmplitude = FlushAdcAmplitude(attr: Attr, value: Quad)

  function Abs(x: real): real {
    if x < 0.0 then -x else x
  }

  /** `abs(max(ch) - min(ch))` of one non-empty channel. */
  function ChannelPeakToPeak(ch: seq<int>): real
    requires |ch| > 0
  {
    Abs(Max(AsReals(ch)) - Min(AsReals(ch)))
  }

  /**
   * What `calc_fadc_peak2peak` returns: nothing as soon as a channel is empty, otherwise the
   * spread between the largest and the smallest sample of each channel.
   */
  function PeakToPeak(fadc: FlushAdc): (r: Option<Quad>)
    ensures r.None? <==> fadc.HasEmptyChannel()
    ensures r.Some? ==> forall i :: 0 <= i < 4 ==>
      r.value[i] == Max(AsReals(fadc.Channel(i))) - Min(AsReals(fadc.Channel(i))) && r.value[i] >= 0.0
  {
    if fadc.HasEmptyChannel() then None
    else
      assert forall i :: 0 <= i < 4 ==> Min(AsReals(fadc.Channel(i))) <= Max(AsReals(fadc.Channel(i))) by {
        forall i | 0 <= i < 4 ensures Min(AsReals(fadc.Channel(i))) <= Max(AsReals(fadc.Channel(i))) {
          MinMaxBound(AsReals(fadc.Channel(i)));
        }
      }
      Some(seq(4, i requires 0 <= i < 4 => ChannelPeakToPeak(fadc.Channel(i))))
  }

  /** `calc_fadc_peak2peak`: fills one entry per channel, returning early on an empty channel. */
  method CalcFadcPeak2Peak(fadc: FlushAdc) returns (r: Option<Quad>)
    ensures r == PeakToPeak(fadc)
  {
    var ret: Quad := [0.0, 0.0, 0.0, 0.0];
    for i := 0 to 4
      invariant forall j :: 0 <= j < i ==> |fadc.Channel(j)| > 0 && ret[j] == ChannelPeakToPeak(fadc.Channel(j))
    {
      if |fadc.Channel(i)| > 0 {
        ret := ret[i := ChannelPeakToPeak(fadc.Channel(i))];
      } else {
        return None;
      }
    }
    assert !fadc.HasEmptyChannel();
    assert ret == seq(4, i requires 0 <= i < 4 => ChannelPeakToPeak(fadc.Channel(i)));
    return Some(ret);
  }

  /**
   * numpy's mean of `ch[lo:hi]`; None stands for the NaN an empty slice gives, which happens
   * exactly when the channel ends before `lo` or the window is empty.
   */
  function Baseline(ch: seq<int>, lo: nat, hi: nat): (r: Option<real>)
    ensures r.None? <==> |ch| <= lo || hi <= lo
  {
    var window := Slice(AsReals(ch), lo, hi);
    SliceElements(AsReals(ch), lo, hi);
    if window == [] then None else Some(Mean(window))
  }

  /** The `baselines` list: one baseline per channel, in channel order. */
  function Baselines(fadc: FlushAdc, lo: nat, hi: nat): (b: seq<Option<real>>)
    ensures |b| == 4
  {
    seq(4, i requires 0 <= i < 4 => Baseline(fadc.Channel(i), lo, hi))
  }

  /**
   * No baseline that `calc_fadc_amplitudes` would use is NaN: once ch0 has 1024 samples, every
   * non-empty channel reaches into the baseline window.
   */
  predicate BaselinesDefined(fadc: FlushAdc, lo: nat, hi: nat) {
    |fadc.ch0| == 1024 ==>
      forall i :: 0 <= i < 4 && |fadc.Channel(i)| > 0 ==> Baselines(fadc, lo, hi)[i].Some?
  }

  /**
   * What `calc_fadc_amplitudes` returns: nothing unless ch0 holds 1024 samples (the other
   * channels' lengths are not checked) and every channel is non-empty; otherwise the per-channel
   * minimum and maximum less that channel's baseline, tagged "min" and "max".
   */
  function Amplitudes(fadc: FlushAdc, lo: nat, hi: nat): (r: Option<(FlushAdcAmplitude, FlushAdcAmplitude)>)
    requires BaselinesDefined(fadc, lo, hi)
    ensures r.None? <==> |fadc.ch0| != 1024 || fadc.HasEmptyChannel()
    ensures r.Some? ==> r.value.0.attr == AttrMin && r.value.1.attr == AttrMax
  {
    if |fadc.ch0| != 1024 || fadc.HasEmptyChannel() then None
    else Some((CorrectedExtremes(fadc, lo, hi, AttrMin), CorrectedExtremes(fadc, lo, hi, AttrMax)))
  }

  /** `min(ch)` or `max(ch)`, as the tag says. */
  function Extreme(attr: Attr, ch: seq<int>): real
    requires |ch| > 0
  {
    if attr == AttrMin then Min(AsReals(ch)) else Max(AsReals(ch))
  }

  /** Each channel's extreme less its baseline, for an event whose channels are all non-empty. */
  function CorrectedExtremes(fadc: FlushAdc, lo: nat, hi: nat, attr: Attr): FlushAdcAmplitude
    requires |fadc.ch0| == 1024 && !fadc.HasEmptyChannel() && BaselinesDefined(fadc, lo, hi)
  {
    var baselines := Baselines(fadc, lo, hi);
    FlushAdcAmplitude(attr, seq(4, i requires 0 <= i < 4 => Extreme(attr, fadc.Channel(i)) - baselines[i].value))
  }

  /** `calc_fadc_amplitudes`: checks ch0's length, computes the baselines, then fills both lists channel by channel. */
  method CalcFadcAmplitudes(fadc: FlushAdc, lo: nat, hi: nat) returns (r: Option<(FlushAdcAmplitude, FlushAdcAmplitude)>)
    requires BaselinesDefined(fadc, lo, hi)
    ensures r == Amplitudes(fadc, lo, hi)
  {
    if |fadc.ch0| != 1024 {
      return None;
    }
    var retMin: Quad := [0.0, 0.0, 0.0, 0.0];
    var retMax: Quad := [0.0, 0.0, 0.0, 0.0];
    var baselines := Baselines(fadc, lo, hi);
    for i := 0 to 4
      invariant forall j :: 0 <= j < i ==> |fadc.Channel(j)| > 0
      invariant forall j :: 0 <= j < i ==> retMin[j] == Extreme(AttrMin, fadc.Channel(j)) - baselines[j].value
      invariant forall j :: 0 <= j < i ==> retMax[j] == Extreme(AttrMax, fadc.Channel(j)) - baselines[j].value
    {
      if |fadc.Channel(i)| > 0 {
        retMin := retMin[i := Min(AsReals(fadc.Channel(i))) - baselines[i].value];
        retMax := retMax[i := Max(AsReals(fadc.Channel(i))) - baselines[i].value];
      } else {
        return None;
      }
    }
    assert !fadc.HasEmptyChannel();
    assert retMin == CorrectedExtremes(fadc, lo, hi, AttrMin).value;
    assert retMax == CorrectedExtremes(fadc, lo, hi, AttrMax).value;
    return Some((FlushAdcAmplitude(AttrMin, retMin), FlushAdcAmplitude(AttrMax, retMax)));
  }

  /**
   * The baseline is a mean of samples of the channel itself, so it lies between the channel's
   * minimum and maximum: the "min" amplitude is never positive and the "max" amplitude never negative.
   */
  lemma AmplitudesStraddleZero(fadc: FlushAdc, lo: nat, hi: nat)
    requires BaselinesDefined(fadc, lo, hi) && Amplitudes(fadc, lo, hi).Some?
    ensures forall i :: 0 <= i < 4 ==>
      Amplitudes(fadc, lo, hi).value.0.value[i] <= 0.0 <= Amplitudes(fadc, lo, hi).value.1.value[i]
  {
    forall i | 0 <= i < 4
      ensures Amplitudes(fadc, lo, hi).value.0.value[i] <= 0.0 <= Amplitudes(fadc, lo, hi).value.1.value[i]
    {
      var ch := AsReals(fadc.Channel(i));
      var window := Slice(ch, lo, hi);
      SliceElements(ch, lo, hi);
      MinMaxBound(ch);
      MeanWithin(window, Min(ch), Max(ch));
    }
  }

  /** Per channel, the "max" amplitude less the "min" amplitude is the channel's peak-to-peak value. */
  lemma AmplitudesSpanPeakToPeak(fadc: FlushAdc, lo: nat, hi: nat)
    requires BaselinesDefined(fadc, lo, hi) && Amplitudes(fadc, lo, hi).Some?
    ensures PeakToPeak(fadc).Some?
    ensures forall i :: 0 <= i < 4 ==>
      Amplitudes(fadc, lo, hi).value.1.value[i] - Amplitudes(fadc, lo, hi).value.0.value[i] == PeakToPeak(fadc).value[i]
  {
  }

  /** The peak-to-peak values of a file's events, in event order, without the events that have none. */
  function Peak2PeakFromEvents(events: seq<Event>): (r: seq<Quad>)
    ensures |r| <= |events|
    ensures forall k :: 0 <= k < |r| ==> forall i :: 0 <= i < 4 ==> r[k][i] >= 0.0
    ensures (forall k :: 0 <= k < |events| ==> !events[k].fadc.HasEmptyChannel()) ==>
      |r| == |events| && forall k :: 0 <= k < |events| ==> PeakToPeak(events[k].fadc) == Some(r[k])
  {
    if events == [] then []
    else
      var init := Peak2PeakFromEvents(events[..|events| - 1]);
      match PeakToPeak(events[|events| - 1].fadc)
      case None => init
      case Some(v) => init + [v]
  }

  /** Filtering is done event by event: the list for two runs of events is the two lists one after the other. */
  lemma {:induction false} Peak2PeakFromEventsAppend(a: seq<Event>, b: seq<Event>)
    ensures Peak2PeakFromEvents(a + b) == Peak2PeakFromEvents(a) + Peak2PeakFromEvents(b)
    decreases |b|
  {
    if b == [] {
      assert a + b == a;
    } else {
      var b' := b[..|b| - 1];
      assert (a + b)[..|a + b| - 1] == a + b';
      Peak2PeakFromEventsAppend(a, b');
    }
  }

  /** The list holds exactly the peak-to-peak values of the events that have one. */
  lemma {:induction false} Peak2PeakFromEventsMembers(events: seq<Event>)
    ensures forall q :: q in Peak2PeakFromEvents(events) <==>
      exists k :: 0 <= k < |events| && PeakToPeak(events[k].fadc) == Some(q)
  {
    if events != [] {
      var init := events[..|events| - 1];
      Peak2PeakFromEventsMembers(init);
      assert forall k :: 0 <= k < |init| ==> init[k] == events[k];
    }
  }

  /** The (min, max) amplitude pairs of a file's events, in event order, without the events that have none. */
  function AmplitudePairs(events: seq<Event>, lo: nat, hi: nat): (r: seq<(FlushAdcAmplitude, FlushAdcAmplitude)>)
    requires forall k :: 0 <= k < |events| ==> BaselinesDefined(events[k].fadc, lo, hi)
    ensures |r| <= |events|
    ensures forall k :: 0 <= k < |r| ==> r[k].0.attr == AttrMin && r[k].1.attr == AttrMax
  {
    if events == [] then []
    else
      var init := AmplitudePairs(events[..|events| - 1], lo, hi);
      match Amplitudes(events[|events| - 1].fadc, lo, hi)
      case None => init
      case Some(pair) => init + [pair]
  }

  /** Collecting is done event by event: the pairs for two runs of events are the two lists one after the other. */
  lemma {:induction false} AmplitudePairsAppend(a: seq<Event>, b: seq<Event>, lo: nat, hi: nat)
    requires forall k :: 0 <= k < |a| ==> BaselinesDefined(a[k].fadc, lo, hi)
    requires forall k :: 0 <= k < |b| ==> BaselinesDefined(b[k].fadc, lo, hi)
    ensures forall k :: 0 <= k < |a + b| ==> BaselinesDefined((a + b)[k].fadc, lo, hi)
    ensures AmplitudePairs(a + b, lo, hi) == AmplitudePairs(a, lo, hi) + AmplitudePairs(b, lo, hi)
    decreases |b|
  {
    if b == [] {
      assert a + b == a;
    } else {
      var b' := b[..|b| - 1];
      assert (a + b)[..|a + b| - 1] == a + b';
      AmplitudePairsAppend(a, b', lo, hi);
    }
  }

  /** The list holds exactly the amplitude pairs of the events that have them. */
  lemma {:induction false} AmplitudePairsMembers(events: seq<Event>, lo: nat, hi: nat)
    requires forall k :: 0 <= k < |events| ==> BaselinesDefined(events[k].fadc, lo, hi)
    ensures forall p :: p in AmplitudePairs(events, lo, hi) <==>
      exists k :: 0 <= k < |events| && Amplitudes(events[k].fadc, lo, hi) == Some(p)
  {
    if events != [] {
      var init := events[..|events| - 1];
      AmplitudePairsMembers(init, lo, hi);
      assert forall k :: 0 <= k < |init| ==> init[k] == events[k];
    }
  }

  /** An event with amplitudes also has a peak-to-peak value, so there are never more amplitude pairs than peak-to-peak entries. */
  lemma {:induction false} AmplitudePairsAtMostPeak2Peak(events: seq<Event>, lo: nat, hi: nat)
    requires forall k :: 0 <= k < |events| ==> BaselinesDefined(events[k].fadc, lo, hi)
    ensures |AmplitudePairs(events, lo, hi)| <= |Peak2PeakFromEvents(events)|
  {
    if events != [] {
      AmplitudePairsAtMostPeak2Peak(events[..|events| - 1], lo, hi);
    }
  }

  /**
   * `get_fadc_amplitude_from_mada_file`, run over the events of one file: the amplitudes of every
   * event that has them, its "min" into one list and its "max" into the other, in event order.
   */
  method AmplitudesFromEvents(events: seq<Event>) returns (mins: seq<FlushAdcAmplitude>, maxs: seq<FlushAdcAmplitude>)
    requires forall k :: 0 <= k < |events| ==> BaselinesDefined(events[k].fadc, 600, 1000)
    ensures |mins| == |maxs| == |AmplitudePairs(events, 600, 1000)| <= |events|
    ensures forall k :: 0 <= k < |mins| ==>
      mins[k] == AmplitudePairs(events, 600, 1000)[k].0 && maxs[k] == AmplitudePairs(events, 600, 1000)[k].1
    ensures forall k :: 0 <= k < |mins| ==> mins[k].attr == AttrMin && maxs[k].attr == AttrMax
  {
    mins, maxs := [], [];
    for i := 0 to |events|
      invariant |mins| == |maxs| == |AmplitudePairs(events[..i], 600, 1000)|
      invariant forall k :: 0 <= k < |mins| ==>
        mins[k] == AmplitudePairs(events[..i], 600, 1000)[k].0 && maxs[k] == AmplitudePairs(events[..i], 600, 1000)[k].1
    {
      assert events[..i + 1][..i] == events[..i];
      var amplitudes := CalcFadcAmplitudes(events[i].fadc, 600, 1000);
      if amplitudes.Some? {
        var (ampMin, ampMax) := amplitudes.value;
        mins := mins + [ampMin];
        maxs := maxs + [ampMax];
      }
    }
    assert events[..|events|] == events;
  }

  /** `itertools.chain.from_iterable`: the lists one after the other. */
  function Flatten<T>(lists: seq<seq<T>>): seq<T>
  {
    if lists == [] then [] else lists[0] + Flatten(lists[1..])
  }

  /** The flattened list is empty exactly when every list is, however many lists there are. */
  lemma {:induction false} FlattenEmpty<T>(lists: seq<seq<T>>)
    ensures Flatten(lists) == [] <==> forall k :: 0 <= k < |lists| ==> lists[k] == []
  {
    if lists != [] {
      FlattenEmpty(lists[1..]);
      assert forall k :: 1 <= k < |lists| ==> lists[k] == lists[1..][k - 1];
    }
  }

  /** The values of one channel across a list of amplitudes. */
  function Column(amps: seq<FlushAdcAmplitude>, ch: nat): seq<real>
    requires ch < 4
  {
    seq(|amps|, k requires 0 <= k < |amps| => amps[k].value[ch])
  }

  /** The per-channel mean of a non-empty list of amplitudes. */
  function Averages(amps: seq<FlushAdcAmplitude>): Quad
    requires |amps| > 0
  {
    seq(4, c requires 0 <= c < 4 => Mean(Column(amps, c)))
  }

  /** Each channel's average lies between the smallest and the largest value of that channel. */
  lemma AveragesWithinExtremes(amps: seq<FlushAdcAmplitude>)
    requires |amps| > 0
    ensures forall c :: 0 <= c < 4 ==> Min(Column(amps, c)) <= Averages(amps)[c] <= Max(Column(amps, c))
  {
    forall c | 0 <= c < 4 ensures Min(Column(amps, c)) <= Averages(amps)[c] <= Max(Column(amps, c)) {
      MeanBetweenMinMax(Column(amps, c));
    }
  }

  /** The average of identical amplitudes is that amplitude's value. */
  lemma AveragesOfCopies(amp: FlushAdcAmplitude, n: nat)
    requires n > 0
    ensures Averages(seq(n, k => amp)) == amp.value
  {
    var amps := seq(n, k => amp);
    forall c | 0 <= c < 4 ensures Averages(amps)[c] == amp.value[c] {
      var column := Column(amps, c);
      AveragesWithinExtremes(amps);
      assert column[0] == amp.value[c];
      assert forall k :: 0 <= k < |column| ==> column[k] == amp.value[c];
      MinMaxBound(column);
      assert Min(column) == amp.value[c] && Max(column) == amp.value[c];
    }
  }

  /** `ValueError("input is empty")`. */
  datatype AverageError = EmptyInput

  /**
   * `average_flush_adc_amplitudes`: flattens the per-file lists, fails when nothing is left,
   * otherwise sums each channel over all amplitudes and divides by their number; the tag is the
   * first amplitude's.
   */
  method AverageFlushAdcAmplitudes(inputList: seq<seq<FlushAdcAmplitude>>) returns (r: Result<FlushAdcAmplitude, AverageError>)
    ensures r.Err? <==> Flatten(inputList) == []
    ensures r.Ok? ==> r.value == FlushAdcAmplitude(Flatten(inputList)[0].attr, Averages(Flatten(inputList)))
  {
    var flattened := Flatten(inputList);
    if |flattened| == 0 {
      return Err(EmptyInput);
    }
    var minOrMax := flattened[0].attr;
    var n := |flattened|;
    var accumulates: Quad := [0.0, 0.0, 0.0, 0.0];
    for k := 0 to n
      invariant forall c :: 0 <= c < 4 ==> accumulates[c] == Sum(Column(flattened[..k], c))
    {
      for ch := 0 to 4
        invariant forall c :: 0 <= c < ch ==> accumulates[c] == Sum(Column(flattened[..k + 1], c))
        invariant forall c :: ch <= c < 4 ==> accumulates[c] == Sum(Column(flattened[..k], c))
      {
        assert Column(flattened[..k + 1], ch)[..k] == Column(flattened[..k], ch);
        accumulates := accumulates[ch := accumulates[ch] + flattened[k].value[ch]];
      }
    }
    assert flattened[..n] == flattened;
    var averages: Quad := seq(4, c requires 0 <= c < 4 => accumulates[c] / n as real);
    assert averages == Averages(flattened);
    return Ok(FlushAdcAmplitude(minOrMax, averages));
  }
}
