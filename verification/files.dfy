/**
 * The list of `.mada` files to read for a configuration and a range of
 * periods: one name per active board and period, every one of them required
 * to exist, ordered by period and then by board.
 */
module Files {
  import opened Wrappers
  import opened Decimal
  import opened Slicing
  import opened Sorting
  import opened Config

  /** Python's `s.zfill(width)`: zeros are inserted after a leading sign, if any. */
  function ZFill(s: string, width: nat): (r: string)
    ensures |r| == if |s| >= width then |s| else width
  {
    if |s| >= width then s
    else if |s| > 0 && (s[0] == '+' || s[0] == '-') then [s[0]] + Zeros(width - |s|) + s[1..]
    else Zeros(width - |s|) + s
  }

  /** The period as it appears in a file name: `str(per).zfill(4)`. */
  function PeriodField(per: int): (r: string)
    ensures |r| >= 4
  {
    ZFill(IntToString(per), 4)
  }

  /** A non-negative period is written in decimal, padded to at least four digits. */
  lemma PeriodFieldDigits(per: int)
    requires 0 <= per
    ensures AllDigits(PeriodField(per)) && DigitsValue(PeriodField(per)) == per
    ensures per < 10000 ==> |PeriodField(per)| == 4
    ensures |NatToString(per)| >= 4 ==> PeriodField(per) == NatToString(per)
  {
    var s := NatToString(per);
    NatToStringRoundTrip(per);
    if |s| < 4 {
      LeadingZerosValue(4 - |s|, s);
    }
    if per < 10000 {
      assert Pow10(4) == 10000;
      NatToStringLength(per, 4);
    }
  }

  /** A negative period keeps its sign in front of the padding. */
  lemma PeriodFieldNegative(per: int)
    requires -1000 < per < 0
    ensures |PeriodField(per)| == 4 && PeriodField(per)[0] == '-'
    ensures DigitsValue(PeriodField(per)[1..]) == -per
  {
    var digits := NatToString(-per);
    NatToStringRoundTrip(-per);
    assert Pow10(3) == 1000;
    NatToStringLength(-per, 3);
    LeadingZerosValue(3 - |digits|, digits);
    assert PeriodField(per)[1..] == Zeros(3 - |digits|) + digits;
  }

  /** The file holding one board's data for one period. */
  function FileName(board: GigaIwaki, per: int): string {
    board.Name() + "_" + PeriodField(per) + ".mada"
  }

  /** The first sort key, `name[5:7]`. */
  function BoardKey(name: string): (r: string)
    ensures |name| >= 7 ==> r == name[5..7]
    ensures |name| <= 5 ==> r == []
  {
    SliceElements(name, 5, 7);
    Slice(name, 5, 7)
  }

  /** The second sort key, `name[8:12]`. */
  function PeriodKey(name: string): (r: string)
    ensures |name| >= 12 ==> r == name[8..12]
    ensures |name| <= 8 ==> r == []
  {
    SliceElements(name, 8, 12);
    Slice(name, 8, 12)
  }

  /** For a valid board and a four-digit period, the sort keys pick out the board id and the period. */
  lemma FileNameKeys(board: GigaIwaki, per: int)
    requires board.Valid() && 0 <= per < 10000
    ensures |FileName(board, per)| == 17
    ensures BoardKey(FileName(board, per)) == board.id
    ensures PeriodKey(FileName(board, per)) == PeriodField(per)
  {
    PeriodFieldDigits(per);
    var name := FileName(board, per);
    assert |board.id| == 2;
    assert name[5..7] == board.id;
    assert name[8..12] == PeriodField(per);
  }

  /** Digit strings of one length compare as strings the way their values compare as numbers. */
  lemma {:induction false} DigitStringOrder(a: string, b: string)
    requires AllDigits(a) && AllDigits(b) && |a| == |b|
    ensures LexLe(a, b) <==> DigitsValue(a) <= DigitsValue(b)
    ensures a == b <==> DigitsValue(a) == DigitsValue(b)
  {
    if |a| > 0 {
      var a', b' := a[..|a| - 1], b[..|b| - 1];
      var x, y := a[|a| - 1], b[|b| - 1];
      assert a == a' + [x] && b == b' + [y];
      DigitStringOrder(a', b');
      LexLeAppend(a', b', x, y);
      if a' == b' {
        assert a == b <==> x == y;
      }
    }
  }

  /**
   * Ordering file names by period, then board, is ordering by period number,
   * then board id.
   */
  lemma FileNameOrder(b1: GigaIwaki, p1: int, b2: GigaIwaki, p2: int)
    requires b1.Valid() && b2.Valid() && 0 <= p1 < 10000 && 0 <= p2 < 10000
    ensures Before(PeriodKey, BoardKey, FileName(b1, p1), FileName(b2, p2)) <==>
      p1 < p2 || (p1 == p2 && LexLe(b1.id, b2.id))
  {
    FileNameKeys(b1, p1);
    FileNameKeys(b2, p2);
    PeriodFieldDigits(p1);
    PeriodFieldDigits(p2);
    DigitStringOrder(PeriodField(p1), PeriodField(p2));
  }

  /** One board's files for the periods `initial` to `final`, in period order. */
  function PeriodNames(board: GigaIwaki, initial: int, final: int): (names: seq<string>)
    ensures |names| == if final < initial then 0 else final - initial + 1
    decreases final - initial
  {
    if final < initial then [] else PeriodNames(board, initial, final - 1) + [FileName(board, final)]
  }

  /** Every board's files, board after board. */
  function TargetNames(boards: seq<GigaIwaki>, initial: int, final: int): seq<string> {
    if |boards| == 0 then []
    else TargetNames(boards[..|boards| - 1], initial, final) + PeriodNames(boards[|boards| - 1], initial, final)
  }

  lemma {:induction false} PeriodNamesMembers(board: GigaIwaki, initial: int, final: int)
    ensures forall n :: n in PeriodNames(board, initial, final) <==>
      exists p :: initial <= p <= final && n == FileName(board, p)
    decreases final - initial
  {
    if final >= initial {
      var init := PeriodNames(board, initial, final - 1);
      PeriodNamesMembers(board, initial, final - 1);
      assert PeriodNames(board, initial, final) == init + [FileName(board, final)];
      forall n | n in PeriodNames(board, initial, final)
        ensures exists p :: initial <= p <= final && n == FileName(board, p)
      {
        if n !in init {
          assert n == FileName(board, final);
        }
      }
      forall n | exists p :: initial <= p <= final && n == FileName(board, p)
        ensures n in PeriodNames(board, initial, final)
      {
        var p :| initial <= p <= final && n == FileName(board, p);
        if p < final {
          assert n in init;
        }
      }
    }
  }

  /** A name is generated exactly when it is the file of one of the boards for a period in range. */
  lemma {:induction false} TargetNamesMembers(boards: seq<GigaIwaki>, initial: int, final: int)
    ensures forall n :: n in TargetNames(boards, initial, final) <==>
      exists b, p :: b in boards && initial <= p <= final && n == FileName(b, p)
  {
    if |boards| > 0 {
      var front, last := boards[..|boards| - 1], boards[|boards| - 1];
      var names := TargetNames(front, initial, final);
      TargetNamesMembers(front, initial, final);
      PeriodNamesMembers(last, initial, final);
      assert boards == front + [last];
      assert TargetNames(boards, initial, final) == names + PeriodNames(last, initial, final);
      forall n | n in TargetNames(boards, initial, final)
        ensures exists b, p :: b in boards && initial <= p <= final && n == FileName(b, p)
      {
        if n in names {
          var b, p :| b in front && initial <= p <= final && n == FileName(b, p);
          assert b in boards;
        } else {
          var p :| initial <= p <= final && n == FileName(last, p);
          assert last in boards;
        }
      }
      forall n | exists b, p :: b in boards && initial <= p <= final && n == FileName(b, p)
        ensures n in TargetNames(boards, initial, final)
      {
        var b, p :| b in boards && initial <= p <= final && n == FileName(b, p);
        if b != last {
          assert b in front;
          assert n in names;
        } else {
          assert n in PeriodNames(last, initial, final);
        }
      }
    }
  }

  /** One name per board and period. */
  lemma {:induction false} TargetNamesCount(boards: seq<GigaIwaki>, initial: int, final: int)
    ensures |TargetNames(boards, initial, final)| == |boards| * (if final < initial then 0 else final - initial + 1)
  {
    if |boards| > 0 {
      TargetNamesCount(boards[..|boards| - 1], initial, final);
      var c := if final < initial then 0 else final - initial + 1;
      assert |boards| * c == (|boards| - 1) * c + c;
    }
  }

  /** Only active boards contribute names. */
  lemma ActiveTargetNamesMembers(boards: seq<GigaIwaki>, initial: int, final: int)
    ensures forall n :: n in TargetNames(ActiveBoards(boards), initial, final) <==>
      exists b, p :: b in boards && b.isActive && initial <= p <= final && n == FileName(b, p)
  {
    TargetNamesMembers(ActiveBoards(boards), initial, final);
  }

  lemma PeriodNamesStep(board: GigaIwaki, initial: int, per: int)
    requires initial <= per
    ensures PeriodNames(board, initial, per) == PeriodNames(board, initial, per - 1) + [FileName(board, per)]
  {
  }

  lemma TargetNamesStep(boards: seq<GigaIwaki>, k: nat, initial: int, final: int)
    requires k < |boards|
    ensures TargetNames(boards[..k + 1], initial, final) ==
      TargetNames(boards[..k], initial, final) + PeriodNames(boards[k], initial, final)
  {
    assert boards[..k + 1][..k] == boards[..k];
  }

  /** The inner loop: appends one board's file for every period from `initial` to `final`. */
  method AppendPeriodNames(targets: seq<string>, board: GigaIwaki, initial: int, final: int) returns (r: seq<string>)
    ensures r == targets + PeriodNames(board, initial, final)
  {
    r := targets;
    for per := initial to if final < initial then initial else final + 1
      invariant r == targets + PeriodNames(board, initial, per - 1)
    {
      PeriodNamesStep(board, initial, per);
      var name := FileName(board, per);
      assert targets + PeriodNames(board, initial, per - 1) + [name] == targets + (PeriodNames(board, initial, per - 1) + [name]);
      r := r + [name];
    }
  }

  /** The nested loops that append one name per board and period. */
  method GenerateNames(boards: seq<GigaIwaki>, initial: int, final: int) returns (targets: seq<string>)
    ensures targets == TargetNames(boards, initial, final)
  {
    targets := [];
    for k := 0 to |boards|
      invariant targets == TargetNames(boards[..k], initial, final)
    {
      TargetNamesStep(boards, k, initial, final);
      targets := AppendPeriodNames(targets, boards[k], initial, final);
    }
    assert boards[..|boards|] == boards;
  }

  datatype ScanError =
    | FileExistsError(name: string)   // raised for the first generated name that does not exist

  /** The first name, in list order, that `isPresent` rejects. */
  function FirstMissing(names: seq<string>, isPresent: string -> bool): (r: Option<string>)
    ensures r.None? <==> forall i :: 0 <= i < |names| ==> isPresent(names[i])
    ensures r.Some? ==> exists i :: (0 <= i < |names| && names[i] == r.value && !isPresent(names[i]) &&
      forall j :: 0 <= j < i ==> isPresent(names[j]))
  {
    if |names| == 0 then None
    else if !isPresent(names[0]) then Some(names[0])
    else
      var r := FirstMissing(names[1..], isPresent);
      assert forall i :: 0 < i < |names| ==> names[i] == names[1..][i - 1];
      r
  }

  lemma {:induction false} FirstMissingAt(names: seq<string>, isPresent: string -> bool, i: nat)
    requires i < |names| && !isPresent(names[i])
    requires forall j :: 0 <= j < i ==> isPresent(names[j])
    ensures FirstMissing(names, isPresent) == Some(names[i])
  {
    if i > 0 {
      FirstMissingAt(names[1..], isPresent, i - 1);
    }
  }

  /** The existence check: the loop stops at the first name that does not exist. */
  method FindMissing(names: seq<string>, isPresent: string -> bool) returns (missing: Option<string>)
    ensures missing == FirstMissing(names, isPresent)
  {
    for i := 0 to |names|
      invariant forall j :: 0 <= j < i ==> isPresent(names[j])
    {
      if !isPresent(names[i]) {
        FirstMissingAt(names, isPresent, i);
        return Some(names[i]);
      }
    }
    return None;
  }

  /**
   * The files of every active board for every period from `initial` to
   * `final`, provided all of them exist, sorted by period and then by board.
   * `isPresent` stands for the filesystem's existence test.
   */
  method ScanMadaFiles(config: MadaConfig, initial: int, final: int, isPresent: string -> bool)
    returns (r: Result<seq<string>, ScanError>)
    ensures var names := TargetNames(ActiveBoards(config.gigaIwaki), initial, final);
      match FirstMissing(names, isPresent)
      case Some(name) => r == Err(FileExistsError(name))
      case None => r.Ok? && r.value == SortBy(SortBy(names, BoardKey), PeriodKey) && multiset(r.value) == multiset(names)
    ensures r.Ok? ==> SortedByThen(r.value, PeriodKey, BoardKey)
  {
    var targets := GenerateNames(ActiveBoards(config.gigaIwaki), initial, final);
    var missing := FindMissing(targets, isPresent);
    if missing.Some? {
      return Err(FileExistsError(missing.value));
    }

    var byBoard := SortBy(targets, BoardKey);
    var byPeriod := SortBy(byBoard, PeriodKey);
    SortBySorted(targets, BoardKey);
    SortByStable(byBoard, PeriodKey, BoardKey);
    r := Ok(byPeriod);
  }

  /** Two active boards "00" and "13" and one inactive board, periods 0 and 1. */
  function FixtureBoards(): seq<GigaIwaki> {
    [ GigaIwaki("00", true, Connection(Anode, 0), 800, "192.168.100.16", "/path/to/dac00", 15000),
      GigaIwaki("01", false, Connection(Anode, 1), 800, "192.168.100.17", "/path/to/dac01", 15000),
      GigaIwaki("13", true, Connection(Cathode, 2), 800, "192.168.100.27", "/path/to/dac13", 0) ]
  }

  lemma FixtureFileNames()
    ensures FileName(FixtureBoards()[0], 0) == "GBKB-00_0000.mada"
    ensures FileName(FixtureBoards()[0], 1) == "GBKB-00_0001.mada"
    ensures FileName(FixtureBoards()[2], 0) == "GBKB-13_0000.mada"
    ensures FileName(FixtureBoards()[2], 1) == "GBKB-13_0001.mada"
  {
    assert Zeros(3) == "000";
    assert IntToString(0) == "0" && IntToString(1) == "1";
    assert PeriodField(0) == "0000" && PeriodField(1) == "0001";
    assert FixtureBoards()[0].Name() == "GBKB-00" && FixtureBoards()[2].Name() == "GBKB-13";
  }

  /** Generation order: board after board, period after period. */
  lemma FixtureTargetNames()
    ensures TargetNames(ActiveBoards(FixtureBoards()), 0, 1) ==
      ["GBKB-00_0000.mada", "GBKB-00_0001.mada", "GBKB-13_0000.mada", "GBKB-13_0001.mada"]
  {
    var bs := FixtureBoards();
    assert bs[..2][..1] == [bs[0]] && bs[..1] == [bs[0]] && bs[..2] == [bs[0], bs[1]];
    assert ActiveBoards(bs) == [bs[0], bs[2]];
    assert [bs[0], bs[2]][..1] == [bs[0]];
    FixtureFileNames();
  }
}
