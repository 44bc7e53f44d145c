/**
 * The MADA configuration: boards, their names, the field validators, and the
 * extraction of boards from configuration records that are already decoded.
 */
module Config {
  import opened Wrappers
  import opened Decimal

  const BoardIds: set<string> := {"00", "01", "03", "10", "11", "13"}
  const AdalmIds: set<string> := {"0", "1", "2"}
  /** `voltage_threshold_dac` is a 14-bit value. */
  const VthLimit: int := 16384

  /** How a record fails to become a configuration entry. */
  datatype ConfigError =
    | IndexError          // indexing an empty string
    | UnboundConnection   // a connection string that starts with neither 'a' nor 'c'
    | ValidationError     // a field outside its declared range or literal set

  datatype Polarity = Anode | Cathode

  datatype Connection = Connection(polarity: Polarity, position: int)
  {
    predicate Valid() {
      0 <= position <= 2
    }
  }

  datatype GigaIwaki = GigaIwaki(
    id: string,
    isActive: bool,
    connection: Connection,
    pitch: int,
    ipAddress: string,
    dacFile: string,
    voltageThresholdDac: int)
  {
    predicate Valid() {
      id in BoardIds && connection.Valid() && 0 <= voltageThresholdDac < VthLimit
    }

    function Name(): string {
      "GBKB-" + id
    }
  }

  datatype Adalm = Adalm(id: string, isActive: bool, uri: string, serialNumber: string, clockD: string)
  {
    predicate Valid() {
      id in AdalmIds
    }

    function Name(): string {
      "MADALM_" + id
    }
  }

  /** Two boards with the same name are the same board position. */
  lemma NamesDetermineIds(a: GigaIwaki, b: GigaIwaki, x: Adalm, y: Adalm)
    ensures a.Name() == b.Name() ==> a.id == b.id
    ensures x.Name() == y.Name() ==> x.id == y.id
  {
    if a.Name() == b.Name() {
      assert a.id == a.Name()[5..] && b.id == b.Name()[5..];
    }
    if x.Name() == y.Name() {
      assert x.id == x.Name()[7..] && y.id == y.Name()[7..];
    }
  }

  datatype MadaConfig = MadaConfig(gigaIwaki: seq<GigaIwaki>, adalm: seq<Adalm>)
  {
    predicate Valid() {
      (forall i :: 0 <= i < |gigaIwaki| ==> gigaIwaki[i].Valid()) &&
      (forall i :: 0 <= i < |adalm| ==> adalm[i].Valid())
    }

    /** The names of the active boards, in configuration order. */
    method AvailableBoards() returns (names: seq<string>)
      ensures names == ActiveNames(gigaIwaki)
    {
      names := [];
      for i := 0 to |gigaIwaki|
        invariant names == ActiveNames(gigaIwaki[..i])
      {
        assert gigaIwaki[..i + 1][..i] == gigaIwaki[..i];
        if gigaIwaki[i].isActive {
          names := names + [gigaIwaki[i].Name()];
        }
      }
      assert gigaIwaki[..|gigaIwaki|] == gigaIwaki;
    }
  }

  /** The boards whose `isActive` flag is set, in their original order. */
  function ActiveBoards(boards: seq<GigaIwaki>): (r: seq<GigaIwaki>)
    ensures |r| <= |boards|
    ensures forall b :: b in r <==> b in boards && b.isActive
  {
    if |boards| == 0 then []
    else
      var last := boards[|boards| - 1];
      assert forall b :: b in boards <==> b in boards[..|boards| - 1] || b == last;
      ActiveBoards(boards[..|boards| - 1]) + (if last.isActive then [last] else [])
  }

  /** Filtering commutes with concatenation: the filter keeps the relative order. */
  lemma {:induction false} ActiveBoardsAppend(a: seq<GigaIwaki>, b: seq<GigaIwaki>)
    ensures ActiveBoards(a + b) == ActiveBoards(a) + ActiveBoards(b)
    decreases |b|
  {
    if |b| > 0 {
      var b' := b[..|b| - 1];
      assert (a + b)[..|a + b| - 1] == a + b';
      assert (a + b)[|a + b| - 1] == b[|b| - 1];
      ActiveBoardsAppend(a, b');
    } else {
      assert a + b == a;
    }
  }

  /** The name of every board, in board order. */
  function Names(boards: seq<GigaIwaki>): seq<string>
  {
    seq(|boards|, i requires 0 <= i < |boards| => boards[i].Name())
  }

  /** The names of the active boards, in their original order. */
  function ActiveNames(boards: seq<GigaIwaki>): (names: seq<string>)
    ensures |names| <= |boards|
  {
    if |boards| == 0 then []
    else
      var last := boards[|boards| - 1];
      ActiveNames(boards[..|boards| - 1]) + (if last.isActive then [last.Name()] else [])
  }

  /** Naming the active boards is filtering, then naming. */
  lemma {:induction false} ActiveNamesOfActiveBoards(boards: seq<GigaIwaki>)
    ensures ActiveNames(boards) == Names(ActiveBoards(boards))
  {
    if |boards| > 0 {
      ActiveNamesOfActiveBoards(boards[..|boards| - 1]);
    }
  }

  /** A name is available exactly when some active board carries it. */
  lemma ActiveNamesMembers(boards: seq<GigaIwaki>)
    ensures forall n :: n in ActiveNames(boards) <==> exists b :: b in boards && b.isActive && b.Name() == n
  {
    ActiveNamesOfActiveBoards(boards);
    var act := ActiveBoards(boards);
    forall n | n in Names(act) ensures exists b :: b in boards && b.isActive && b.Name() == n {
      var i :| 0 <= i < |act| && Names(act)[i] == n;
      assert act[i] in act;
    }
    forall n | exists b :: b in boards && b.isActive && b.Name() == n ensures n in Names(act) {
      var b :| b in boards && b.isActive && b.Name() == n;
      var i :| 0 <= i < |act| && act[i] == b;
      assert Names(act)[i] == n;
    }
  }

  /** Python's `s[-n:]` for n > 0: the last n characters, or all of a shorter string. */
  function Suffix(s: string, n: nat): (r: string)
    requires n > 0
    ensures |r| == if |s| <= n then |s| else n
    ensures s == s[..|s| - |r|] + r
  {
    if |s| <= n then s else s[|s| - n..]
  }

  /** The integer a one-character string coerces to; characters other than digits do not coerce. */
  function CoerceDigit(c: char): (r: Option<int>)
    ensures r.Some? <==> IsDigit(c)
    ensures r.Some? ==> 0 <= r.value <= 9 && DigitChar(r.value) == c
  {
    if IsDigit(c) then Some(DigitValue(c)) else None
  }

  /** The validated constructor of `Connection` given the position character. */
  function NewConnection(polarity: Polarity, position: char): (r: Result<Connection, ConfigError>)
    ensures r.Ok? <==> position in "012"
    ensures r.Ok? ==> r.value.Valid() && r.value.polarity == polarity && DigitChar(r.value.position) == position
    ensures r.Err? ==> r.error == ValidationError
  {
    match CoerceDigit(position)
    case None => Err(ValidationError)
    case Some(p) => if 0 <= p <= 2 then Ok(Connection(polarity, p)) else Err(ValidationError)
  }

  /** Polarity from the first character, position from the last one. */
  function ParseConnection(conn: string): (r: Result<Connection, ConfigError>)
    ensures |conn| == 0 ==> r == Err(IndexError)
    ensures |conn| > 0 && conn[0] != 'a' && conn[0] != 'c' ==> r == Err(UnboundConnection)
    ensures r.Ok? <==> |conn| > 0 && (conn[0] == 'a' || conn[0] == 'c') && conn[|conn| - 1] in "012"
    ensures r.Ok? ==> r.value.Valid()
    ensures r.Ok? ==> (r.value.polarity == Anode <==> conn[0] == 'a')
    ensures r.Ok? ==> DigitChar(r.value.position) == conn[|conn| - 1]
  {
    if |conn| == 0 then Err(IndexError)
    else
      var position := conn[|conn| - 1];
      if conn[0] == 'a' then NewConnection(Anode, position)
      else if conn[0] == 'c' then NewConnection(Cathode, position)
      else Err(UnboundConnection)
  }

  /** A connection string that starts with the polarity letter and ends with the position digit. */
  function ConnectionString(c: Connection, middle: string): string
    requires c.Valid()
  {
    [if c.polarity == Anode then 'a' else 'c'] + middle + [DigitChar(c.position)]
  }

  lemma ParseConnectionString(c: Connection, middle: string)
    requires c.Valid()
    ensures ParseConnection(ConnectionString(c, middle)) == Ok(c)
  {
    var s := ConnectionString(c, middle);
    assert s[0] == (if c.polarity == Anode then 'a' else 'c');
    assert s[|s| - 1] == DigitChar(c.position);
  }

  lemma ParseConnectionFixtures()
    ensures ParseConnection("a1-0") == Ok(Connection(Anode, 0))
    ensures ParseConnection("c1-2") == Ok(Connection(Cathode, 2))
  {
    ParseConnectionString(Connection(Anode, 0), "1-");
    ParseConnectionString(Connection(Cathode, 2), "1-");
    assert ConnectionString(Connection(Anode, 0), "1-") == "a1-0";
    assert ConnectionString(Connection(Cathode, 2), "1-") == "c1-2";
  }

  /** The validated constructor of `GigaIwaki`. */
  function NewGigaIwaki(
    id: string, isActive: bool, connection: Connection, pitch: int,
    ipAddress: string, dacFile: string, voltageThresholdDac: int): (r: Result<GigaIwaki, ConfigError>)
    requires connection.Valid()
    ensures r.Ok? <==> id in BoardIds && 0 <= voltageThresholdDac < VthLimit
    ensures r.Ok? ==> r.value.Valid()
    ensures r.Ok? ==> r.value == GigaIwaki(id, isActive, connection, pitch, ipAddress, dacFile, voltageThresholdDac)
    ensures r.Err? ==> r.error == ValidationError
  {
    if id in BoardIds && 0 <= voltageThresholdDac < VthLimit
    then Ok(GigaIwaki(id, isActive, connection, pitch, ipAddress, dacFile, voltageThresholdDac))
    else Err(ValidationError)
  }

  /** The validated constructor of `Adalm`. */
  function NewAdalm(id: string, isActive: bool, uri: string, serialNumber: string, clockD: string): (r: Result<Adalm, ConfigError>)
    ensures r.Ok? <==> id in AdalmIds
    ensures r.Ok? ==> r.value.Valid() && r.value == Adalm(id, isActive, uri, serialNumber, clockD)
    ensures r.Err? ==> r.error == ValidationError
  {
    if id in AdalmIds then Ok(Adalm(id, isActive, uri, serialNumber, clockD)) else Err(ValidationError)
  }

  /** One `gigaIwaki` record after decoding, with its fields already converted to their types. */
  datatype GigaIwakiRecord = GigaIwakiRecord(
    active: bool, connection: string, pitch: int, ip: string, dacFile: string, vth: int)

  /** One `ADALM` record after decoding. */
  datatype AdalmRecord = AdalmRecord(active: bool, uri: string, serialNumber: string, clockD: string)

  /** The decoded configuration: each section's (key, record) pairs in key order. */
  datatype ConfigRecords = ConfigRecords(gigaIwaki: seq<(string, GigaIwakiRecord)>, adalm: seq<(string, AdalmRecord)>)

  function ParseGigaIwaki(key: string, rec: GigaIwakiRecord): (r: Result<GigaIwaki, ConfigError>)
    ensures ParseConnection(rec.connection).Err? ==> r == Err(ParseConnection(rec.connection).error)
    ensures r.Ok? <==> ParseConnection(rec.connection).Ok? && Suffix(key, 2) in BoardIds && 0 <= rec.vth < VthLimit
    ensures r.Ok? ==> r.value.Valid() && r.value.id == Suffix(key, 2) && r.value.isActive == rec.active
    ensures r.Ok? ==> r.value.connection == ParseConnection(rec.connection).value
  {
    match ParseConnection(rec.connection)
    case Err(e) => Err(e)
    case Ok(connection) =>
      NewGigaIwaki(Suffix(key, 2), rec.active, connection, rec.pitch, rec.ip, rec.dacFile, rec.vth)
  }

  function ParseAdalm(key: string, rec: AdalmRecord): (r: Result<Adalm, ConfigError>)
    ensures |key| == 0 ==> r == Err(IndexError)
    ensures r.Ok? <==> |key| > 0 && [key[|key| - 1]] in AdalmIds
    ensures r.Ok? ==> r.value.Valid() && r.value.id == [key[|key| - 1]] && r.value.isActive == rec.active
  {
    if |key| == 0 then Err(IndexError)
    else NewAdalm([key[|key| - 1]], rec.active, rec.uri, rec.serialNumber, rec.clockD)
  }

  /** The record a valid board is written as, under its own name as key. */
  function RecordOf(b: GigaIwaki, middle: string): GigaIwakiRecord
    requires b.Valid()
  {
    GigaIwakiRecord(b.isActive, ConnectionString(b.connection, middle), b.pitch, b.ipAddress, b.dacFile, b.voltageThresholdDac)
  }

  /** Reading back a valid board keyed by its name gives the same board. */
  lemma ParseGigaIwakiOfName(b: GigaIwaki, middle: string)
    requires b.Valid()
    ensures ParseGigaIwaki(b.Name(), RecordOf(b, middle)) == Ok(b)
  {
    ParseConnectionString(b.connection, middle);
    assert Suffix(b.Name(), 2) == b.id;
  }

  /** Reading back a valid ADALM keyed by its name gives the same ADALM. */
  lemma ParseAdalmOfName(a: Adalm)
    requires a.Valid()
    ensures ParseAdalm(a.Name(), AdalmRecord(a.isActive, a.uri, a.serialNumber, a.clockD)) == Ok(a)
  {
    assert [a.Name()[|a.Name()| - 1]] == a.id;
  }

  /** The first `n` records of each kind convert without error. */
  predicate GigaIwakiPrefixOk(items: seq<(string, GigaIwakiRecord)>, n: nat)
    requires n <= |items|
  {
    forall j :: 0 <= j < n ==> ParseGigaIwaki(items[j].0, items[j].1).Ok?
  }

  predicate AdalmPrefixOk(items: seq<(string, AdalmRecord)>, n: nat)
    requires n <= |items|
  {
    forall j :: 0 <= j < n ==> ParseAdalm(items[j].0, items[j].1).Ok?
  }

  /**
   * Converts every record in key order, failing with the error of the first
   * record that does not convert.
   */
  method Parse(records: ConfigRecords) returns (r: Result<MadaConfig, ConfigError>)
    ensures r.Ok? <==> GigaIwakiPrefixOk(records.gigaIwaki, |records.gigaIwaki|) && AdalmPrefixOk(records.adalm, |records.adalm|)
    ensures r.Ok? ==> r.value.Valid()
    ensures r.Ok? ==> |r.value.gigaIwaki| == |records.gigaIwaki| && |r.value.adalm| == |records.adalm|
    ensures r.Ok? ==> forall i :: 0 <= i < |records.gigaIwaki| ==>
      Ok(r.value.gigaIwaki[i]) == ParseGigaIwaki(records.gigaIwaki[i].0, records.gigaIwaki[i].1)
    ensures r.Ok? ==> forall i :: 0 <= i < |records.adalm| ==>
      Ok(r.value.adalm[i]) == ParseAdalm(records.adalm[i].0, records.adalm[i].1)
    ensures r.Err? ==>
      (exists i :: 0 <= i < |records.gigaIwaki| && GigaIwakiPrefixOk(records.gigaIwaki, i) &&
        ParseGigaIwaki(records.gigaIwaki[i].0, records.gigaIwaki[i].1) == Err(r.error)) ||
      (GigaIwakiPrefixOk(records.gigaIwaki, |records.gigaIwaki|) &&
        exists i :: 0 <= i < |records.adalm| && AdalmPrefixOk(records.adalm, i) &&
          ParseAdalm(records.adalm[i].0, records.adalm[i].1) == Err(r.error))
  {
    var gigaItems := records.gigaIwaki;
    var boards: seq<GigaIwaki> := [];
    for i := 0 to |gigaItems|
      invariant |boards| == i && GigaIwakiPrefixOk(gigaItems, i)
      invariant forall j :: 0 <= j < i ==> Ok(boards[j]) == ParseGigaIwaki(gigaItems[j].0, gigaItems[j].1)
    {
      var board := ParseGigaIwaki(gigaItems[i].0, gigaItems[i].1);
      if board.Err? {
        return Err(board.error);
      }
      boards := boards + [board.value];
    }
    var adalmItems := records.adalm;
    var adalms: seq<Adalm> := [];
    for i := 0 to |adalmItems|
      invariant |adalms| == i && AdalmPrefixOk(adalmItems, i)
      invariant forall j :: 0 <= j < i ==> Ok(adalms[j]) == ParseAdalm(adalmItems[j].0, adalmItems[j].1)
    {
      var adalm := ParseAdalm(adalmItems[i].0, adalmItems[i].1);
      if adalm.Err? {
        return Err(adalm.error);
      }
      adalms := adalms + [adalm.value];
    }
    r := Ok(MadaConfig(boards, adalms));
  }
}
