/**
 * The frame splitter and header decoder of a `.mada` file (mada_reader/parser.py).
 * A file is cut into pieces at every `uPIC` marker; the first sixteen bytes of a piece hold four
 * ignored bytes and three big-endian unsigned 32-bit counters.
 */
module Parser {
  import opened Wrappers
  import opened Splitting
  import opened Decimal

  newtype byte = x: int | 0 <= x < 256

  /** The ASCII bytes of "uPIC". */
  const Marker: seq<byte> := [0x75, 0x50, 0x49, 0x43]

  /** Bytes in a piece before the remainder: four skipped bytes and three 4-byte counters. */
  const HeaderSize: nat := 16

  const Two32: nat := 0x1_0000_0000

  datatype EventHeader = EventHeader(triggerCounter: nat, clockCounter: nat, inputCh2Counter: nat)
  {
    /** The three counters, each below 2^32, as a decoded header always has them. */
    predicate Valid() {
      triggerCounter < Two32 && clockCounter < Two32 && inputCh2Counter < Two32
    }

    /** The counters in decimal, separated by tab characters: a tab-separated line can be read back. */
    function Col(): (line: string)
      ensures Split(line, "\t") == [NatToString(triggerCounter), NatToString(clockCounter), NatToString(inputCh2Counter)]
      ensures DigitsValue(Split(line, "\t")[0]) == triggerCounter
      ensures DigitsValue(Split(line, "\t")[1]) == clockCounter
      ensures DigitsValue(Split(line, "\t")[2]) == inputCh2Counter
    {
      var fields := [NatToString(triggerCounter), NatToString(clockCounter), NatToString(inputCh2Counter)];
      var line := NatToString(triggerCounter) + "\t" + NatToString(clockCounter) + "\t" + NatToString(inputCh2Counter);
      assert Join(fields, "\t") == line by {
        assert Join(fields[2..], "\t") == fields[2];
      }
      forall f, i | f in fields && 0 <= i < |f| ensures !OccursAt(f, "\t", i) {
        assert IsDigit(f[i]) && f[i..i + 1][0] == f[i];
      }
      SplitJoin(fields, "\t");
      NatToStringRoundTrip(triggerCounter);
      NatToStringRoundTrip(clockCounter);
      NatToStringRoundTrip(inputCh2Counter);
      line
    }
  }

  /** `struct.error`: a slice handed to `struct.unpack` is shorter than its format needs. */
  datatype ParseError = StructError

  /**
   * `read_file` on bytes already read: `split(b"uPIC")`. Joining the pieces with the marker gives
   * the buffer back, no piece holds the marker, and every marker adds one piece, so a marker at
   * either end or two markers in a row yield an empty piece.
   */
  function ReadFile(buffer: seq<byte>): (pieces: seq<seq<byte>>)
    ensures Join(pieces, Marker) == buffer
    ensures forall p :: p in pieces ==> !Contains(p, Marker)
    ensures |pieces| == CountOccurrences(buffer, Marker) + 1
  {
    JoinSplit(buffer, Marker);
    SplitPiecesFree(buffer, Marker);
    SplitCount(buffer, Marker);
    Split(buffer, Marker)
  }

  lemma MarkerBorderFree()
    ensures BorderFree(Marker)
  {
    assert Marker[1..][0] != Marker[..3][0];
    assert Marker[2..][0] != Marker[..2][0];
    assert Marker[3..][0] != Marker[..1][0];
  }

  /** Splitting a buffer made by joining marker-free pieces gives exactly those pieces. */
  lemma ReadFileOfJoin(pieces: seq<seq<byte>>)
    requires |pieces| >= 1
    requires forall p :: p in pieces ==> !Contains(p, Marker)
    ensures ReadFile(Join(pieces, Marker)) == pieces
  {
    MarkerBorderFree();
    SplitJoin(pieces, Marker);
  }

  /** A buffer that starts with the marker yields an empty first piece; the pieces are not filtered. */
  lemma ReadFileKeepsEmptyPieces()
    ensures ReadFile(Marker + [0x78, 0x78, 0x78] + Marker + [0x79, 0x79, 0x79]) == [[], [0x78, 0x78, 0x78], [0x79, 0x79, 0x79]]
  {
    var pieces: seq<seq<byte>> := [[], [0x78, 0x78, 0x78], [0x79, 0x79, 0x79]];
    forall p | p in pieces ensures !Contains(p, Marker) {
    }
    assert Join(pieces[2..], Marker) == [0x79, 0x79, 0x79];
    assert Join(pieces[1..], Marker) == [0x78, 0x78, 0x78] + Marker + [0x79, 0x79, 0x79];
    assert Join(pieces, Marker) == Marker + [0x78, 0x78, 0x78] + Marker + [0x79, 0x79, 0x79];
    ReadFileOfJoin(pieces);
  }

  /** `struct.unpack("!I", …)`: four bytes, most significant first, as an unsigned number. */
  function BigEndian32(b: seq<byte>): (n: nat)
    requires |b| == 4
    ensures n < Two32
  {
    ((b[0] as nat * 256 + b[1] as nat) * 256 + b[2] as nat) * 256 + b[3] as nat
  }

  /** `struct.pack("!I", n)`: the inverse of BigEndian32. */
  function EncodeBigEndian32(n: nat): (b: seq<byte>)
    requires n < Two32
    ensures |b| == 4
  {
    var m1 := n / 256;
    var m2 := m1 / 256;
    [(m2 / 256) as byte, (m2 % 256) as byte, (m1 % 256) as byte, (n % 256) as byte]
  }

  lemma BigEndian32OfEncode(n: nat)
    requires n < Two32
    ensures BigEndian32(EncodeBigEndian32(n)) == n
  {
    var m1 := n / 256;
    var m2 := m1 / 256;
    assert m2 == (m2 / 256) * 256 + m2 % 256;
    assert m1 == m2 * 256 + m1 % 256;
    assert n == m1 * 256 + n % 256;
  }

  lemma DivModByte(q: nat, r: nat)
    requires r < 256
    ensures (q * 256 + r) / 256 == q && (q * 256 + r) % 256 == r
  {
  }

  lemma EncodeOfBigEndian32(b: seq<byte>)
    requires |b| == 4
    ensures EncodeBigEndian32(BigEndian32(b)) == b
  {
    var h2 := b[0] as nat * 256 + b[1] as nat;
    var h1 := h2 * 256 + b[2] as nat;
    DivModByte(h1, b[3] as nat);
    DivModByte(h2, b[2] as nat);
    DivModByte(b[0] as nat, b[1] as nat);
  }

  /**
   * `parse_header`: bytes 0..4 are read and dropped, bytes 4..16 are the trigger, clock and input-2
   * counters; the result is the header paired with everything from byte 16 on. A piece shorter than
   * sixteen bytes makes `struct.unpack` fail.
   */
  function ParseHeader(event: seq<byte>): (r: Result<(EventHeader, seq<byte>), ParseError>)
    ensures r.Err? <==> |event| < HeaderSize
    ensures r.Ok? ==> r.value.0.Valid() && |r.value.1| == |event| - HeaderSize
  {
    if |event| < 4 then Err(StructError)
    else if |event| < HeaderSize then Err(StructError)
    else
      var header := EventHeader(BigEndian32(event[4..8]), BigEndian32(event[8..12]), BigEndian32(event[12..16]));
      Ok((header, event[HeaderSize..]))
  }

  /** The bytes of a piece whose first four bytes are `skipped`, then `header`, then `rest`. */
  function EncodeHeader(skipped: seq<byte>, header: EventHeader, rest: seq<byte>): (event: seq<byte>)
    requires |skipped| == 4 && header.Valid()
    ensures |event| == HeaderSize + |rest|
  {
    skipped + EncodeBigEndian32(header.triggerCounter) + EncodeBigEndian32(header.clockCounter)
      + EncodeBigEndian32(header.inputCh2Counter) + rest
  }

  /** Decoding an encoded header gives back the header and the remainder, whatever the skipped bytes. */
  lemma ParseEncodedHeader(skipped: seq<byte>, header: EventHeader, rest: seq<byte>)
    requires |skipped| == 4 && header.Valid()
    ensures ParseHeader(EncodeHeader(skipped, header, rest)) == Ok((header, rest))
  {
    var e := EncodeHeader(skipped, header, rest);
    assert e[4..8] == EncodeBigEndian32(header.triggerCounter);
    assert e[8..12] == EncodeBigEndian32(header.clockCounter);
    assert e[12..16] == EncodeBigEndian32(header.inputCh2Counter);
    assert e[16..] == rest;
    BigEndian32OfEncode(header.triggerCounter);
    BigEndian32OfEncode(header.clockCounter);
    BigEndian32OfEncode(header.inputCh2Counter);
  }

  /** Every piece long enough to decode is the encoding of what it decodes to. */
  lemma EncodeParsedHeader(event: seq<byte>)
    requires ParseHeader(event).Ok?
    ensures EncodeHeader(event[..4], ParseHeader(event).value.0, ParseHeader(event).value.1) == event
  {
    EncodeOfBigEndian32(event[4..8]);
    EncodeOfBigEndian32(event[8..12]);
    EncodeOfBigEndian32(event[12..16]);
    assert event == event[..4] + event[4..8] + event[8..12] + event[12..16] + event[16..];
  }

  /** The first four bytes of a piece have no effect on its decoding. */
  lemma ParseHeaderIgnoresFirstBytes(e1: seq<byte>, e2: seq<byte>)
    requires |e1| == |e2|
    requires forall i :: 4 <= i < |e1| ==> e1[i] == e2[i]
    ensures ParseHeader(e1) == ParseHeader(e2)
  {
    if |e1| >= HeaderSize {
      assert e1[4..8] == e1[4..][..4] == e2[4..8];
      assert e1[8..12] == e1[4..][4..8] == e2[8..12];
      assert e1[12..16] == e1[4..][8..12] == e2[12..16];
      assert e1[16..] == e1[4..][12..] == e2[16..];
    }
  }

  /** The header of the fixture's event 123: trigger 123, clock 1177695, input-2 counter 0. */
  lemma ParseHeaderFixture(skipped: seq<byte>, rest: seq<byte>)
    requires |skipped| == 4
    ensures ParseHeader(skipped + [0, 0, 0, 123, 0x00, 0x11, 0xF8, 0x5F, 0, 0, 0, 0] + rest)
         == Ok((EventHeader(123, 1177695, 0), rest))
  {
    var e := skipped + [0, 0, 0, 123, 0x00, 0x11, 0xF8, 0x5F, 0, 0, 0, 0] + rest;
    assert e[4..8] == [0, 0, 0, 123];
    assert e[8..12] == [0x00, 0x11, 0xF8, 0x5F];
    assert e[12..16] == [0, 0, 0, 0];
    assert e[16..] == rest;
  }

  /**
   * `parse_headers`: the header of every piece, in order. No piece is skipped: the first piece
   * shorter than sixteen bytes makes the whole call fail.
   */
  function ParseHeaders(events: seq<seq<byte>>): (r: Result<seq<EventHeader>, ParseError>)
    ensures r.Ok? <==> forall i :: 0 <= i < |events| ==> |events[i]| >= HeaderSize
    ensures r.Ok? ==> |r.value| == |events|
    ensures r.Ok? ==> forall i :: 0 <= i < |events| ==> ParseHeader(events[i]) == Ok((r.value[i], events[i][HeaderSize..]))
  {
    if events == [] then Ok([])
    else
      match ParseHeader(events[0])
      case Err(e) => Err(e)
      case Ok(parsed) =>
        match ParseHeaders(events[1..])
        case Err(e) => Err(e)
        case Ok(headers) => Ok([parsed.0] + headers)
  }
}
