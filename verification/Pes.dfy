/** PES packets (src/mpegts_pes.cpp): timestamps, header and packet parser, and the accumulator that
    reassembles packets from payloads. */
module Pes {
  import opened Bytes
  import Clock

  const TIMESTAMP_TURN: int := 0x2_0000_0000

  // ------------------------------------------------------------------------------------------
  // Timestamps
  // ------------------------------------------------------------------------------------------

  function TimestampDifference(a: int, b: int): int {
    Clock.Difference(a, b, TIMESTAMP_TURN)
  }

  lemma TimestampDifferenceIsShortest(a: int, b: int, other: int)
    requires 0 <= a < TIMESTAMP_TURN && 0 <= b < TIMESTAMP_TURN
    requires Clock.Leads(a, b, TIMESTAMP_TURN, other)
    ensures TIMESTAMP_TURN == 8589934592
    ensures var d := TimestampDifference(a, b);
      && Clock.Leads(a, b, TIMESTAMP_TURN, d) && -TIMESTAMP_TURN / 2 <= d <= TIMESTAMP_TURN / 2
      && (if d < 0 then -d else d) <= (if other < 0 then -other else other)
      && TimestampDifference(b, a) == -d
  {
    Clock.DifferenceIsShortest(a, b, TIMESTAMP_TURN, other);
    Clock.Antisymmetric(a, b, TIMESTAMP_TURN);
  }

  /** The 33 bits of a timestamp, spread over five octets with marker bits between them. */
  function ExtractTimestamp(b0: Byte, b1: Byte, b2: Byte, b3: Byte, b4: Byte): nat {
    var t0: int, t1: int, t2: int, t3: int, t4: int := b0 / 2 % 8, b1, b2 / 2, b3, b4 / 2;
    t0 * 0x4000_0000 + t1 * 0x40_0000 + t2 * 0x8000 + t3 * 0x80 + t4
  }

  /** The five octets of a timestamp with its four-bit prefix and markers. */
  function EncodeTimestamp(prefix: nat, ts: nat): (b: seq<Byte>)
    requires prefix < 16 && ts < TIMESTAMP_TURN
    ensures |b| == 5
  {
    [prefix * 16 + ts / 0x4000_0000 * 2 + 1, ts / 0x40_0000 % 256, ts / 0x8000 % 128 * 2 + 1,
     ts / 0x80 % 256, ts % 128 * 2 + 1]
  }

  lemma TimestampRoundTrip(prefix: nat, ts: nat)
    requires prefix < 16 && ts < TIMESTAMP_TURN
    ensures var b := EncodeTimestamp(prefix, ts); ExtractTimestamp(b[0], b[1], b[2], b[3], b[4]) == ts
  {
    MarkedBits(prefix, ts / 0x4000_0000);
    Unmarked(ts / 0x8000 % 128);
    Unmarked(ts % 128);
    TimestampParts(ts);
    var b := EncodeTimestamp(prefix, ts);
    var p1, p3 := ts / 0x40_0000 % 256, ts / 0x80 % 256;
    assert b[1] == p1 && b[3] == p3;
    hide EncodeTimestamp;
  }

  lemma Unmarked(x: nat)
    ensures (x * 2 + 1) / 2 == x
  {}

  lemma MarkedBits(prefix: nat, x: nat)
    requires x < 8
    ensures (prefix * 16 + x * 2 + 1) / 2 % 8 == x
  {
    assert (prefix * 16 + x * 2 + 1) / 2 == prefix * 8 + x;
  }

  lemma TimestampParts(ts: nat)
    ensures ts == ts / 0x4000_0000 * 0x4000_0000 + ts / 0x40_0000 % 256 * 0x40_0000 + ts / 0x8000 % 128 * 0x8000
      + ts / 0x80 % 256 * 0x80 + ts % 128
  {
    var q1 := ts / 128;
    var q2 := q1 / 256;
    var q3 := q2 / 128;
    assert ts / 0x8000 == q2;
    assert ts / 0x40_0000 == q3;
    assert ts / 0x4000_0000 == q3 / 256;
  }

  // ------------------------------------------------------------------------------------------
  // What parsing computes
  // ------------------------------------------------------------------------------------------

  datatype PesHeader = PesHeader(
    startCode: nat, streamId: Byte, packetLength: nat, hasOptionalFields: bool,
    scrambling: nat, priority: bool, dataAlignment: bool, copyright: bool, original: bool,
    ptsDtsFlags: nat, hasPts: bool, hasDts: bool, escr: bool, esRate: bool, dsmTrick: bool, additionalCopy: bool,
    crcFlag: bool, extension: bool, headerDataLength: nat, pts: Option<nat>, dts: Option<nat>)
  {
    function Size(): nat {
      if hasOptionalFields then 9 + headerDataLength else 6
    }
  }

  datatype PesPacket = PesPacket(header: PesHeader, payload: seq<Byte>)

  /** Stream ids without optional header fields: program_stream_map, private_stream_2, ECM, EMM,
      program_stream_directory, DSMCC and H.222.1 type E. */
  predicate WithoutOptionalFields(streamId: Byte) {
    streamId == 0xBC || streamId == 0xBF || streamId == 0xF0 || streamId == 0xF1
    || streamId == 0xFF || streamId == 0xF2 || streamId == 0xF8
  }

  predicate StartCode(data: seq<Byte>) {
    |data| >= 3 && data[0] == 0 && data[1] == 0 && data[2] == 1
  }

  function ShortHeader(data: seq<Byte>, optional: bool): PesHeader
    requires |data| >= 6
  {
    PesHeader(1, data[3], U16(data[4], data[5]), optional, 0, false, false, false, false,
              0, false, false, false, false, false, false, false, false, 0, None, None)
  }

  function TimestampAt(data: seq<Byte>, at: nat): nat
    requires at + 5 <= |data|
  {
    ExtractTimestamp(data[at], data[at + 1], data[at + 2], data[at + 3], data[at + 4])
  }

  /** The octets the announced timestamps take. */
  function TimestampBytes(flags: nat): nat {
    if flags == 2 then 5 else if flags == 3 then 10 else 0
  }

  function DecodeHeader(data: seq<Byte>): Option<PesHeader> {
    if |data| < 6 || !StartCode(data) then None else
    if WithoutOptionalFields(data[3]) then Some(ShortHeader(data, false)) else
    if |data| < 9 || |data| < 9 + data[8] as int || |data| < 9 + TimestampBytes(data[7] / 64) then None else
    var h := ShortHeader(data, true);
    var flags := data[7] / 64;
    Some(WithFlags2(WithFlags1(h, data[6]), data[7]).(
      headerDataLength := data[8],
      pts := (if flags >= 2 then Some(TimestampAt(data, 9)) else None),
      dts := (if flags == 3 then Some(TimestampAt(data, 14)) else None)))
  }

  /** The flags of octet 6. */
  function WithFlags1(h: PesHeader, flags: Byte): PesHeader {
    h.(scrambling := flags / 16 % 4, priority := BitOf(flags, 3), dataAlignment := BitOf(flags, 2),
       copyright := BitOf(flags, 1), original := BitOf(flags, 0))
  }

  /** The flags of octet 7. */
  function WithFlags2(h: PesHeader, flags: Byte): PesHeader {
    var ptsDts := flags / 64 % 4;
    h.(ptsDtsFlags := ptsDts, hasPts := ptsDts == 2 || ptsDts == 3, hasDts := ptsDts == 3,
       escr := BitOf(flags, 5), esRate := BitOf(flags, 4), dsmTrick := BitOf(flags, 3),
       additionalCopy := BitOf(flags, 2), crcFlag := BitOf(flags, 1), extension := BitOf(flags, 0))
  }

  lemma FlagsKept(h: PesHeader, flags1: Byte, flags2: Byte)
    ensures var g := WithFlags2(WithFlags1(h, flags1), flags2);
      && g.hasPts == (flags2 / 64 >= 2) && g.hasDts == (flags2 / 64 == 3)
      && g.pts == h.pts && g.dts == h.dts
  {}

  function DecodePacket(data: seq<Byte>): Option<PesPacket> {
    var h := DecodeHeader(data);
    if h.None? || h.value.Size() > |data| then None else Some(PesPacket(h.value, data[h.value.Size()..]))
  }

  // ------------------------------------------------------------------------------------------
  // The parser
  // ------------------------------------------------------------------------------------------

  method ParseHeader(data: seq<Byte>) returns (header: Option<PesHeader>)
    ensures header == DecodeHeader(data)
  {
    hide WithFlags1;
    hide WithFlags2;
    hide ExtractTimestamp;
    if |data| < 6 {
      return None;
    }
    if !StartCode(data) {
      return None;
    }
    var h := ShortHeader(data, true);
    if WithoutOptionalFields(h.streamId) {
      return Some(h.(hasOptionalFields := false));
    }
    if |data| < 9 {
      return None;
    }
    FlagsKept(h, data[6], data[7]);
    h := WithFlags1(h, data[6]);
    h := WithFlags2(h, data[7]);
    h := h.(headerDataLength := data[8]);
    var totalHeaderSize := 9 + h.headerDataLength;
    if |data| < totalHeaderSize {
      return None;
    }
    var pos := 9;
    if h.hasPts {
      if pos + 5 > |data| { return None; }
      h := h.(pts := Some(TimestampAt(data, pos)));
      pos := pos + 5;
    }
    if h.hasDts {
      if pos + 5 > |data| { return None; }
      h := h.(dts := Some(TimestampAt(data, pos)));
      pos := pos + 5;
    }
    return Some(h);
  }

  method ParsePacket(data: seq<Byte>) returns (packet: Option<PesPacket>)
    ensures packet == DecodePacket(data)
  {
    hide DecodeHeader;
    var header := ParseHeader(data);
    if header.None? {
      return None;
    }
    var headerSize := header.value.Size();
    if headerSize > |data| {
      return None;
    }
    return Some(PesPacket(header.value, data[headerSize..]));
  }

  // ------------------------------------------------------------------------------------------
  // The accumulator
  // ------------------------------------------------------------------------------------------

  datatype Acc = Acc(buffer: seq<Byte>, expectedLength: nat, synced: bool, complete: bool)

  const EMPTY := Acc([], 0, false, false)

  /** The accumulator after its completeness check: a wrong start code resets it, a packet of
      announced length is complete when all of it is there, an unbounded one with its header. */
  function Checked(a: Acc): Acc {
    if |a.buffer| < 6 then a else
    if !StartCode(a.buffer) then EMPTY else
    var length := U16(a.buffer[4], a.buffer[5]);
    if length > 0 then a.(expectedLength := 6 + length, complete := a.complete || |a.buffer| >= 6 + length) else
    var h := DecodeHeader(a.buffer);
    if h.Some? && h.value.Size() <= |a.buffer| then a.(expectedLength := 0, complete := true) else a
  }

  /** The result of the check. */
  predicate FoundComplete(a: Acc) {
    && |a.buffer| >= 6 && StartCode(a.buffer)
    && var length := U16(a.buffer[4], a.buffer[5]);
       if length > 0 then |a.buffer| >= 6 + length
       else var h := DecodeHeader(a.buffer); h.Some? && h.value.Size() <= |a.buffer|
  }

  /** The accumulator when new data has been appended and not yet checked. */
  function Appended(a: Acc, data: seq<Byte>, start: bool): Acc {
    var base := if start then EMPTY.(synced := true) else a;
    base.(buffer := base.buffer + data)
  }

  predicate Ignores(a: Acc, data: seq<Byte>, start: bool) {
    data == [] || (!start && !a.synced)
  }

  /** The accumulator after `addData`. */
  function Added(a: Acc, data: seq<Byte>, start: bool): Acc {
    if Ignores(a, data, start) then a else Checked(Appended(a, data, start))
  }

  /** The result of `addData`. */
  predicate Completes(a: Acc, data: seq<Byte>, start: bool) {
    !Ignores(a, data, start) && FoundComplete(Appended(a, data, start))
  }

  class PESAccumulator {
    var buffer: seq<Byte>
    var expectedLength: nat
    var synced: bool
    var complete: bool

    constructor ()
      ensures View() == EMPTY
    {
      buffer, expectedLength, synced, complete := [], 0, false, false;
    }

    ghost function View(): Acc
      reads this
    {
      Acc(buffer, expectedLength, synced, complete)
    }

    method Reset()
      modifies this
      ensures View() == EMPTY
    {
      buffer, expectedLength, synced, complete := [], 0, false, false;
    }

    method AddData(data: seq<Byte>, payloadUnitStart: bool) returns (done: bool)
      modifies this
      ensures View() == Added(old(View()), data, payloadUnitStart)
      ensures done == Completes(old(View()), data, payloadUnitStart)
    {
      hide Checked;
      hide FoundComplete;
      if |data| == 0 {
        return false;
      }
      if payloadUnitStart {
        Reset();
        synced := true;
      }
      if !synced {
        return false;
      }
      buffer := buffer + data;
      done := ParseAndCheckComplete();
    }

    method ParseAndCheckComplete() returns (done: bool)
      modifies this
      ensures View() == Checked(old(View()))
      ensures done == FoundComplete(old(View()))
    {
      hide DecodeHeader;
      if |buffer| < 6 {
        return false;
      }
      if !StartCode(buffer) {
        Reset();
        return false;
      }
      var pesPacketLength := U16(buffer[4], buffer[5]);
      if pesPacketLength == 0 {
        var header := ParseHeader(buffer);
        if header.Some? {
          var headerSize := header.value.Size();
          if |buffer| >= headerSize {
            expectedLength := 0;
            complete := true;
            return true;
          }
        }
        return false;
      }
      expectedLength := 6 + pesPacketLength;
      if |buffer| >= expectedLength {
        complete := true;
        return true;
      }
      return false;
    }

    /** Hands out the packet parsed from the whole buffer, and resets on success only. */
    method GetPacket() returns (packet: Option<PesPacket>)
      modifies this
      ensures packet == if old(complete) then DecodePacket(old(buffer)) else None
      ensures View() == if packet.Some? then EMPTY else old(View())
    {
      hide DecodePacket;
      if !complete {
        return None;
      }
      packet := ParsePacket(buffer);
      if packet.Some? {
        Reset();
      }
    }
  }

  // ------------------------------------------------------------------------------------------
  // The packet syntax of the standard (section 2.4.3.6)
  // ------------------------------------------------------------------------------------------

  /** A packet together with the header octets after the timestamps. */
  datatype Layout = Layout(packet: PesPacket, extra: seq<Byte>)

  predicate WellFormedOptional(l: Layout) {
    var h := l.packet.header;
    && h.hasOptionalFields && h.streamId !in {0xBC, 0xBF, 0xF0, 0xF1, 0xF2, 0xF8, 0xFF} && h.scrambling < 4
    && h.hasPts == h.pts.Some? && h.hasDts == h.dts.Some?
    && h.ptsDtsFlags == (if h.dts.Some? then 3 else if h.pts.Some? then 2 else 0)
    && (h.dts.Some? ==> h.pts.Some?)
    && (h.pts.Some? ==> h.pts.value < TIMESTAMP_TURN) && (h.dts.Some? ==> h.dts.value < TIMESTAMP_TURN)
    && h.headerDataLength == TimestampBytes(h.ptsDtsFlags) + |l.extra| < 256
    && h.packetLength == 3 + h.headerDataLength + |l.packet.payload|
  }

  predicate WellFormedPlain(l: Layout) {
    var h := l.packet.header;
    && h.streamId in {0xBC, 0xBF, 0xF0, 0xF1, 0xF2, 0xF8, 0xFF} && l.extra == [] && h.packetLength == |l.packet.payload|
    && h == PesHeader(1, h.streamId, h.packetLength, false, 0, false, false, false, false,
                      0, false, false, false, false, false, false, false, false, 0, None, None)
  }

  /** A packet of announced, non-zero length. */
  predicate WellFormed(l: Layout) {
    && l.packet.header.startCode == 1 && 0 < l.packet.header.packetLength < 0x1_0000
    && (WellFormedOptional(l) || WellFormedPlain(l))
  }

  function TimestampFields(h: PesHeader): seq<Byte>
    requires h.pts.Some? ==> h.pts.value < TIMESTAMP_TURN
    requires h.dts.Some? ==> h.dts.value < TIMESTAMP_TURN
  {
    if h.pts.None? then [] else
    if h.dts.None? then EncodeTimestamp(2, h.pts.value) else
    EncodeTimestamp(3, h.pts.value) + EncodeTimestamp(1, h.dts.value)
  }

  function EncodeStart(h: PesHeader): (b: seq<Byte>)
    requires h.packetLength < 0x1_0000
    ensures |b| == 6
  {
    [0, 0, 1, h.streamId, h.packetLength / 256, h.packetLength % 256]
  }

  function FlagByte1(h: PesHeader): Byte {
    OctetValue(true, false, h.scrambling >= 2, h.scrambling % 2 == 1,
               h.priority, h.dataAlignment, h.copyright, h.original)
  }

  function FlagByte2(h: PesHeader): Byte {
    OctetValue(h.ptsDtsFlags >= 2, h.ptsDtsFlags % 2 == 1, h.escr, h.esRate,
               h.dsmTrick, h.additionalCopy, h.crcFlag, h.extension)
  }

  function FlagBytes(h: PesHeader): (b: seq<Byte>)
    requires h.headerDataLength < 256
    ensures |b| == 3
  {
    [FlagByte1(h), FlagByte2(h), h.headerDataLength]
  }

  function EncodeOptional(l: Layout): seq<Byte>
    requires WellFormed(l)
  {
    if !l.packet.header.hasOptionalFields then [] else
    FlagBytes(l.packet.header) + (TimestampFields(l.packet.header) + l.extra)
  }

  function Encode(l: Layout): seq<Byte>
    requires WellFormed(l)
  {
    EncodeStart(l.packet.header) + (EncodeOptional(l) + l.packet.payload)
  }

  lemma Flags1RoundTrip(h: PesHeader)
    requires h.scrambling < 4
    ensures var b := FlagByte1(h);
      && b / 16 % 4 == h.scrambling && BitOf(b, 3) == h.priority && BitOf(b, 2) == h.dataAlignment
      && BitOf(b, 1) == h.copyright && BitOf(b, 0) == h.original
  {
    hide OctetValue;
    hide BitOf;
    OctetValueBits(true, false, h.scrambling >= 2, h.scrambling % 2 == 1,
                   h.priority, h.dataAlignment, h.copyright, h.original);
    MiddleBits(FlagByte1(h), h.scrambling);
  }

  lemma Flags2RoundTrip(h: PesHeader)
    requires h.ptsDtsFlags < 4
    ensures var b := FlagByte2(h);
      && b / 64 == h.ptsDtsFlags
      && BitOf(b, 5) == h.escr && BitOf(b, 4) == h.esRate && BitOf(b, 3) == h.dsmTrick
      && BitOf(b, 2) == h.additionalCopy && BitOf(b, 1) == h.crcFlag && BitOf(b, 0) == h.extension
  {
    hide OctetValue;
    hide BitOf;
    OctetValueBits(h.ptsDtsFlags >= 2, h.ptsDtsFlags % 2 == 1, h.escr, h.esRate,
                   h.dsmTrick, h.additionalCopy, h.crcFlag, h.extension);
    LeadingBits(FlagByte2(h), h.ptsDtsFlags);
  }

  lemma MiddleBits(b: Byte, v: nat)
    requires v < 4 && BitOf(b, 5) == (v >= 2) && BitOf(b, 4) == (v % 2 == 1)
    ensures b / 16 % 4 == v
  {
    assert b / 32 == b / 16 / 2;
  }

  lemma LeadingBits(b: Byte, v: nat)
    requires v < 4 && BitOf(b, 7) == (v >= 2) && BitOf(b, 6) == (v % 2 == 1)
    ensures b / 64 == v
  {
    assert b / 128 == b / 64 / 2;
  }

  lemma StartRead(h: PesHeader, d: seq<Byte>)
    requires h.packetLength < 0x1_0000 && |d| >= 6 && d[..6] == EncodeStart(h)
    ensures StartCode(d) && d[3] == h.streamId && U16(d[4], d[5]) == h.packetLength
  {
    var b := EncodeStart(h);
    assert forall k | 0 <= k < 6 :: d[k] == d[..6][k] == b[k];
    assert U16(h.packetLength / 256, h.packetLength % 256) == h.packetLength;
  }

  lemma PartsLie(start: seq<Byte>, flags: seq<Byte>, stamps: seq<Byte>, extra: seq<Byte>, payload: seq<Byte>)
    requires |start| == 6 && |flags| == 3
    ensures var d := start + (flags + (stamps + extra) + payload); var end := 9 + |stamps| + |extra|;
      && |d| == end + |payload| && d[..6] == start && d[6..9] == flags && d[9..9 + |stamps|] == stamps
      && d[end..] == payload
  {}

  /** Where the parts of an encoded packet lie. */
  lemma EncodedParts(l: Layout)
    requires WellFormed(l)
    ensures var h, d := l.packet.header, Encode(l);
      && StartCode(d) && d[3] == h.streamId && U16(d[4], d[5]) == h.packetLength
      && |d| == 6 + h.packetLength && h.Size() <= |d| && d[h.Size()..] == l.packet.payload
      && (h.hasOptionalFields ==>
          d[6..9] == FlagBytes(h) && d[9..9 + |TimestampFields(h)|] == TimestampFields(h))
  {
    hide FlagBytes;
    hide TimestampFields;
    hide WithoutOptionalFields;
    hide EncodeStart;
    hide StartCode;
    hide U16;
    var h, d := l.packet.header, Encode(l);
    if h.hasOptionalFields {
      TimestampSize(l);
      PartsLie(EncodeStart(h), FlagBytes(h), TimestampFields(h), l.extra, l.packet.payload);
    } else {
      assert [] + l.packet.payload == l.packet.payload;
    }
    StartRead(h, d);
  }

  lemma TimestampSize(l: Layout)
    requires WellFormed(l) && l.packet.header.hasOptionalFields
    ensures |TimestampFields(l.packet.header)| == TimestampBytes(l.packet.header.ptsDtsFlags)
  {}

  /** The timestamps are recovered from their place in the packet. */
  lemma TimestampsRecovered(l: Layout)
    requires WellFormed(l) && l.packet.header.hasOptionalFields
    ensures var h, d := l.packet.header, Encode(l);
      && 9 + |TimestampFields(h)| <= |d|
      && (h.pts.Some? ==> TimestampAt(d, 9) == h.pts.value)
      && (h.dts.Some? ==> TimestampAt(d, 14) == h.dts.value)
  {
    EncodedParts(l);
    hide Encode;
    hide EncodeTimestamp;
    hide ExtractTimestamp;
    var h, d := l.packet.header, Encode(l);
    var t := TimestampFields(h);
    forall k | 0 <= k < |t| ensures d[9 + k] == t[k] { assert d[9..9 + |t|][k] == d[9 + k]; }
    if h.pts.Some? {
      TimestampRoundTrip(if h.dts.Some? then 3 else 2, h.pts.value);
    }
    if h.dts.Some? {
      TimestampRoundTrip(1, h.dts.value);
    }
  }

  lemma HeaderRoundTrip(l: Layout)
    requires WellFormed(l)
    ensures DecodeHeader(Encode(l)) == Some(l.packet.header)
  {
    var h, d := l.packet.header, Encode(l);
    EncodedParts(l);
    if h.hasOptionalFields {
      TimestampSize(l);
      TimestampsRecovered(l);
      hide Encode;
      hide FlagByte1;
      hide FlagByte2;
      assert d[6] == d[6..9][0] && d[7] == d[6..9][1] && d[8] == d[6..9][2];
      hide *;
      OptionalHeader(l, d);
    } else {
      hide Encode;
    }
  }

  lemma OptionalHeader(l: Layout, d: seq<Byte>)
    requires WellFormed(l) && l.packet.header.hasOptionalFields
    requires var h := l.packet.header;
      && |d| == 6 + h.packetLength && StartCode(d) && d[3] == h.streamId && U16(d[4], d[5]) == h.packetLength
      && d[6] == FlagByte1(h) && d[7] == FlagByte2(h) && d[8] == h.headerDataLength
      && 9 + |TimestampFields(h)| <= |d| && |TimestampFields(h)| == TimestampBytes(h.ptsDtsFlags)
      && (h.pts.Some? ==> TimestampAt(d, 9) == h.pts.value)
      && (h.dts.Some? ==> TimestampAt(d, 14) == h.dts.value)
    ensures DecodeHeader(d) == Some(l.packet.header)
  {
    FlagsApplied(l.packet.header, ShortHeader(d, true));
    Flags2RoundTrip(l.packet.header);
    hide WithFlags1;
    hide WithFlags2;
    hide FlagByte1;
    hide FlagByte2;
    hide TimestampFields;
    hide TimestampAt;
    hide StartCode;
    hide WithoutOptionalFields;
  }

  lemma FlagsApplied(h: PesHeader, g: PesHeader)
    requires h.scrambling < 4 && h.ptsDtsFlags < 4
    requires h.hasPts == (h.ptsDtsFlags >= 2) && h.hasDts == (h.ptsDtsFlags == 3)
    requires g.startCode == h.startCode && g.streamId == h.streamId && g.packetLength == h.packetLength
    requires g.hasOptionalFields == h.hasOptionalFields
    ensures WithFlags2(WithFlags1(g, FlagByte1(h)), FlagByte2(h)).(
      headerDataLength := h.headerDataLength, pts := h.pts, dts := h.dts) == h
  {
    Flags1RoundTrip(h);
    Flags2RoundTrip(h);
    hide FlagByte1;
    hide FlagByte2;
    hide BitOf;
  }

  /** Parsing recovers header, timestamps and payload of every well-formed packet. */
  lemma RoundTrip(l: Layout)
    requires WellFormed(l)
    ensures DecodePacket(Encode(l)) == Some(l.packet)
  {
    HeaderRoundTrip(l);
    EncodedParts(l);
    hide Encode;
    hide DecodeHeader;
  }

  /** Packets of audio and video streams, ids 0xC0 to 0xEF, keep their optional header and timestamps. */
  lemma MediaKeepsTimestamps(l: Layout)
    requires WellFormed(l) && 0xC0 <= l.packet.header.streamId <= 0xEF
    ensures l.packet.header.hasOptionalFields
    ensures var p := DecodePacket(Encode(l));
      && p.Some? && p.value.header.hasOptionalFields && p.value.payload == l.packet.payload
      && p.value.header.pts == l.packet.header.pts && p.value.header.dts == l.packet.header.dts
  {
    RoundTrip(l);
    hide Encode;
    hide DecodePacket;
  }

  // ------------------------------------------------------------------------------------------
  // What any octets parse to
  // ------------------------------------------------------------------------------------------

  /** The value of the 33-bit timestamp at a position. */
  function Stamp(data: seq<Byte>, at: nat): nat
    requires at + 5 <= |data|
  {
    var b0: int, b1: int, b2: int, b3: int, b4: int := data[at], data[at + 1], data[at + 2], data[at + 3], data[at + 4];
    b0 / 2 % 8 * 1073741824 + b1 * 4194304 + b2 / 2 * 32768 + b3 * 128 + b4 / 2
  }

  lemma StampIs(data: seq<Byte>, at: nat)
    requires at + 5 <= |data|
    ensures TimestampAt(data, at) == Stamp(data, at)
  {}

  /** A header is there exactly if the start code is, and, unless the stream id goes without, the
      optional fields and the timestamps that they announce. */
  lemma HeaderParsesExactly(data: seq<Byte>)
    ensures DecodeHeader(data).Some?
      <==> |data| >= 6 && data[0] == 0 && data[1] == 0 && data[2] == 1
           && (data[3] in {0xBC, 0xBF, 0xF0, 0xF1, 0xF2, 0xF8, 0xFF}
               || (|data| >= 9 && |data| >= 9 + data[8] as int
                   && (data[7] / 64 == 2 ==> |data| >= 14) && (data[7] / 64 == 3 ==> |data| >= 19)))
  {
    hide WithFlags1;
    hide WithFlags2;
    hide ExtractTimestamp;
  }

  lemma FlagsRead(h: PesHeader, flags1: Byte, flags2: Byte)
    ensures var g := WithFlags2(WithFlags1(h, flags1), flags2);
      && g.scrambling == flags1 / 16 % 4 && g.priority == (flags1 / 8 % 2 == 1)
      && g.dataAlignment == (flags1 / 4 % 2 == 1) && g.copyright == (flags1 / 2 % 2 == 1)
      && g.original == (flags1 % 2 == 1)
      && g.ptsDtsFlags == flags2 / 64 && g.hasPts == (flags2 / 64 >= 2) && g.hasDts == (flags2 / 64 == 3)
      && g.escr == (flags2 / 32 % 2 == 1) && g.esRate == (flags2 / 16 % 2 == 1) && g.dsmTrick == (flags2 / 8 % 2 == 1)
      && g.additionalCopy == (flags2 / 4 % 2 == 1) && g.crcFlag == (flags2 / 2 % 2 == 1)
      && g.extension == (flags2 % 2 == 1)
      && g.startCode == h.startCode && g.streamId == h.streamId && g.packetLength == h.packetLength
      && g.hasOptionalFields == h.hasOptionalFields
  {}

  /** What every header parsed from any octets holds. */
  lemma ParsedHeader(data: seq<Byte>)
    requires DecodeHeader(data).Some?
    ensures var h := DecodeHeader(data).value;
      && |data| >= 6 && h.startCode == 1 && h.streamId == data[3]
      && h.packetLength == data[4] as int * 256 + data[5] as int
      && (h.hasOptionalFields <==> data[3] !in {0xBC, 0xBF, 0xF0, 0xF1, 0xF2, 0xF8, 0xFF})
      && (!h.hasOptionalFields ==> h.Size() == 6 && h.pts == None && h.dts == None)
    ensures var h := DecodeHeader(data).value;
      h.hasOptionalFields ==>
        && |data| >= 9 + data[8] as int && h.headerDataLength == data[8] && h.Size() == 9 + data[8] as int
        && h.scrambling == data[6] / 16 % 4 && h.priority == (data[6] / 8 % 2 == 1)
        && h.dataAlignment == (data[6] / 4 % 2 == 1) && h.copyright == (data[6] / 2 % 2 == 1)
        && h.original == (data[6] % 2 == 1)
        && h.ptsDtsFlags == data[7] / 64 && h.hasPts == (data[7] / 64 >= 2) && h.hasDts == (data[7] / 64 == 3)
        && h.escr == (data[7] / 32 % 2 == 1) && h.esRate == (data[7] / 16 % 2 == 1)
        && h.dsmTrick == (data[7] / 8 % 2 == 1) && h.additionalCopy == (data[7] / 4 % 2 == 1)
        && h.crcFlag == (data[7] / 2 % 2 == 1) && h.extension == (data[7] % 2 == 1)
        && (h.pts.Some? <==> data[7] / 64 >= 2) && (h.dts.Some? <==> data[7] / 64 == 3)
        && (h.pts.Some? ==> |data| >= 14 && h.pts.value == Stamp(data, 9))
        && (h.dts.Some? ==> |data| >= 19 && h.dts.value == Stamp(data, 14))
  {
    HeaderParsesExactly(data);
    if data[3] !in {0xBC, 0xBF, 0xF0, 0xF1, 0xF2, 0xF8, 0xFF} {
      FlagsRead(ShortHeader(data, true), data[6], data[7]);
      if |data| >= 14 { StampIs(data, 9); }
      if |data| >= 19 { StampIs(data, 14); }
    }
    hide WithFlags1;
    hide WithFlags2;
    hide TimestampAt;
    hide Stamp;
  }

  /** A packet is parsed exactly if its header is, and its payload is all that follows the header. */
  lemma PacketParsesExactly(data: seq<Byte>)
    ensures DecodePacket(data).Some? <==> DecodeHeader(data).Some?
    ensures DecodePacket(data).Some? ==>
      var p := DecodePacket(data).value;
      var size := if p.header.hasOptionalFields then 9 + p.header.headerDataLength else 6;
      p.header == DecodeHeader(data).value && size <= |data| && p.payload == data[size..]
  {
    if DecodeHeader(data).Some? { ParsedHeader(data); }
    hide DecodeHeader;
  }

  /** Data without start and before any, and no data at all, change nothing. */
  lemma IgnoredUntilStart(a: Acc, data: seq<Byte>, start: bool)
    requires data == [] || (!start && !a.synced)
    ensures Added(a, data, start) == a && !Completes(a, data, start)
  {}

  /** What an accumulator holds after any data that counts: a start empties it first. */
  function Total(a: Acc, data: seq<Byte>, start: bool): seq<Byte> {
    (if start then [] else a.buffer) + data
  }

  predicate Counts(a: Acc, data: seq<Byte>, start: bool) {
    data != [] && (start || a.synced)
  }

  /** A wrong start code empties the accumulator, and no header is parsed. */
  lemma WrongStartCode(a: Acc, data: seq<Byte>, start: bool)
    requires var t := Total(a, data, start);
      Counts(a, data, start) && |t| >= 6 && !(t[0] == 0 && t[1] == 0 && t[2] == 1)
    ensures Added(a, data, start) == Acc([], 0, false, false) && !Completes(a, data, start)
    ensures DecodeHeader(Total(a, data, start)) == None
  {}

  /** A packet of announced length completes exactly when all of it has arrived. */
  lemma AnnouncedCompletes(a: Acc, data: seq<Byte>, start: bool)
    requires var t := Total(a, data, start);
      Counts(a, data, start) && |t| >= 6 && t[0] == 0 && t[1] == 0 && t[2] == 1 && t[4] as int * 256 + t[5] as int > 0
    ensures var t := Total(a, data, start);
      && Completes(a, data, start) == (|t| >= 6 + t[4] as int * 256 + t[5] as int)
      && Added(a, data, start).buffer == t && Added(a, data, start).synced
      && Added(a, data, start).expectedLength == 6 + t[4] as int * 256 + t[5] as int
  {
    hide DecodeHeader;
  }

  /** One of length 0 completes exactly when its header is there. */
  lemma UnboundedCompletes(a: Acc, data: seq<Byte>, start: bool)
    requires var t := Total(a, data, start);
      Counts(a, data, start) && |t| >= 6 && t[0] == 0 && t[1] == 0 && t[2] == 1 && t[4] == 0 && t[5] == 0
    ensures var t := Total(a, data, start);
      && (Completes(a, data, start) <==> DecodeHeader(t).Some?)
      && Added(a, data, start).buffer == t && Added(a, data, start).synced
      && (Completes(a, data, start) ==> Added(a, data, start).complete)
  {
    PacketParsesExactly(Total(a, data, start));
    hide DecodeHeader;
  }

  /** Fewer than six octets are kept without a decision. */
  lemma TooShortToTell(a: Acc, data: seq<Byte>, start: bool)
    requires Counts(a, data, start) && |Total(a, data, start)| < 6
    ensures !Completes(a, data, start) && Added(a, data, start).buffer == Total(a, data, start)
    ensures Added(a, data, start).synced
  {}

  // ------------------------------------------------------------------------------------------
  // Reassembly does not depend on fragmentation
  // ------------------------------------------------------------------------------------------

  /** A packet as its first six octets announce it. */
  predicate IsAnnounced(data: seq<Byte>) {
    && |data| > 6 && StartCode(data)
    && |data| == 6 + U16(data[4], data[5])
  }

  /** The accumulator holds `received`, a proper part of the packet. */
  predicate Holds(a: Acc, data: seq<Byte>, received: seq<Byte>) {
    received < data && a == Acc(received, if |received| < 6 then 0 else |data|, true, false)
  }

  lemma CheckedShort(a: Acc)
    requires |a.buffer| < 6
    ensures Checked(a) == a && !FoundComplete(a)
  {}

  lemma CheckedAnnounced(a: Acc, data: seq<Byte>)
    requires IsAnnounced(data) && |a.buffer| >= 6 && a.buffer <= data
    ensures FoundComplete(a) == (a.buffer == data)
    ensures Checked(a) == a.(expectedLength := |data|, complete := a.complete || a.buffer == data)
  {
    PrefixFacts(data, a.buffer);
    hide StartCode;
    hide U16;
  }

  lemma AppendedIs(a: Acc, data: seq<Byte>, received: seq<Byte>, piece: seq<Byte>, start: bool)
    requires piece != [] && if start then received == [] else Holds(a, data, received)
    ensures var b := Appended(a, piece, start);
      && !Ignores(a, piece, start) && b.buffer == received + piece && b.synced && !b.complete
      && (b.expectedLength == 0 || (b.expectedLength == |data| && |received| >= 6))
  {
    assert [] + piece == piece;
  }

  lemma PieceArrives(a: Acc, data: seq<Byte>, received: seq<Byte>, piece: seq<Byte>, start: bool)
    requires IsAnnounced(data) && piece != [] && received + piece <= data
    requires if start then received == [] else Holds(a, data, received)
    ensures var b := Added(a, piece, start);
      && Completes(a, piece, start) == (received + piece == data)
      && (if received + piece == data then b.complete && b.buffer == data else Holds(b, data, received + piece))
  {
    AppendedIs(a, data, received, piece, start);
    var b := Appended(a, piece, start);
    if |received + piece| < 6 { CheckedShort(b); } else { CheckedAnnounced(b, data); }
    hide Checked;
    hide FoundComplete;
    hide Appended;
    hide Ignores;
    hide StartCode;
    hide U16;
  }

  lemma PrefixFacts(data: seq<Byte>, prefix: seq<Byte>)
    requires IsAnnounced(data) && prefix <= data && |prefix| >= 6
    ensures StartCode(prefix) && U16(prefix[4], prefix[5]) == |data| - 6
  {}

  /** The accumulator after the chunks of one packet, the first of which starts a unit. */
  function Fed(a: Acc, chunks: seq<seq<Byte>>): Acc {
    if chunks == [] then a else
    var n := |chunks| - 1;
    Added(Fed(a, chunks[..n]), chunks[n], n == 0)
  }

  lemma {:induction false} ChunkPrefix(chunks: seq<seq<Byte>>, k: nat)
    requires k < |chunks|
    ensures Flatten(chunks[..k]) + chunks[k] == Flatten(chunks[..k + 1]) <= Flatten(chunks)
  {
    FlattenSnoc(chunks[..k], chunks[k]);
    assert chunks[..k + 1] == chunks[..k] + [chunks[k]];
    FlattenAppend(chunks[..k + 1], chunks[k + 1..]);
    assert chunks == chunks[..k + 1] + chunks[k + 1..];
  }

  lemma {:induction false} ProperPrefix(chunks: seq<seq<Byte>>, k: nat)
    requires k < |chunks| && forall c | c in chunks :: c != []
    ensures Flatten(chunks[..k]) < Flatten(chunks)
  {
    ChunkPrefix(chunks, k);
    assert chunks[k] in chunks;
  }

  lemma {:induction false} FedHolds(a: Acc, chunks: seq<seq<Byte>>, k: nat)
    requires IsAnnounced(Flatten(chunks)) && (forall c | c in chunks :: c != []) && 0 < k <= |chunks|
    ensures var b := Fed(a, chunks[..k]);
      if k < |chunks| then Holds(b, Flatten(chunks), Flatten(chunks[..k]))
      else b.complete && b.buffer == Flatten(chunks)
    ensures Completes(Fed(a, chunks[..k - 1]), chunks[k - 1], k == 1) == (k == |chunks|)
    decreases k
  {
    hide Added;
    hide Completes;
    hide Holds;
    if k > 1 { FedHolds(a, chunks, k - 1); }
    assert chunks[..k][..k - 1] == chunks[..k - 1];
    ChunkPrefix(chunks, k - 1);
    assert chunks[k - 1] in chunks;
    if k < |chunks| { ProperPrefix(chunks, k); } else { assert chunks[..k] == chunks; }
    PieceArrives(Fed(a, chunks[..k - 1]), Flatten(chunks), Flatten(chunks[..k - 1]), chunks[k - 1], k == 1);
  }

  lemma Arrives(a: Acc, chunks: seq<seq<Byte>>, k: nat)
    requires IsAnnounced(Flatten(chunks)) && (forall c | c in chunks :: c != []) && k < |chunks|
    ensures Completes(Fed(a, chunks[..k]), chunks[k], k == 0) == (k == |chunks| - 1)
  {
    hide *;
    FedHolds(a, chunks, k + 1);
  }

  lemma AllHeld(a: Acc, chunks: seq<seq<Byte>>)
    requires IsAnnounced(Flatten(chunks)) && forall c | c in chunks :: c != []
    ensures var b := Fed(a, chunks); b.complete && b.buffer == Flatten(chunks)
  {
    assert chunks != [];
    hide *;
    FedHolds(a, chunks, |chunks|);
    assert chunks[..|chunks|] == chunks;
  }

  lemma EncodedIsAnnounced(l: Layout)
    requires WellFormed(l)
    ensures IsAnnounced(Encode(l))
  {
    EncodedParts(l);
    hide Encode;
    hide StartCode;
    hide U16;
  }

  /** However a packet of announced length is cut into non-empty chunks, and whatever the accumulator
      held before, only the last chunk completes it, and the original packet comes out. */
  lemma Reassembly(l: Layout, a: Acc, chunks: seq<seq<Byte>>)
    requires WellFormed(l) && Flatten(chunks) == Encode(l) && forall c | c in chunks :: c != []
    ensures forall k | 0 <= k < |chunks| ::
      Completes(Fed(a, chunks[..k]), chunks[k], k == 0) == (k == |chunks| - 1)
    ensures var b := Fed(a, chunks); b.complete && DecodePacket(b.buffer) == Some(l.packet)
  {
    hide *;
    RoundTrip(l);
    EncodedIsAnnounced(l);
    AllHeld(a, chunks);
    forall k | 0 <= k < |chunks|
      ensures Completes(Fed(a, chunks[..k]), chunks[k], k == 0) == (k == |chunks| - 1)
    {
      Arrives(a, chunks, k);
    }
  }
}
