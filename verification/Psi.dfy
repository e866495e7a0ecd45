/** PSI sections (src/mpegts_psi.cpp): header, PAT and PMT parsers, and their inverses, the syntax of
    sections 2.4.4.3 and 2.4.4.8 of ISO/IEC 13818-1. */
module Psi {
  import opened Bytes
  import opened Crc32

  const TABLE_ID_PAT: Byte := 0x00
  const TABLE_ID_PMT: Byte := 0x02

  datatype SectionHeader = SectionHeader(tableId: Byte, syntaxIndicator: bool, sectionLength: nat, extension: nat,
                                         version: nat, currentNext: bool, number: Byte, lastNumber: Byte)

  datatype PatEntry = PatEntry(programNumber: nat, pid: nat)

  datatype Pat = Pat(header: SectionHeader, transportStreamId: nat, programs: seq<PatEntry>, crc: bv32)

  datatype PmtStream = PmtStream(streamType: Byte, pid: nat, infoLength: nat, descriptors: seq<Byte>)

  datatype Pmt = Pmt(header: SectionHeader, programNumber: nat, pcrPid: nat, infoLength: nat,
                     descriptors: seq<Byte>, streams: seq<PmtStream>, crc: bv32)

  // ------------------------------------------------------------------------------------------
  // What parsing computes
  // ------------------------------------------------------------------------------------------

  /** A 12-bit length: the low nibble of one octet and the next octet. */
  function U12(hi: Byte, lo: Byte): (v: nat)
    ensures v < 4096
  {
    hi % 16 * 256 + lo
  }

  /** A 13-bit PID: the five low bits of one octet and the next octet. */
  function U13(hi: Byte, lo: Byte): (v: nat)
    ensures v < 8192
  {
    hi % 32 * 256 + lo
  }

  function HeaderSize(data: seq<Byte>): nat
    requires |data| >= 2
  {
    if BitOf(data[1], 7) then 8 else 3
  }

  /** The section header; in the short form the fields of the long form keep their defaults. */
  function DecodeHeader(data: seq<Byte>): SectionHeader
    requires |data| >= 8
  {
    var len := U12(data[1], data[2]);
    if BitOf(data[1], 7) then
      SectionHeader(data[0], true, len, U16(data[3], data[4]), data[5] / 2 % 32, data[5] % 2 == 1, data[6], data[7])
    else SectionHeader(data[0], false, len, 0, 0, false, 0, 0)
  }

  /** The section announced by the header lies within the data and its CRC verifies. */
  predicate SectionOk(data: seq<Byte>)
    requires |data| >= 8
  {
    var total := 3 + U12(data[1], data[2]);
    4 <= total <= |data| && Crc(data[..total]) == 0
  }

  function DecodeEntries(data: seq<Byte>, offset: nat, end: nat): seq<PatEntry>
    requires end <= |data|
    decreases end - offset
  {
    if offset + 4 > end then [] else
    [PatEntry(U16(data[offset], data[offset + 1]), U13(data[offset + 2], data[offset + 3]))]
    + DecodeEntries(data, offset + 4, end)
  }

  function DecodePat(data: seq<Byte>): Option<Pat> {
    if |data| < 8 || data[0] != TABLE_ID_PAT || !SectionOk(data) then None else
    var h := DecodeHeader(data);
    var end := h.sectionLength - 1;
    Some(Pat(h, h.extension, DecodeEntries(data, HeaderSize(data), end),
             Word(data[end], data[end + 1], data[end + 2], data[end + 3])))
  }

  function DecodeStreams(data: seq<Byte>, offset: nat, end: nat): Option<seq<PmtStream>>
    requires end <= |data|
    decreases end - offset
  {
    if offset + 5 > end then Some([]) else
    var info := U12(data[offset + 3], data[offset + 4]);
    var next := offset + 5 + info;
    if next > end then None else
    var s := PmtStream(data[offset], U13(data[offset + 1], data[offset + 2]), info, data[offset + 5..next]);
    After([s], DecodeStreams(data, next, end))
  }

  function DecodePmt(data: seq<Byte>): Option<Pmt> {
    if |data| < 12 || data[0] != TABLE_ID_PMT || !SectionOk(data) then None else
    var h := DecodeHeader(data);
    var at := HeaderSize(data);
    var info := U12(data[at + 2], data[at + 3]);
    var first := at + 4 + info;
    if first > |data| then None else
    var end := h.sectionLength - 1;
    var streams := DecodeStreams(data, first, end);
    if streams.None? then None else
    Some(Pmt(h, h.extension, U13(data[at], data[at + 1]), info, data[at + 4..first], streams.value,
             Word(data[end], data[end + 1], data[end + 2], data[end + 3])))
  }

  // ------------------------------------------------------------------------------------------
  // The parser
  // ------------------------------------------------------------------------------------------

  method ParseSectionHeader(data: seq<Byte>) returns (size: nat, header: SectionHeader)
    ensures |data| < 3 || (|data| < 8 && BitOf(data[1], 7)) ==> size == 0
    ensures |data| >= 8 ==> size == HeaderSize(data) && header == DecodeHeader(data)
    ensures 3 <= |data| < 8 && !BitOf(data[1], 7) ==>
      size == 3 && header == SectionHeader(data[0], false, U12(data[1], data[2]), 0, 0, false, 0, 0)
  {
    header := SectionHeader(0, false, 0, 0, 0, false, 0, 0);
    if |data| < 3 {
      return 0, header;
    }
    header := header.(tableId := data[0]);
    header := header.(syntaxIndicator := BitOf(data[1], 7));
    header := header.(sectionLength := U12(data[1], data[2]));
    if !header.syntaxIndicator {
      return 3, header;
    }
    if |data| < 8 {
      return 0, header;
    }
    header := header.(extension := U16(data[3], data[4]));
    header := header.(version := data[5] / 2 % 32, currentNext := data[5] % 2 == 1);
    header := header.(number := data[6]);
    header := header.(lastNumber := data[7]);
    return 8, header;
  }

  method ParsePAT(data: seq<Byte>) returns (pat: Option<Pat>)
    ensures pat == DecodePat(data)
  {
    hide Crc;
    hide Word;
    hide U12;
    hide U13;
    hide U16;
    hide BitOf;
    if |data| < 8 {
      return None;
    }
    var headerSize, header := ParseSectionHeader(data);
    if headerSize == 0 {
      return None;
    }
    if header.tableId != TABLE_ID_PAT {
      return None;
    }
    var totalSectionLength := 3 + header.sectionLength;
    if totalSectionLength > |data| {
      return None;
    }
    var crcOk := VerifyCRC32(data[..totalSectionLength]);
    if !crcOk {
      return None;
    }
    var programs := [];
    var offset := headerSize;
    var entriesEnd := 3 + header.sectionLength - 4;
    while offset + 4 <= entriesEnd
      invariant programs + DecodeEntries(data, offset, entriesEnd) == DecodeEntries(data, headerSize, entriesEnd)
    {
      var programNumber := U16(data[offset], data[offset + 1]);
      var pid := U13(data[offset + 2], data[offset + 3]);
      programs := programs + [PatEntry(programNumber, pid)];
      offset := offset + 4;
    }
    assert programs + [] == programs;
    var crc := Word(data[entriesEnd], data[entriesEnd + 1], data[entriesEnd + 2], data[entriesEnd + 3]);
    return Some(Pat(header, header.extension, programs, crc));
  }

  method ParsePMT(data: seq<Byte>) returns (pmt: Option<Pmt>)
    ensures pmt == DecodePmt(data)
  {
    hide Crc;
    hide Word;
    hide U12;
    hide U13;
    hide BitOf;
    hide DecodeStreams;
    if |data| < 12 {
      return None;
    }
    var headerSize, header := ParseSectionHeader(data);
    if headerSize == 0 {
      return None;
    }
    if header.tableId != TABLE_ID_PMT {
      return None;
    }
    var totalSectionLength := 3 + header.sectionLength;
    if totalSectionLength > |data| {
      return None;
    }
    var crcOk := VerifyCRC32(data[..totalSectionLength]);
    if !crcOk {
      return None;
    }
    var offset := headerSize;
    var pcrPid := U13(data[offset], data[offset + 1]);
    offset := offset + 2;
    var infoLength := U12(data[offset], data[offset + 1]);
    offset := offset + 2;
    var descriptors: seq<Byte> := [];
    if infoLength > 0 {
      if offset + infoLength > |data| {
        return None;
      }
      descriptors := data[offset..offset + infoLength];
      offset := offset + infoLength;
    }
    assert descriptors == data[headerSize + 4..headerSize + 4 + infoLength];
    var streamsEnd := 3 + header.sectionLength - 4;
    var streams := ParseStreams(data, offset, streamsEnd);
    if streams.None? {
      return None;
    }
    var crc := Word(data[streamsEnd], data[streamsEnd + 1], data[streamsEnd + 2], data[streamsEnd + 3]);
    return Some(Pmt(header, header.extension, pcrPid, infoLength, descriptors, streams.value, crc));
  }

  /** Streams already parsed, followed by the outcome for the rest. */
  function After(done: seq<PmtStream>, rest: Option<seq<PmtStream>>): Option<seq<PmtStream>> {
    if rest.None? then None else Some(done + rest.value)
  }

  lemma AfterNothing(rest: Option<seq<PmtStream>>)
    ensures After([], rest) == rest
  {
    if rest.Some? {
      assert [] + rest.value == rest.value;
    }
  }

  lemma AfterOne(done: seq<PmtStream>, s: PmtStream, rest: Option<seq<PmtStream>>)
    ensures After(done, After([s], rest)) == After(done + [s], rest)
  {
    if rest.Some? {
      assert done + ([s] + rest.value) == done + [s] + rest.value;
    }
  }

  /** The elementary stream loop of `parsePMT`. */
  method ParseStreams(data: seq<Byte>, start: nat, streamsEnd: nat) returns (result: Option<seq<PmtStream>>)
    requires streamsEnd <= |data|
    ensures result == DecodeStreams(data, start, streamsEnd)
  {
    hide U12;
    hide U13;
    var streams: seq<PmtStream> := [];
    AfterNothing(DecodeStreams(data, start, streamsEnd));
    var offset := start;
    while offset + 5 <= streamsEnd
      invariant DecodeStreams(data, start, streamsEnd) == After(streams, DecodeStreams(data, offset, streamsEnd))
    {
      ghost var at := offset;
      var streamType := data[offset];
      offset := offset + 1;
      var elementaryPid := U13(data[offset], data[offset + 1]);
      offset := offset + 2;
      var infoLength := U12(data[offset], data[offset + 1]);
      offset := offset + 2;
      var descriptors := [];
      if infoLength > 0 {
        if offset + infoLength > streamsEnd {
          return None;
        }
        descriptors := data[offset..offset + infoLength];
        offset := offset + infoLength;
      }
      var stream := PmtStream(streamType, elementaryPid, infoLength, descriptors);
      assert descriptors == data[at + 5..offset];
      assert DecodeStreams(data, at, streamsEnd) == After([stream], DecodeStreams(data, offset, streamsEnd));
      AfterOne(streams, stream, DecodeStreams(data, offset, streamsEnd));
      streams := streams + [stream];
    }
    assert streams + [] == streams;
    return Some(streams);
  }

  // ------------------------------------------------------------------------------------------
  // The section syntax of the standard
  // ------------------------------------------------------------------------------------------

  /** The eight octets of a long section header; reserved bits are ones. */
  function EncodeHeader(h: SectionHeader): (b: seq<Byte>)
    requires WellFormedHeader(h)
    ensures |b| == 8
  {
    [h.tableId, 176 + h.sectionLength / 256, h.sectionLength % 256, h.extension / 256, h.extension % 256,
     192 + h.version * 2 + (if h.currentNext then 1 else 0), h.number, h.lastNumber]
  }

  predicate WellFormedHeader(h: SectionHeader) {
    h.syntaxIndicator && h.sectionLength < 4096 && h.extension < 0x1_0000 && h.version < 32
  }

  function EncodeEntry(e: PatEntry): (b: seq<Byte>)
    requires e.programNumber < 0x1_0000 && e.pid < 8192
    ensures |b| == 4
  {
    [e.programNumber / 256, e.programNumber % 256, 224 + e.pid / 256, e.pid % 256]
  }

  predicate WellFormedEntries(es: seq<PatEntry>) {
    forall e | e in es :: e.programNumber < 0x1_0000 && e.pid < 8192
  }

  function EncodeEntries(es: seq<PatEntry>): (b: seq<Byte>)
    requires WellFormedEntries(es)
    ensures |b| == 4 * |es|
  {
    if es == [] then [] else EncodeEntry(es[0]) + EncodeEntries(es[1..])
  }

  /** A section up to, and followed by, its CRC. */
  function WithCrc(body: seq<Byte>): seq<Byte> {
    body + WordBytes(Crc(body))
  }

  function PatBody(t: Pat): seq<Byte>
    requires WellFormedHeader(t.header) && WellFormedEntries(t.programs)
  {
    EncodeHeader(t.header) + EncodeEntries(t.programs)
  }

  /** A PAT whose redundant fields are consistent and whose length fits the 12-bit field. */
  predicate WellFormedPat(t: Pat) {
    && WellFormedHeader(t.header) && WellFormedEntries(t.programs)
    && t.header.tableId == TABLE_ID_PAT
    && t.header.sectionLength == 5 + 4 * |t.programs| + 4
    && t.transportStreamId == t.header.extension
    && t.crc == Crc(PatBody(t))
  }

  function EncodePat(t: Pat): seq<Byte>
    requires WellFormedPat(t)
  {
    WithCrc(PatBody(t))
  }

  function EncodeStream(s: PmtStream): (b: seq<Byte>)
    requires s.pid < 8192 && s.infoLength == |s.descriptors| < 4096
    ensures |b| == 5 + s.infoLength
  {
    [s.streamType, 224 + s.pid / 256, s.pid % 256, 240 + s.infoLength / 256, s.infoLength % 256] + s.descriptors
  }

  predicate WellFormedStreams(ss: seq<PmtStream>) {
    forall s | s in ss :: s.pid < 8192 && s.infoLength == |s.descriptors| < 4096
  }

  function EncodeStreams(ss: seq<PmtStream>): seq<Byte>
    requires WellFormedStreams(ss)
  {
    if ss == [] then [] else EncodeStream(ss[0]) + EncodeStreams(ss[1..])
  }

  function EncodeProgramInfo(t: Pmt): (b: seq<Byte>)
    requires t.pcrPid < 8192 && t.infoLength == |t.descriptors| < 4096
    ensures |b| == 4 + t.infoLength
  {
    [224 + t.pcrPid / 256, t.pcrPid % 256, 240 + t.infoLength / 256, t.infoLength % 256] + t.descriptors
  }

  predicate WellFormedPmtFields(t: Pmt) {
    && WellFormedHeader(t.header) && WellFormedStreams(t.streams)
    && t.pcrPid < 8192 && t.infoLength == |t.descriptors| < 4096
  }

  function PmtBody(t: Pmt): seq<Byte>
    requires WellFormedPmtFields(t)
  {
    EncodeHeader(t.header) + EncodeProgramInfo(t) + EncodeStreams(t.streams)
  }

  predicate WellFormedPmt(t: Pmt) {
    && WellFormedPmtFields(t)
    && t.header.tableId == TABLE_ID_PMT
    && t.header.sectionLength == |PmtBody(t)| - 3 + 4
    && t.programNumber == t.header.extension
    && t.crc == Crc(PmtBody(t))
  }

  function EncodePmt(t: Pmt): seq<Byte>
    requires WellFormedPmt(t)
  {
    WithCrc(PmtBody(t))
  }

  // ------------------------------------------------------------------------------------------
  // Round trips
  // ------------------------------------------------------------------------------------------

  lemma HeaderRoundTrip(h: SectionHeader, rest: seq<Byte>)
    requires WellFormedHeader(h)
    ensures var d := EncodeHeader(h) + rest;
      && DecodeHeader(d) == h && HeaderSize(d) == 8 && U12(d[1], d[2]) == h.sectionLength && d[0] == h.tableId
  {
    HeaderNumbers(h.sectionLength, h.version, h.currentNext);
    assert U16(h.extension / 256, h.extension % 256) == h.extension;
    hide BitOf;
  }

  lemma HeaderNumbers(length: nat, version: nat, current: bool)
    requires length < 4096 && version < 32
    ensures BitOf(176 + length / 256, 7) && U12(176 + length / 256, length % 256) == length
    ensures var b := 192 + version * 2 + (if current then 1 else 0); b / 2 % 32 == version && (b % 2 == 1) == current
  {}

  lemma {:induction false} EntriesRoundTrip(data: seq<Byte>, es: seq<PatEntry>, offset: nat)
    requires WellFormedEntries(es)
    requires offset + 4 * |es| <= |data|
    requires data[offset..offset + 4 * |es|] == EncodeEntries(es)
    ensures DecodeEntries(data, offset, offset + 4 * |es|) == es
    decreases |es|
  {
    if es != [] {
      var e, n := es[0], 4 * |es|;
      var b := EncodeEntry(e);
      var d := data[offset..offset + n];
      assert d == b + EncodeEntries(es[1..]);
      forall k | 0 <= k < 4 ensures data[offset + k] == b[k] { assert data[offset + k] == d[k]; }
      assert data[offset + 4..offset + 4 + 4 * |es[1..]|] == d[4..] == EncodeEntries(es[1..]);
      EntriesRoundTrip(data, es[1..], offset + 4);
      assert U16(b[0], b[1]) == e.programNumber && U13(b[2], b[3]) == e.pid;
    }
  }

  /** A section with its CRC, followed by anything, passes the length and CRC checks. */
  lemma SectionVerifies(body: seq<Byte>, rest: seq<Byte>)
    requires |body| >= 8 && U12(body[1], body[2]) == |body| + 1
    ensures SectionOk(WithCrc(body) + rest)
    ensures var d, n := WithCrc(body) + rest, |body|; Word(d[n], d[n + 1], d[n + 2], d[n + 3]) == Crc(body)
  {
    hide Crc;
    hide Word;
    hide WordBytes;
    var d, n := WithCrc(body) + rest, |body|;
    var crc := WordBytes(Crc(body));
    AppendedCrcVerifies(body);
    assert d[..n + 4] == body + crc;
    WordBytesRoundTrip(Crc(body));
    assert d[n] == crc[0] && d[n + 1] == crc[1] && d[n + 2] == crc[2] && d[n + 3] == crc[3];
  }

  /** Parsing an encoded PAT, with any octets after the section, returns exactly the table. */
  lemma PatRoundTrip(t: Pat, rest: seq<Byte>)
    requires WellFormedPat(t)
    ensures DecodePat(EncodePat(t) + rest) == Some(t)
  {
    hide Crc;
    hide Word;
    hide WordBytes;
    hide BitOf;
    hide DecodeHeader;
    hide EncodeHeader;
    hide HeaderSize;
    hide SectionOk;
    hide EncodeEntries;
    var body, d := PatBody(t), EncodePat(t) + rest;
    var n := 4 * |t.programs|;
    assert d == EncodeHeader(t.header) + (EncodeEntries(t.programs) + WordBytes(Crc(body)) + rest);
    HeaderRoundTrip(t.header, EncodeEntries(t.programs) + WordBytes(Crc(body)) + rest);
    assert d[1] == body[1] && d[2] == body[2];
    SectionVerifies(body, rest);
    assert d[8..8 + n] == EncodeEntries(t.programs);
    EntriesRoundTrip(d, t.programs, 8);
    HeaderLength(d);
  }

  lemma HeaderLength(data: seq<Byte>)
    requires |data| >= 8
    ensures DecodeHeader(data).sectionLength == U12(data[1], data[2])
  {}

  lemma Cut(data: seq<Byte>, offset: nat, end: nat, b: seq<Byte>, rest: seq<Byte>)
    requires offset <= end <= |data| && data[offset..end] == b + rest
    ensures var next := offset + |b|; next <= end && data[offset..next] == b && data[next..end] == rest
  {
    var d := data[offset..end];
    assert data[offset..offset + |b|] == d[..|b|] && data[offset + |b|..end] == d[|b|..];
  }

  lemma StreamsSplit(ss: seq<PmtStream>)
    requires WellFormedStreams(ss) && ss != []
    ensures ss[0].pid < 8192 && ss[0].infoLength == |ss[0].descriptors| < 4096 && WellFormedStreams(ss[1..])
    ensures EncodeStreams(ss) == EncodeStream(ss[0]) + EncodeStreams(ss[1..])
  {
    assert ss[0] in ss;
    hide EncodeStream;
  }

  /** Reading an encoded entry. */
  lemma StreamRead(data: seq<Byte>, s: PmtStream, offset: nat)
    requires s.pid < 8192 && s.infoLength == |s.descriptors| < 4096
    requires offset + 5 + s.infoLength <= |data| && data[offset..offset + 5 + s.infoLength] == EncodeStream(s)
    ensures U12(data[offset + 3], data[offset + 4]) == s.infoLength
    ensures data[offset] == s.streamType && U13(data[offset + 1], data[offset + 2]) == s.pid
    ensures data[offset + 5..offset + 5 + s.infoLength] == s.descriptors
  {
    StreamNumbers(s);
    hide EncodeStream;
    hide U12;
    hide U13;
    var b, d := EncodeStream(s), data[offset..offset + 5 + s.infoLength];
    assert forall k | 0 <= k < 5 :: data[offset + k] == d[k] == b[k];
    assert data[offset + 5..offset + 5 + s.infoLength] == d[5..];
  }

  lemma OneStream(data: seq<Byte>, s: PmtStream, rest: seq<PmtStream>, offset: nat, end: nat)
    requires s.pid < 8192 && s.infoLength == |s.descriptors| < 4096
    requires offset + 5 + s.infoLength <= end <= |data|
    requires data[offset..offset + 5 + s.infoLength] == EncodeStream(s)
    requires DecodeStreams(data, offset + 5 + s.infoLength, end) == Some(rest)
    ensures DecodeStreams(data, offset, end) == Some([s] + rest)
  {
    StreamRead(data, s, offset);
    hide EncodeStream;
    hide U12;
    hide U13;
  }

  lemma NoStreams(data: seq<Byte>, offset: nat, end: nat)
    requires offset <= end <= |data| && data[offset..end] == EncodeStreams([])
    ensures DecodeStreams(data, offset, end) == Some([])
  {}

  lemma {:induction false} StreamsRoundTrip(data: seq<Byte>, ss: seq<PmtStream>, offset: nat, end: nat)
    requires WellFormedStreams(ss)
    requires offset <= end <= |data|
    requires data[offset..end] == EncodeStreams(ss)
    ensures DecodeStreams(data, offset, end) == Some(ss)
    decreases |ss|
  {
    hide *;
    if ss == [] {
      NoStreams(data, offset, end);
    } else {
      StreamsSplit(ss);
      Cut(data, offset, end, EncodeStream(ss[0]), EncodeStreams(ss[1..]));
      StreamsRoundTrip(data, ss[1..], offset + 5 + ss[0].infoLength, end);
      OneStream(data, ss[0], ss[1..], offset, end);
      assert [ss[0]] + ss[1..] == ss;
    }
  }

  lemma StreamNumbers(s: PmtStream)
    requires s.pid < 8192 && s.infoLength == |s.descriptors| < 4096
    ensures var b := EncodeStream(s);
      && U13(b[1], b[2]) == s.pid && U12(b[3], b[4]) == s.infoLength
      && b[0] == s.streamType && b[5..] == s.descriptors
  {}

  lemma ProgramInfoNumbers(t: Pmt)
    requires t.pcrPid < 8192 && t.infoLength == |t.descriptors| < 4096
    ensures var b := EncodeProgramInfo(t);
      U13(b[0], b[1]) == t.pcrPid && U12(b[2], b[3]) == t.infoLength && b[4..] == t.descriptors
  {}

  /** Where the parts of an encoded PMT lie. */
  lemma PmtLayout(t: Pmt, rest: seq<Byte>)
    requires WellFormedPmt(t)
    ensures var d, first, end := EncodePmt(t) + rest, 12 + t.infoLength, |PmtBody(t)|;
      && first <= end && end + 4 <= |d|
      && d[8..first] == EncodeProgramInfo(t) && d[first..end] == EncodeStreams(t.streams)
      && d[1] == PmtBody(t)[1] && d[2] == PmtBody(t)[2]
      && d == EncodeHeader(t.header) + d[8..]
  {
    hide Crc;
    hide WordBytes;
    hide EncodeHeader;
    hide EncodeStreams;
    hide EncodeProgramInfo;
    var d, body := EncodePmt(t) + rest, PmtBody(t);
    assert d == EncodeHeader(t.header) + EncodeProgramInfo(t) + EncodeStreams(t.streams) + WordBytes(Crc(body)) + rest;
  }

  /** Parsing an encoded PMT, with any octets after the section, returns exactly the table. */
  lemma PmtRoundTrip(t: Pmt, rest: seq<Byte>)
    requires WellFormedPmt(t)
    ensures DecodePmt(EncodePmt(t) + rest) == Some(t)
  {
    hide Crc;
    hide Word;
    hide WordBytes;
    hide BitOf;
    hide DecodeHeader;
    hide EncodeHeader;
    hide HeaderSize;
    hide SectionOk;
    hide EncodeStreams;
    hide DecodeStreams;
    hide EncodeProgramInfo;
    hide DecodePmt;
    hide U12;
    hide U13;
    var body, d, end := PmtBody(t), EncodePmt(t) + rest, |PmtBody(t)|;
    PmtLayout(t, rest);
    HeaderRoundTrip(t.header, d[8..]);
    HeaderRoundTrip(t.header, body[8..]);
    assert body == EncodeHeader(t.header) + body[8..];
    SectionVerifies(body, rest);
    ProgramInfoNumbers(t);
    var info := EncodeProgramInfo(t);
    forall k | 0 <= k < |info| ensures d[8 + k] == info[k] { assert d[8..12 + t.infoLength][k] == d[8 + k]; }
    StreamsRoundTrip(d, t.streams, 12 + t.infoLength, end);
    PmtAssembled(t, d, end);
  }

  lemma PmtAssembled(t: Pmt, d: seq<Byte>, end: nat)
    requires |d| >= 12 && end + 4 <= |d| && t.header.sectionLength == end + 1
    requires d[0] == TABLE_ID_PMT && SectionOk(d) && DecodeHeader(d) == t.header && HeaderSize(d) == 8
    requires t.programNumber == t.header.extension && t.infoLength == |t.descriptors| && 12 + t.infoLength <= end
    requires U13(d[8], d[9]) == t.pcrPid && U12(d[10], d[11]) == t.infoLength
    requires d[12..12 + t.infoLength] == t.descriptors
    requires DecodeStreams(d, 12 + t.infoLength, end) == Some(t.streams)
    requires Word(d[end], d[end + 1], d[end + 2], d[end + 3]) == t.crc
    ensures DecodePmt(d) == Some(t)
  {
    hide Word;
    hide SectionOk;
    hide DecodeHeader;
    hide HeaderSize;
    hide U12;
    hide U13;
    hide DecodeStreams;
  }

  // ------------------------------------------------------------------------------------------
  // What any octets parse to
  // ------------------------------------------------------------------------------------------

  /** The size of a section, as octets 1 and 2 announce it. */
  function Announced(data: seq<Byte>): nat
    requires |data| >= 3
  {
    3 + data[1] as int % 16 * 256 + data[2] as int
  }

  /** The section lies within the data, and the CRC over all of it is zero. */
  predicate Intact(data: seq<Byte>)
    requires |data| >= 3
  {
    4 <= Announced(data) <= |data| && Crc(data[..Announced(data)]) == 0
  }

  /** A PAT is parsed exactly if there are eight octets, the table id is 0, and the section is intact. */
  lemma PatParsesExactly(data: seq<Byte>)
    ensures DecodePat(data).Some? <==> |data| >= 8 && data[0] == 0 && Intact(data)
  {
    hide Crc;
    hide Word;
    hide DecodeEntries;
  }

  /** The header of a parsed table, octet by octet. */
  predicate HeaderRead(h: SectionHeader, data: seq<Byte>)
    requires |data| >= 8
  {
    var long := data[1] / 128 == 1;
    && h.tableId == data[0] && h.syntaxIndicator == long && 3 + h.sectionLength == Announced(data)
    && h.extension == (if long then data[3] as int * 256 + data[4] as int else 0)
    && h.version == (if long then data[5] as int / 2 % 32 else 0) && h.currentNext == (long && data[5] % 2 == 1)
    && h.number == (if long then data[6] else 0) && h.lastNumber == (if long then data[7] else 0)
  }

  lemma HeaderIsRead(data: seq<Byte>)
    requires |data| >= 8
    ensures HeaderRead(DecodeHeader(data), data) && HeaderSize(data) == if data[1] / 128 == 1 then 8 else 3
  {}

  lemma FirstEntry(data: seq<Byte>, offset: nat, end: nat)
    requires offset + 4 <= end <= |data|
    ensures var es := DecodeEntries(data, offset, end);
      && es != [] && es[1..] == DecodeEntries(data, offset + 4, end)
      && es[0].programNumber == data[offset] as int * 256 + data[offset + 1] as int
      && es[0].pid == data[offset + 2] as int % 32 * 256 + data[offset + 3] as int
  {
    NumbersRead(data[offset], data[offset + 1]);
    NumbersRead(data[offset + 2], data[offset + 3]);
    hide U13;
    hide U16;
  }

  lemma Quarter(n: nat)
    ensures n >= 4 ==> n / 4 == 1 + (n - 4) / 4
    ensures n < 4 ==> n / 4 == 0
  {}

  function EntryCount(offset: nat, end: nat): nat {
    if offset > end then 0 else (end - offset) / 4
  }

  lemma EntryCounted(offset: nat, end: nat)
    ensures EntryCount(offset, end) == if offset + 4 <= end then 1 + EntryCount(offset + 4, end) else 0
  {
    if offset <= end { Quarter(end - offset); }
  }

  lemma {:induction false} EntriesRead(data: seq<Byte>, offset: nat, end: nat, i: nat)
    requires end <= |data|
    ensures var es := DecodeEntries(data, offset, end);
      && |es| == EntryCount(offset, end)
      && (i < |es| ==>
            && offset + 4 * i + 4 <= end
            && es[i].programNumber == data[offset + 4 * i] as int * 256 + data[offset + 4 * i + 1] as int
            && es[i].pid == data[offset + 4 * i + 2] as int % 32 * 256 + data[offset + 4 * i + 3] as int)
    decreases end - offset
  {
    EntryCounted(offset, end);
    hide EntryCount;
    if offset + 4 <= end {
      FirstEntry(data, offset, end);
      hide DecodeEntries;
      var es := DecodeEntries(data, offset, end);
      EntriesRead(data, offset + 4, end, if i == 0 then 0 else i - 1);
      assert i > 0 && i < |es| ==> es[i] == es[1..][i - 1];
      assert i > 0 ==> offset + 4 + 4 * (i - 1) == offset + 4 * i;
    }
  }

  lemma CrcIsTrailer(data: seq<Byte>, total: nat)
    requires 4 <= total <= |data| && Crc(data[..total]) == 0
    ensures Word(data[total - 4], data[total - 3], data[total - 2], data[total - 1]) == Crc(data[..total - 4])
  {
    ZeroResidue(data[..total]);
    assert data[..total][..total - 4] == data[..total - 4];
    hide Crc;
    hide Word;
  }

  lemma PatParts(data: seq<Byte>)
    requires DecodePat(data).Some?
    ensures |data| >= 8 && Intact(data)
    ensures var t, total := DecodePat(data).value, Announced(data);
      && t.header == DecodeHeader(data) && t.transportStreamId == t.header.extension
      && t.programs == DecodeEntries(data, HeaderSize(data), total - 4)
      && t.crc == Word(data[total - 4], data[total - 3], data[total - 2], data[total - 1])
  {
    PatParsesExactly(data);
    hide Crc;
    hide Word;
    hide DecodeEntries;
  }

  /** Every field of a PAT parsed from any octets: the programs are the four-octet entries between the
      header and the CRC, as many as there are. */
  lemma ParsedPat(data: seq<Byte>, i: nat)
    requires DecodePat(data).Some?
    ensures |data| >= 8 && Intact(data)
    ensures var t, total, at := DecodePat(data).value, Announced(data), if data[1] / 128 == 1 then 8 else 3;
      && HeaderRead(t.header, data) && t.transportStreamId == t.header.extension
      && total >= 4 && t.crc == Crc(data[..total - 4])
      && |t.programs| == (if at > total - 4 then 0 else (total - 4 - at) / 4)
      && (i < |t.programs| ==>
            && at + 4 * i + 4 <= total - 4
            && t.programs[i].programNumber == data[at + 4 * i] as int * 256 + data[at + 4 * i + 1] as int
            && t.programs[i].pid == data[at + 4 * i + 2] as int % 32 * 256 + data[at + 4 * i + 3] as int)
  {
    hide *;
    PatParts(data);
    IntactMeans(data);
    HeaderIsRead(data);
    CrcIsTrailer(data, Announced(data));
    EntriesRead(data, HeaderSize(data), Announced(data) - 4, i);
    EntryCountIs(HeaderSize(data), Announced(data) - 4);
  }

  lemma IntactMeans(data: seq<Byte>)
    requires |data| >= 3
    ensures Intact(data) ==> 4 <= Announced(data) <= |data| && Crc(data[..Announced(data)]) == 0
  {
    hide Crc;
  }

  lemma EntryCountIs(offset: nat, end: nat)
    ensures EntryCount(offset, end) == if offset > end then 0 else (end - offset) / 4
  {}

  /** Stream entries, one after another, as octets. */
  predicate StreamsAt(data: seq<Byte>, at: nat, ss: seq<PmtStream>)
    decreases |ss|
  {
    ss == [] ||
    var s, next := ss[0], at + 5 + |ss[0].descriptors|;
    && next <= |data| && s.streamType == data[at] && s.infoLength == |s.descriptors|
    && s.pid == data[at + 1] as int % 32 * 256 + data[at + 2] as int
    && s.infoLength == data[at + 3] as int % 16 * 256 + data[at + 4] as int
    && s.descriptors == data[at + 5..next]
    && StreamsAt(data, next, ss[1..])
  }

  function StreamsSize(ss: seq<PmtStream>): nat {
    if ss == [] then 0 else 5 + |ss[0].descriptors| + StreamsSize(ss[1..])
  }

  lemma NumbersRead(hi: Byte, lo: Byte)
    ensures U12(hi, lo) == hi as int % 16 * 256 + lo as int && U13(hi, lo) == hi as int % 32 * 256 + lo as int
    ensures U16(hi, lo) == hi as int * 256 + lo as int
  {}

  /** The stream loop yields a list exactly if its entries follow one another from the offset on and
      leave less than an entry before the end. */
  lemma {:induction false} StreamsParseExactly(data: seq<Byte>, at: nat, end: nat, ss: seq<PmtStream>)
    requires end <= |data|
    ensures DecodeStreams(data, at, end) == Some(ss)
      <==> StreamsAt(data, at, ss) && end < at + StreamsSize(ss) + 5 && (ss != [] ==> at + StreamsSize(ss) <= end)
    decreases end - at
  {
    hide U12;
    hide U13;
    if at + 5 <= end {
      NumbersRead(data[at + 1], data[at + 2]);
      NumbersRead(data[at + 3], data[at + 4]);
      var next := at + 5 + U12(data[at + 3], data[at + 4]);
      if next <= end && ss != [] {
        StreamsParseExactly(data, next, end, ss[1..]);
        assert [ss[0]] + ss[1..] == ss;
        if DecodeStreams(data, at, end) == Some(ss) {
          var rest := DecodeStreams(data, next, end).value;
          assert ss == [ss[0]] + rest && ss[1..] == rest;
        }
      }
    }
  }

  lemma PmtParts(data: seq<Byte>)
    requires DecodePmt(data).Some?
    ensures |data| >= 12 && data[0] == 2 && Intact(data)
    ensures var t, total, at := DecodePmt(data).value, Announced(data), HeaderSize(data);
      var first := at + 4 + U12(data[at + 2], data[at + 3]);
      && first <= |data| && t.header == DecodeHeader(data) && t.programNumber == t.header.extension
      && t.pcrPid == U13(data[at], data[at + 1]) && t.infoLength == U12(data[at + 2], data[at + 3])
      && t.descriptors == data[at + 4..first] && DecodeStreams(data, first, total - 4) == Some(t.streams)
      && t.crc == Word(data[total - 4], data[total - 3], data[total - 2], data[total - 1])
  {
    hide Crc;
    hide Word;
    hide DecodeStreams;
    hide U13;
  }

  lemma SectionOkIs(data: seq<Byte>)
    requires |data| >= 8
    ensures SectionOk(data) <==> Intact(data)
  {
    hide Crc;
  }

  lemma PmtSome(data: seq<Byte>)
    ensures DecodePmt(data).Some?
      <==> |data| >= 12 && data[0] == 2 && SectionOk(data)
           && var at := HeaderSize(data);
              var first := at + 4 + U12(data[at + 2], data[at + 3]);
              first <= |data| && DecodeStreams(data, first, DecodeHeader(data).sectionLength - 1).Some?
  {
    hide Crc;
    hide Word;
    hide DecodeStreams;
    hide U13;
  }

  /** Where the program information and the stream entries of a PMT start. */
  function InfoAt(data: seq<Byte>): nat
    requires |data| >= 2
  {
    if data[1] / 128 == 1 then 8 else 3
  }

  function StreamsStart(data: seq<Byte>): nat
    requires |data| >= 12
  {
    InfoAt(data) + 4 + data[InfoAt(data) + 2] as int % 16 * 256 + data[InfoAt(data) + 3] as int
  }

  lemma PlacesRead(data: seq<Byte>)
    requires |data| >= 12
    ensures var at := HeaderSize(data);
      && at == InfoAt(data) && at + 4 + U12(data[at + 2], data[at + 3]) == StreamsStart(data)
      && DecodeHeader(data).sectionLength + 3 == Announced(data)
  {
    HeaderIsRead(data);
    NumbersRead(data[HeaderSize(data) + 2], data[HeaderSize(data) + 3]);
    hide U12;
  }

  /** A PMT is parsed exactly if there are twelve octets, the table id is 2, the section is intact, the
      program descriptors lie in the data, and stream entries fill the rest of the section. */
  lemma PmtParsesExactly(data: seq<Byte>)
    ensures DecodePmt(data).Some?
      <==> |data| >= 12 && data[0] == 2 && Intact(data) && StreamsStart(data) <= |data|
           && DecodeStreams(data, StreamsStart(data), Announced(data) - 4).Some?
  {
    IntactMeans12(data);
    hide *;
    PmtSome(data);
    if |data| >= 12 {
      SectionOkIs(data);
      PlacesRead(data);
    }
  }

  lemma IntactMeans12(data: seq<Byte>)
    ensures |data| >= 3 && Intact(data) ==> 4 <= Announced(data) <= |data|
  {
    hide Crc;
  }

  /** Every field of a PMT parsed from any octets. */
  lemma ParsedPmt(data: seq<Byte>)
    requires DecodePmt(data).Some?
    ensures |data| >= 12 && Intact(data) && 4 <= Announced(data) <= |data|
    ensures var t, at := DecodePmt(data).value, InfoAt(data);
      && HeaderRead(t.header, data) && t.programNumber == t.header.extension
      && t.crc == Crc(data[..Announced(data) - 4])
      && t.pcrPid == data[at] as int % 32 * 256 + data[at + 1] as int
      && t.infoLength == data[at + 2] as int % 16 * 256 + data[at + 3] as int
  {
    hide *;
    PmtParts(data);
    IntactMeans(data);
    HeaderIsRead(data);
    PlacesRead(data);
    var at := HeaderSize(data);
    NumbersRead(data[at], data[at + 1]);
    NumbersRead(data[at + 2], data[at + 3]);
    CrcIsTrailer(data, Announced(data));
  }

  /** Its descriptors, and its stream entries up to the CRC. */
  lemma ParsedPmtStreams(data: seq<Byte>)
    requires DecodePmt(data).Some?
    ensures |data| >= 12 && StreamsStart(data) <= |data| && 4 <= Announced(data) <= |data|
    ensures var t, first, end := DecodePmt(data).value, StreamsStart(data), Announced(data) - 4;
      && first == InfoAt(data) + 4 + t.infoLength && t.descriptors == data[InfoAt(data) + 4..first]
      && StreamsAt(data, first, t.streams) && end < first + StreamsSize(t.streams) + 5
      && (t.streams != [] ==> first + StreamsSize(t.streams) <= end)
  {
    hide *;
    PmtParts(data);
    IntactMeans(data);
    PlacesRead(data);
    StreamsParseExactly(data, StreamsStart(data), Announced(data) - 4, DecodePmt(data).value.streams);
  }

  // ------------------------------------------------------------------------------------------
  // Damaged tables
  // ------------------------------------------------------------------------------------------

  /** Two strings of octets differ inside 32 consecutive bits only. */
  predicate BurstApart(a: seq<Byte>, b: seq<Byte>, from: nat) {
    && |a| == |b| && from + 32 <= 8 * |a|
    && AllBits(a)[..from] == AllBits(b)[..from] && AllBits(a)[from + 32..] == AllBits(b)[from + 32..]
  }

  lemma DamagedIsNotIntact(whole: seq<Byte>, damaged: seq<Byte>, rest: seq<Byte>, from: nat)
    requires |whole| >= 4 && Crc(whole) == 0 && BurstApart(whole, damaged, from) && whole != damaged
    requires Announced(damaged) == |damaged|
    ensures !Intact(damaged + rest)
  {
    var d := damaged + rest;
    assert d[1] == damaged[1] && d[2] == damaged[2] && d[..|damaged|] == damaged;
    hide Crc;
    hide AllBits;
    if Crc(damaged) == 0 { BurstDetected(whole, damaged, from); }
  }

  lemma EncodedPat(t: Pat)
    requires WellFormedPat(t)
    ensures |EncodePat(t)| >= 12 && Crc(EncodePat(t)) == 0
  {
    hide Crc;
    AppendedCrcVerifies(PatBody(t));
  }

  lemma EncodedPmt(t: Pmt)
    requires WellFormedPmt(t)
    ensures |EncodePmt(t)| >= 16 && Crc(EncodePmt(t)) == 0
  {
    hide Crc;
    AppendedCrcVerifies(PmtBody(t));
  }

  /** A PAT altered inside 32 consecutive bits, its length field kept, never parses, whatever follows. */
  lemma DamagedPatNeverParses(t: Pat, damaged: seq<Byte>, rest: seq<Byte>, from: nat)
    requires WellFormedPat(t) && BurstApart(EncodePat(t), damaged, from) && damaged != EncodePat(t)
    requires |damaged| >= 3 && Announced(damaged) == |damaged|
    ensures DecodePat(damaged + rest) == None
  {
    hide *;
    EncodedPat(t);
    SameLength(EncodePat(t), damaged, from);
    DamagedIsNotIntact(EncodePat(t), damaged, rest, from);
    PatParsesExactly(damaged + rest);
  }

  /** Nor does a PMT. */
  lemma DamagedPmtNeverParses(t: Pmt, damaged: seq<Byte>, rest: seq<Byte>, from: nat)
    requires WellFormedPmt(t) && BurstApart(EncodePmt(t), damaged, from) && damaged != EncodePmt(t)
    requires |damaged| >= 3 && Announced(damaged) == |damaged|
    ensures DecodePmt(damaged + rest) == None
  {
    hide *;
    EncodedPmt(t);
    SameLength(EncodePmt(t), damaged, from);
    DamagedIsNotIntact(EncodePmt(t), damaged, rest, from);
    PmtParsesExactly(damaged + rest);
  }

  lemma SameLength(a: seq<Byte>, b: seq<Byte>, from: nat)
    ensures BurstApart(a, b, from) ==> |a| == |b|
  {
    hide AllBits;
  }
}
