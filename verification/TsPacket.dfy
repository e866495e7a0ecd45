/** Parsing of one 188-byte transport packet (src/mpegts_packet.cpp) and its inverse, the layout of
    sections 2.4.3.2 and 2.4.3.4 of ISO/IEC 13818-1. */
module TsPacket {
  import opened Bytes

  const PACKET_SIZE: nat := 188
  const SYNC_BYTE: Byte := 0x47

  datatype AdaptationControl = Reserved | PayloadOnly | AdaptationOnly | AdaptationPayload {
    predicate HasAdaptation() { AdaptationOnly? || AdaptationPayload? }
    predicate HasPayload() { PayloadOnly? || AdaptationPayload? }
  }

  datatype Header = Header(syncByte: Byte, transportError: bool, payloadUnitStart: bool, priority: bool,
                           pid: nat, scrambling: nat, control: AdaptationControl, cc: nat)

  datatype AdaptationField = AdaptationField(
    length: Byte, discontinuity: bool, randomAccess: bool, esPriority: bool, pcrFlag: bool, opcrFlag: bool,
    splicingFlag: bool, privateFlag: bool, extensionFlag: bool, pcrBase: nat, pcrExtension: nat,
    privateLength: Byte, privateData: seq<Byte>)

  /** The value of a packet object. Pointers into the raw packet are the octets they point to. */
  datatype Packet = Packet(header: Header, adaptation: AdaptationField, payload: seq<Byte>,
                           hasAdaptation: bool, hasPayload: bool, valid: bool)
  {
    predicate Discontinuity() { hasAdaptation && adaptation.discontinuity }

    function PrivateData(): seq<Byte> {
      if hasAdaptation && adaptation.privateFlag then adaptation.privateData else []
    }
  }

  function FreshAdaptation(): AdaptationField {
    AdaptationField(0, false, false, false, false, false, false, false, false, 0, 0, 0, [])
  }

  /** A packet object as its constructor leaves it. */
  function Fresh(): Packet {
    Packet(Header(0, false, false, false, 0, 0, Reserved, 0), FreshAdaptation(), [], false, false, false)
  }

  type Block = d: seq<Byte> | |d| == 188 witness seq(188, _ => 0)

  // ------------------------------------------------------------------------------------------
  // What parsing computes
  // ------------------------------------------------------------------------------------------

  function ControlOf(b: Byte): AdaptationControl {
    match b / 16 % 4
    case 0 => Reserved
    case 1 => PayloadOnly
    case 2 => AdaptationOnly
    case _ => AdaptationPayload
  }

  function HeaderFields(data: Block): Header {
    Header(data[0], BitOf(data[1], 7), BitOf(data[1], 6), BitOf(data[1], 5),
           U16(data[1] % 32, data[2]), data[3] / 64 % 4, ControlOf(data[3]), data[3] % 16)
  }

  predicate HeaderOk(data: Block) {
    data[0] == SYNC_BYTE && !BitOf(data[1], 7) && ControlOf(data[3]) != Reserved
  }

  /** Size of the PCR, OPCR and splicing fields announced by the flags. */
  function OptionalSize(flags: Byte): nat {
    (if BitOf(flags, 4) then 6 else 0) + (if BitOf(flags, 3) then 6 else 0) + (if BitOf(flags, 2) then 1 else 0)
  }

  /** The fields announced by the flags lie inside the adaptation field. */
  predicate OptionalFits(data: Block, offset: nat := 4)
    requires offset + 1 < PACKET_SIZE
  {
    var flags := data[offset + 1];
    1 + OptionalSize(flags) + (if BitOf(flags, 1) then 1 else 0) <= data[offset]
  }

  predicate PrivateFits(data: Block, offset: nat := 4)
    requires offset + 1 < PACKET_SIZE && offset + 1 + data[offset] <= PACKET_SIZE && OptionalFits(data, offset)
  {
    var size := OptionalSize(data[offset + 1]);
    BitOf(data[offset + 1], 1) ==> 2 + size + data[offset + 2 + size] <= data[offset]
  }

  /** The field at an offset, which is 4 in a packet, is accepted. */
  predicate AdaptationOk(data: Block, offset: nat := 4) {
    && offset < PACKET_SIZE
    && (data[offset] == 0
        || (offset + 1 + data[offset] <= PACKET_SIZE && OptionalFits(data, offset) && PrivateFits(data, offset)))
  }

  /** The flags octet, bit by bit. */
  function WithFlags(a: AdaptationField, flags: Byte): AdaptationField {
    a.(discontinuity := BitOf(flags, 7), randomAccess := BitOf(flags, 6), esPriority := BitOf(flags, 5),
       pcrFlag := BitOf(flags, 4), opcrFlag := BitOf(flags, 3), splicingFlag := BitOf(flags, 2),
       privateFlag := BitOf(flags, 1), extensionFlag := BitOf(flags, 0))
  }

  /** The adaptation field object after parsing; fields that are not reached keep their value. */
  function AdaptationInto(a: AdaptationField, data: Block, offset: nat := 4): AdaptationField {
    if offset >= PACKET_SIZE then a else
    var a1 := a.(length := data[offset]);
    if data[offset] == 0 || offset + 1 + data[offset] > PACKET_SIZE then a1 else
    var flags := data[offset + 1];
    var a2 := WithFlags(a1, flags);
    if !OptionalFits(data, offset) || !BitOf(flags, 1) then a2 else
    var at := offset + 2 + OptionalSize(flags);
    var a3 := a2.(privateLength := data[at]);
    if PrivateFits(data, offset) then a3.(privateData := data[at + 1..at + 1 + data[at]]) else a3
  }

  /** The outcomes of parsing an adaptation field, one by one. */
  lemma AdaptationCases(a: AdaptationField, data: Block, offset: nat)
    ensures offset >= PACKET_SIZE ==> AdaptationInto(a, data, offset) == a && !AdaptationOk(data, offset)
    ensures offset < PACKET_SIZE && (data[offset] == 0 || offset + 1 + data[offset] > PACKET_SIZE) ==>
      AdaptationInto(a, data, offset) == a.(length := data[offset]) && AdaptationOk(data, offset) == (data[offset] == 0)
    ensures offset < PACKET_SIZE && data[offset] > 0 && offset + 1 + data[offset] <= PACKET_SIZE ==>
      var flags, end := data[offset + 1], offset + 1 + data[offset];
      var at, b := offset + 2 + OptionalSize(flags), WithFlags(a.(length := data[offset]), flags);
      && b.length == data[offset] && b.pcrFlag == BitOf(flags, 4) && b.opcrFlag == BitOf(flags, 3)
      && b.splicingFlag == BitOf(flags, 2) && b.privateFlag == BitOf(flags, 1)
      && if at > end || (b.privateFlag && at + 1 > end) then
           AdaptationInto(a, data, offset) == b && !AdaptationOk(data, offset)
         else if !b.privateFlag then
           AdaptationInto(a, data, offset) == b && AdaptationOk(data, offset)
         else
           var c, fits := b.(privateLength := data[at]), at + 1 + data[at] <= end;
           && AdaptationOk(data, offset) == fits
           && AdaptationInto(a, data, offset) == if fits then c.(privateData := data[at + 1..at + 1 + data[at]]) else c
  {
    hide BitOf;
    hide OptionalSize;
  }

  /** The packet object after parsing `data` into it. */
  function ParseInto(p: Packet, data: Block): Packet {
    if data[0] != SYNC_BYTE then p.(header := p.header.(syncByte := data[0]), valid := false) else
    var h := HeaderFields(data);
    if !HeaderOk(data) then p.(header := h, valid := false) else
    if !h.control.HasAdaptation() then
      p.(header := h, payload := data[4..], hasPayload := true, valid := true)
    else
      var q := p.(header := h, hasAdaptation := true, adaptation := AdaptationInto(p.adaptation, data));
      if !AdaptationOk(data) then q.(valid := false) else
      if h.control.HasPayload() then q.(payload := data[5 + data[4]..], hasPayload := true, valid := true)
      else q.(valid := true)
  }

  /** The result of parsing into a new object, as every caller in the repository does. */
  function Parse(data: Block): Packet {
    ParseInto(Fresh(), data)
  }

  predicate Valid(data: Block) {
    Parse(data).valid
  }

  // ------------------------------------------------------------------------------------------
  // The object
  // ------------------------------------------------------------------------------------------

  class TSPacket {
    var header: Header
    var adaptationField: AdaptationField
    var payload: seq<Byte>
    var hasAdaptation: bool
    var hasPayload: bool
    var valid: bool

    constructor ()
      ensures View() == Fresh()
    {
      header := Header(0, false, false, false, 0, 0, Reserved, 0);
      adaptationField := FreshAdaptation();
      payload, hasAdaptation, hasPayload, valid := [], false, false, false;
    }

    function View(): Packet
      reads this
    {
      Packet(header, adaptationField, payload, hasAdaptation, hasPayload, valid)
    }

    function GetPrivateData(): seq<Byte>
      reads this
    {
      if hasAdaptation && adaptationField.privateFlag then adaptationField.privateData else []
    }

    method Parse(data: Block) returns (ok: bool)
      modifies this
      ensures View() == ParseInto(old(View()), data)
      ensures ok == valid
    {
      ok := ParseHeader(data);
      if !ok {
        valid := false;
        return;
      }
      var offset := 4;
      if header.control == AdaptationOnly || header.control == AdaptationPayload {
        hasAdaptation := true;
        ok := ParseAdaptationField(data, offset);
        if !ok {
          valid := false;
          return;
        }
        offset := offset + 1 + adaptationField.length;
      }
      if header.control == PayloadOnly || header.control == AdaptationPayload {
        hasPayload := true;
        payload := data[offset..];
      }
      valid := true;
    }

    method ParseHeader(data: Block) returns (ok: bool)
      modifies this`header
      ensures header == if data[0] == SYNC_BYTE then HeaderFields(data) else old(header).(syncByte := data[0])
      ensures ok == HeaderOk(data)
    {
      header := header.(syncByte := data[0]);
      if header.syncByte != SYNC_BYTE {
        return false;
      }
      header := header.(transportError := BitOf(data[1], 7));
      header := header.(payloadUnitStart := BitOf(data[1], 6));
      header := header.(priority := BitOf(data[1], 5));
      var pidHigh := data[1] % 32;
      var pidLow := data[2];
      header := header.(pid := U16(pidHigh, pidLow));
      header := header.(scrambling := data[3] / 64 % 4);
      header := header.(control := ControlOf(data[3]));
      header := header.(cc := data[3] % 16);
      if header.transportError {
        return false;
      }
      return header.control != Reserved;
    }

    /** The part of `parseAdaptationField` that skips PCR, OPCR and splice countdown. */
    method SkipOptionalFields(flags: Byte, start: nat, end: nat) returns (ok: bool, next: nat)
      requires adaptationField.pcrFlag == BitOf(flags, 4) && adaptationField.opcrFlag == BitOf(flags, 3)
      requires adaptationField.splicingFlag == BitOf(flags, 2) && start <= end
      ensures ok <==> start + OptionalSize(flags) <= end
      ensures ok ==> next == start + OptionalSize(flags)
    {
      hide BitOf;
      next := start;
      if adaptationField.pcrFlag {
        if next + 6 > end { return false, next; }
        next := next + 6;
      }
      if adaptationField.opcrFlag {
        if next + 6 > end { return false, next; }
        next := next + 6;
      }
      if adaptationField.splicingFlag {
        if next + 1 > end { return false, next; }
        next := next + 1;
      }
      return true, next;
    }

    method ParseAdaptationField(data: Block, offset: nat) returns (ok: bool)
      modifies this`adaptationField
      ensures adaptationField == AdaptationInto(old(adaptationField), data, offset)
      ensures ok == AdaptationOk(data, offset)
    {
      AdaptationCases(adaptationField, data, offset);
      hide AdaptationInto;
      hide AdaptationOk;
      hide OptionalFits;
      hide PrivateFits;
      hide BitOf;
      hide OptionalSize;
      hide WithFlags;
      if offset >= PACKET_SIZE {
        return false;
      }
      adaptationField := adaptationField.(length := data[offset]);
      if adaptationField.length == 0 {
        return true;
      }
      if offset + 1 + adaptationField.length > PACKET_SIZE {
        return false;
      }
      var fieldOffset := offset + 1;
      var end := offset + 1 + adaptationField.length;
      var flags := data[fieldOffset];
      fieldOffset := fieldOffset + 1;
      adaptationField := WithFlags(adaptationField, flags);
      var fits, next := SkipOptionalFields(flags, fieldOffset, end);
      if !fits {
        return false;
      }
      fieldOffset := next;
      if adaptationField.privateFlag {
        if fieldOffset + 1 > end { return false; }
        adaptationField := adaptationField.(privateLength := data[fieldOffset]);
        fieldOffset := fieldOffset + 1;
        if fieldOffset + adaptationField.privateLength > end { return false; }
        adaptationField := adaptationField.(
          privateData := data[fieldOffset..fieldOffset + adaptationField.privateLength]);
      }
      return true;
    }
  }

  // ------------------------------------------------------------------------------------------
  // The layout of the standard, and the round trip
  // ------------------------------------------------------------------------------------------

  datatype AdaptationLayout =
    | EmptyAdaptation
    | Adaptation(discontinuity: bool, randomAccess: bool, esPriority: bool, extension: bool,
                 pcr: Option<seq<Byte>>, opcr: Option<seq<Byte>>, splice: Option<Byte>,
                 privateData: Option<seq<Byte>>, tail: seq<Byte>)

  /** The contents of a packet: what a multiplexer chooses. `tail` holds the extension, if any,
      and the stuffing. */
  datatype Layout = Layout(payloadUnitStart: bool, priority: bool, pid: nat, scrambling: nat, cc: nat,
                           adaptation: Option<AdaptationLayout>, payload: Option<seq<Byte>>)

  function OptBytes(o: Option<seq<Byte>>): seq<Byte> {
    if o.Some? then o.value else []
  }

  function Flag(b: bool, weight: nat): nat {
    if b then weight else 0
  }

  /** The octets between the flags octet and the private data. */
  function OptionalBytes(a: AdaptationLayout): seq<Byte>
    requires a.Adaptation?
  {
    OptBytes(a.pcr) + OptBytes(a.opcr) + (if a.splice.Some? then [a.splice.value] else [])
  }

  function PrivateBytes(a: AdaptationLayout): seq<Byte>
    requires a.Adaptation? && WellFormedAdaptation(a)
  {
    if a.privateData.Some? then [|a.privateData.value|] + a.privateData.value else []
  }

  predicate WellFormedAdaptation(a: AdaptationLayout) {
    a.Adaptation? ==>
      && (a.pcr.Some? ==> |a.pcr.value| == 6)
      && (a.opcr.Some? ==> |a.opcr.value| == 6)
      && (a.privateData.Some? ==> |a.privateData.value| < 256)
  }

  function FlagsByte(a: AdaptationLayout): Byte
    requires a.Adaptation?
  {
    OctetValue(a.discontinuity, a.randomAccess, a.esPriority, a.pcr.Some?, a.opcr.Some?, a.splice.Some?,
               a.privateData.Some?, a.extension)
  }

  /** What follows the length octet of the adaptation field. */
  function AdaptationBody(a: AdaptationLayout): seq<Byte>
    requires WellFormedAdaptation(a)
  {
    if a.EmptyAdaptation? then [] else [FlagsByte(a)] + OptionalBytes(a) + PrivateBytes(a) + a.tail
  }

  predicate WellFormed(l: Layout) {
    && l.pid < 8192 && l.scrambling < 4 && l.cc < 16
    && (l.adaptation.Some? || l.payload.Some?)
    && (l.adaptation.Some? ==> WellFormedAdaptation(l.adaptation.value) && |AdaptationBody(l.adaptation.value)| <= 183)
    && 4 + AdaptationSize(l) + (if l.payload.Some? then |l.payload.value| else 0) == PACKET_SIZE
  }

  function AdaptationSize(l: Layout): nat {
    if l.adaptation.Some? && WellFormedAdaptation(l.adaptation.value)
    then 1 + |AdaptationBody(l.adaptation.value)| else 0
  }

  function EncodeHeader(l: Layout): (b: seq<Byte>)
    requires l.pid < 8192 && l.scrambling < 4 && l.cc < 16
    ensures |b| == 4
  {
    [SYNC_BYTE, Flag(l.payloadUnitStart, 64) + Flag(l.priority, 32) + l.pid / 256, l.pid % 256,
     l.scrambling * 64 + Flag(l.adaptation.Some?, 32) + Flag(l.payload.Some?, 16) + l.cc]
  }

  function EncodeAdaptation(l: Layout): (b: seq<Byte>)
    requires WellFormed(l)
    ensures |b| == AdaptationSize(l)
  {
    if l.adaptation.None? then [] else
    [|AdaptationBody(l.adaptation.value)|] + AdaptationBody(l.adaptation.value)
  }

  function Encode(l: Layout): Block
    requires WellFormed(l)
  {
    EncodeHeader(l) + EncodeAdaptation(l) + OptBytes(l.payload)
  }

  /** The header that parsing should recover. */
  function LayoutHeader(l: Layout): Header {
    var control :=
      if l.adaptation.None? then PayloadOnly else if l.payload.None? then AdaptationOnly else AdaptationPayload;
    Header(SYNC_BYTE, false, l.payloadUnitStart, l.priority, l.pid, l.scrambling, control, l.cc)
  }

  /** The adaptation field that parsing should recover. */
  function LayoutAdaptation(l: Layout): AdaptationField
    requires WellFormed(l)
  {
    if l.adaptation.None? || l.adaptation.value.EmptyAdaptation? then FreshAdaptation() else
    var a := l.adaptation.value;
    AdaptationField(|AdaptationBody(a)|, a.discontinuity, a.randomAccess, a.esPriority, a.pcr.Some?, a.opcr.Some?,
                    a.splice.Some?, a.privateData.Some?, a.extension, 0, 0,
                    |OptBytes(a.privateData)|, OptBytes(a.privateData))
  }

  lemma HeaderByte1(pusi: bool, priority: bool, high: nat)
    requires high < 32
    ensures var b: Byte := Flag(pusi, 64) + Flag(priority, 32) + high;
      !BitOf(b, 7) && BitOf(b, 6) == pusi && BitOf(b, 5) == priority && b % 32 == high
  {}

  lemma HeaderByte3(scrambling: nat, adaptation: bool, payload: bool, cc: nat)
    requires scrambling < 4 && cc < 16
    ensures var b: Byte := scrambling * 64 + Flag(adaptation, 32) + Flag(payload, 16) + cc;
      b / 64 % 4 == scrambling && b % 16 == cc && b / 16 % 4 == Flag(adaptation, 2) + Flag(payload, 1)
  {}

  lemma HeaderRoundTrip(l: Layout)
    requires WellFormed(l)
    ensures HeaderOk(Encode(l)) && HeaderFields(Encode(l)) == LayoutHeader(l)
  {
    hide BitOf;
    hide Flag;
    HeaderByte1(l.payloadUnitStart, l.priority, l.pid / 256);
    HeaderByte3(l.scrambling, l.adaptation.Some?, l.payload.Some?, l.cc);
    HeaderPrefix(l);
    FlagValues();
    assert U16(l.pid / 256, l.pid % 256) == l.pid;
  }

  lemma FlagValues()
    ensures forall w: nat :: Flag(true, w) == w && Flag(false, w) == 0
  {}

  lemma HeaderPrefix(l: Layout)
    requires WellFormed(l)
    ensures forall k | 0 <= k < 4 :: Encode(l)[k] == EncodeHeader(l)[k]
    ensures Encode(l)[4..] == EncodeAdaptation(l) + OptBytes(l.payload)
  {
    hide EncodeHeader;
    hide EncodeAdaptation;
    assert Encode(l) == EncodeHeader(l) + (EncodeAdaptation(l) + OptBytes(l.payload));
  }

  lemma FlagsRoundTrip(a: AdaptationLayout)
    requires a.Adaptation?
    ensures var f := FlagsByte(a);
      && BitOf(f, 7) == a.discontinuity && BitOf(f, 6) == a.randomAccess && BitOf(f, 5) == a.esPriority
      && BitOf(f, 4) == a.pcr.Some? && BitOf(f, 3) == a.opcr.Some? && BitOf(f, 2) == a.splice.Some?
      && BitOf(f, 1) == a.privateData.Some? && BitOf(f, 0) == a.extension
  {
    hide BitOf;
    hide OctetValue;
    OctetValueBits(a.discontinuity, a.randomAccess, a.esPriority, a.pcr.Some?, a.opcr.Some?, a.splice.Some?,
                   a.privateData.Some?, a.extension);
  }

  lemma OptionalLength(a: AdaptationLayout)
    requires a.Adaptation? && WellFormedAdaptation(a)
    ensures OptionalSize(FlagsByte(a)) == |OptionalBytes(a)|
  {
    hide BitOf;
    hide FlagsByte;
    FlagsRoundTrip(a);
  }

  /** Where the parts of an encoded adaptation field lie in the packet. */
  lemma AdaptationParts(l: Layout)
    requires WellFormed(l) && l.adaptation.Some? && l.adaptation.value.Adaptation?
    ensures var a, d := l.adaptation.value, Encode(l);
      && d[4] == |AdaptationBody(a)| == 1 + |OptionalBytes(a)| + |PrivateBytes(a)| + |a.tail|
      && d[5] == FlagsByte(a)
      && d[6 + |OptionalBytes(a)|..][..|PrivateBytes(a)|] == PrivateBytes(a)
  {
    hide FlagsByte;
    hide OptionalBytes;
    hide PrivateBytes;
    hide EncodeHeader;
    var a, d := l.adaptation.value, Encode(l);
    HeaderPrefix(l);
    assert d[4..] == [|AdaptationBody(a)|] + AdaptationBody(a) + OptBytes(l.payload);
    assert AdaptationBody(a) == [FlagsByte(a)] + OptionalBytes(a) + PrivateBytes(a) + a.tail;
    assert d[4] == d[4..][0] && d[5] == d[4..][1];
    var at := 2 + |OptionalBytes(a)|;
    assert d[4..][at..][..|PrivateBytes(a)|] == PrivateBytes(a);
    assert d[4..][at..] == d[4 + at..];
  }

  lemma AdaptationRoundTrip(l: Layout)
    requires WellFormed(l) && l.adaptation.Some? && l.adaptation.value.Adaptation?
    ensures AdaptationOk(Encode(l))
    ensures AdaptationInto(FreshAdaptation(), Encode(l)) == LayoutAdaptation(l)
  {
    hide BitOf;
    hide FlagsByte;
    hide OptionalSize;
    hide OptionalBytes;
    hide Encode;
    hide AdaptationBody;
    var a, d := l.adaptation.value, Encode(l);
    AdaptationParts(l);
    FlagsRoundTrip(a);
    OptionalLength(a);
    var at := 6 + |OptionalBytes(a)|;
    if a.privateData.Some? {
      var p := d[at..][..|PrivateBytes(a)|];
      assert p == [|a.privateData.value|] + a.privateData.value;
      assert d[at] == p[0];
      assert d[at + 1..at + 1 + d[at]] == p[1..];
    }
  }

  /** Parsing recovers header, flags, private data and payload from every well-formed encoding. */
  lemma RoundTrip(l: Layout)
    requires WellFormed(l)
    ensures Parse(Encode(l)) == Packet(LayoutHeader(l), LayoutAdaptation(l), OptBytes(l.payload),
                                       l.adaptation.Some?, l.payload.Some?, true)
  {
    hide HeaderFields;
    hide AdaptationInto;
    hide AdaptationBody;
    hide Encode;
    var d := Encode(l);
    HeaderRoundTrip(l);
    HeaderStart(l);
    if l.adaptation.Some? && l.adaptation.value.Adaptation? {
      AdaptationRoundTrip(l);
      PayloadPosition(l);
    } else {
      PayloadPosition(l);
      EmptyAdaptationParses(l);
    }
  }

  lemma HeaderStart(l: Layout)
    requires WellFormed(l)
    ensures Encode(l)[0] == SYNC_BYTE
  {}

  lemma PayloadPosition(l: Layout)
    requires WellFormed(l)
    ensures l.adaptation.None? ==> Encode(l)[4..] == OptBytes(l.payload)
    ensures l.adaptation.Some? ==> Encode(l)[4] == |AdaptationBody(l.adaptation.value)| <= 183
    ensures l.adaptation.Some? ==> Encode(l)[5 + Encode(l)[4]..] == OptBytes(l.payload)
  {
    hide AdaptationBody;
    hide EncodeHeader;
    HeaderPrefix(l);
    var d := Encode(l);
    if l.adaptation.Some? {
      var body := AdaptationBody(l.adaptation.value);
      assert d[4..] == [|body|] + body + OptBytes(l.payload);
      assert d[4] == d[4..][0];
      assert d[5 + |body|..] == d[4..][1 + |body|..];
    }
  }

  lemma EmptyAdaptationParses(l: Layout)
    requires WellFormed(l)
    requires l.adaptation.Some? ==> l.adaptation.value.EmptyAdaptation?
    ensures l.adaptation.Some? ==>
      AdaptationOk(Encode(l)) && AdaptationInto(FreshAdaptation(), Encode(l)) == FreshAdaptation()
  {
    PayloadPosition(l);
  }

  /** Header, adaptation field and payload partition the block of a packet with payload. */
  lemma PayloadPartition(data: Block)
    requires Valid(data) && Parse(data).hasPayload
    ensures var p := Parse(data);
      var adaptationSize := if p.hasAdaptation then 1 + p.adaptation.length else 0;
      && |p.payload| == PACKET_SIZE - 4 - adaptationSize
      && data == data[..4 + adaptationSize] + p.payload
  {}

  // ------------------------------------------------------------------------------------------
  // Parsing accepts nothing but encodings
  // ------------------------------------------------------------------------------------------

  function OptSlice(present: bool, data: Block, at: nat, n: nat): Option<seq<Byte>>
    requires present ==> at + n <= 188
  {
    if present then Some(data[at..at + n]) else None
  }

  /** The adaptation layout of an accepted block. */
  function AdaptationOf(data: Block): AdaptationLayout
    requires AdaptationOk(data)
  {
    if data[4] == 0 then EmptyAdaptation else
    var f := data[5];
    var opcrAt := 6 + (if BitOf(f, 4) then 6 else 0);
    var spliceAt := opcrAt + (if BitOf(f, 3) then 6 else 0);
    var privateAt := 6 + OptionalSize(f);
    var privateSize := if BitOf(f, 1) then 1 + data[privateAt] else 0;
    Adaptation(BitOf(f, 7), BitOf(f, 6), BitOf(f, 5), BitOf(f, 0),
               OptSlice(BitOf(f, 4), data, 6, 6), OptSlice(BitOf(f, 3), data, opcrAt, 6),
               (if BitOf(f, 2) then Some(data[spliceAt]) else None),
               (if BitOf(f, 1) then Some(data[privateAt + 1..privateAt + privateSize]) else None),
               data[privateAt + privateSize..5 + data[4]])
  }

  /** The layout of an accepted block. */
  function LayoutOf(data: Block): Layout
    requires Valid(data)
  {
    var control := ControlOf(data[3]);
    var end := if control.HasAdaptation() then 5 + data[4] else 4;
    Layout(BitOf(data[1], 6), BitOf(data[1], 5), U16(data[1] % 32, data[2]), data[3] / 64 % 4, data[3] % 16,
           (if control.HasAdaptation() then Some(AdaptationOf(data)) else None),
           (if control.HasPayload() then Some(data[end..]) else None))
  }

  lemma FlagsOf(data: Block)
    requires AdaptationOk(data) && data[4] > 0
    ensures FlagsByte(AdaptationOf(data)) == data[5]
  {
    hide BitOf;
    hide FlagsByte;
    var a := AdaptationOf(data);
    FlagsRoundTrip(a);
    forall k | 0 <= k < 8
      ensures BitOf(FlagsByte(a), k) == BitOf(data[5], k)
    {
      if k == 0 {} else if k == 1 {} else if k == 2 {} else if k == 3 {}
      else if k == 4 {} else if k == 5 {} else if k == 6 {}
    }
    ByteOfBits(FlagsByte(a), data[5]);
  }

  lemma OptionalOf(data: Block)
    requires AdaptationOk(data) && data[4] > 0
    ensures OptionalBytes(AdaptationOf(data)) == data[6..6 + OptionalSize(data[5])]
  {
    hide BitOf;
    var a, f := AdaptationOf(data), data[5];
    var opcrAt := 6 + if BitOf(f, 4) then 6 else 0;
    var spliceAt := opcrAt + if BitOf(f, 3) then 6 else 0;
    var end := 6 + OptionalSize(f);
    assert OptBytes(a.pcr) == data[6..opcrAt];
    assert OptBytes(a.opcr) == data[opcrAt..spliceAt];
    assert (if a.splice.Some? then [a.splice.value] else []) == data[spliceAt..end];
    hide AdaptationOf;
    ThreeSlices(data, 6, opcrAt, spliceAt, end);
  }

  lemma ThreeSlices(data: seq<Byte>, a: nat, b: nat, c: nat, d: nat)
    requires a <= b <= c <= d <= |data|
    ensures data[a..b] + data[b..c] + data[c..d] == data[a..d]
  {}

  /** The private data with its length octet, and the octets after it. */
  lemma PrivateOf(data: Block)
    requires AdaptationOk(data) && data[4] > 0
    ensures WellFormedAdaptation(AdaptationOf(data))
    ensures var a, at := AdaptationOf(data), 6 + OptionalSize(data[5]); var end := at + |PrivateBytes(a)|;
      && end <= 5 + data[4] && PrivateBytes(a) == data[at..end] && a.tail == data[end..5 + data[4]]
  {
    hide BitOf;
    hide OptionalSize;
  }

  lemma BodyOf(data: Block)
    requires AdaptationOk(data)
    ensures WellFormedAdaptation(AdaptationOf(data))
    ensures AdaptationBody(AdaptationOf(data)) == data[5..5 + data[4]]
  {
    hide BitOf;
    hide FlagsByte;
    hide OptionalBytes;
    hide PrivateBytes;
    hide OptionalSize;
    if data[4] > 0 {
      FlagsOf(data);
      OptionalOf(data);
      PrivateOf(data);
      var a := AdaptationOf(data);
      var at := 6 + OptionalSize(data[5]);
      assert a.Adaptation?;
      hide AdaptationOf;
      hide AdaptationOk;
      FourSlices(data, 5, at, at + |PrivateBytes(a)|, 5 + data[4]);
    } else {
      assert data[5..5 + data[4]] == [];
    }
  }

  lemma FourSlices(data: seq<Byte>, a: nat, b: nat, c: nat, d: nat)
    requires a < b <= c <= d <= |data|
    ensures [data[a]] + data[a + 1..b] + data[b..c] + data[c..d] == data[a..d]
  {}

  lemma ControlBits(b: Byte)
    ensures b == b / 64 % 4 * 64 + Flag(ControlOf(b).HasAdaptation(), 32) + Flag(ControlOf(b).HasPayload(), 16) + b % 16
  {}

  lemma PidBits(b: Byte)
    requires !BitOf(b, 7)
    ensures b == Flag(BitOf(b, 6), 64) + Flag(BitOf(b, 5), 32) + b % 32
  {}

  lemma ValidMeans(data: Block)
    ensures Valid(data) <==> HeaderOk(data) && (ControlOf(data[3]).HasAdaptation() ==> AdaptationOk(data))
  {
    hide BitOf;
    hide AdaptationInto;
    hide AdaptationOk;
  }

  lemma PidSplit(hi: Byte, lo: Byte)
    requires hi < 32
    ensures U16(hi, lo) / 256 == hi && U16(hi, lo) % 256 == lo && U16(hi, lo) < 8192
  {}

  lemma LayoutFields(data: Block)
    requires Valid(data)
    ensures var l, control := LayoutOf(data), ControlOf(data[3]);
      && l.payloadUnitStart == BitOf(data[1], 6) && l.priority == BitOf(data[1], 5)
      && l.pid == U16(data[1] % 32, data[2]) && l.scrambling == data[3] / 64 % 4 && l.cc == data[3] % 16
      && l.adaptation.Some? == control.HasAdaptation() && l.payload.Some? == control.HasPayload()
  {
    ValidMeans(data);
    hide Valid;
    hide BitOf;
    hide U16;
    hide AdaptationOf;
    hide AdaptationOk;
    hide ControlOf;
  }

  lemma HeaderJoined(l: Layout, hi: nat, b1: Byte, b2: Byte, b3: Byte)
    requires l.scrambling < 4 && l.cc < 16 && l.pid < 8192 && l.pid / 256 == hi && l.pid % 256 == b2
    requires b1 == Flag(l.payloadUnitStart, 64) + Flag(l.priority, 32) + hi
    requires b3 == l.scrambling * 64 + Flag(l.adaptation.Some?, 32) + Flag(l.payload.Some?, 16) + l.cc
    ensures EncodeHeader(l) == [SYNC_BYTE, b1, b2, b3]
  {
    hide Flag;
  }

  lemma FirstOctet(data: Block)
    requires Valid(data)
    ensures data[0] == SYNC_BYTE && !BitOf(data[1], 7)
  {
    hide BitOf;
    ValidMeans(data);
  }

  lemma HeaderOf(data: Block)
    requires Valid(data)
    ensures EncodeHeader(LayoutOf(data)) == data[..4]
  {
    hide *;
    LayoutFields(data);
    FirstOctet(data);
    PidBits(data[1]);
    ControlBits(data[3]);
    PidSplit(data[1] % 32, data[2]);
    HeaderJoined(LayoutOf(data), data[1] % 32, data[1], data[2], data[3]);
    assert data[..4] == [data[0], data[1], data[2], data[3]];
  }

  /** The adaptation field of a packet without payload reaches the end of the packet, as the
      standard demands; the parser does not check this. */
  predicate FillsPacket(data: Block) {
    ControlOf(data[3]).HasPayload() || data[4] == 183
  }

  lemma AdaptationPart(data: Block)
    requires Valid(data)
    ensures var l := LayoutOf(data);
      if l.adaptation.None? then ControlOf(data[3]).HasPayload() else
      && 5 + data[4] <= 188 && WellFormedAdaptation(l.adaptation.value)
      && AdaptationBody(l.adaptation.value) == data[5..5 + data[4]]
  {
    ValidMeans(data);
    if ControlOf(data[3]).HasAdaptation() { BodyOf(data); }
    hide Valid;
    hide AdaptationOf;
    hide AdaptationBody;
    hide BitOf;
    hide U16;
    hide WellFormedAdaptation;
  }

  /** The adaptation field and the payload of an accepted, filled block. */
  lemma PartsOf(data: Block)
    requires Valid(data) && FillsPacket(data)
    ensures WellFormed(LayoutOf(data))
    ensures var end := if LayoutOf(data).adaptation.Some? then 5 + data[4] else 4;
      && end <= 188
      && EncodeAdaptation(LayoutOf(data)) == data[4..end] && OptBytes(LayoutOf(data).payload) == data[end..]
  {
    hide *;
    SmallFields(data);
    AdaptationPart(data);
    PayloadPart(data);
    Assembled(data, LayoutOf(data), if LayoutOf(data).adaptation.Some? then 5 + data[4] else 4);
  }

  lemma SmallFields(data: Block)
    requires Valid(data)
    ensures LayoutOf(data).pid < 8192 && LayoutOf(data).scrambling < 4 && LayoutOf(data).cc < 16
  {
    LayoutFields(data);
    PidSplit(data[1] % 32, data[2]);
    hide *;
  }

  lemma Assembled(data: Block, l: Layout, end: nat)
    requires l.pid < 8192 && l.scrambling < 4 && l.cc < 16 && (l.adaptation.Some? || l.payload.Some?)
    requires if l.adaptation.None? then end == 4 else end == 5 + data[4] as int && end <= 188
    requires l.adaptation.Some? ==>
      WellFormedAdaptation(l.adaptation.value) && AdaptationBody(l.adaptation.value) == data[5..end]
    requires OptBytes(l.payload) == data[end..]
    requires (if l.payload.Some? then |l.payload.value| else 0) == 188 - end
    ensures WellFormed(l) && EncodeAdaptation(l) == data[4..end]
  {
    hide AdaptationBody;
    hide WellFormedAdaptation;
    hide OptBytes;
    if l.adaptation.Some? {
      assert data[4..end] == [data[4]] + data[5..end];
    } else {
      assert data[4..4] == [];
    }
  }

  lemma PayloadPart(data: Block)
    requires Valid(data) && FillsPacket(data)
    ensures var end := if LayoutOf(data).adaptation.Some? then 5 + data[4] else 4;
      && end <= 188 && OptBytes(LayoutOf(data).payload) == data[end..]
      && (if LayoutOf(data).payload.Some? then |LayoutOf(data).payload.value| else 0) == 188 - end
      && (LayoutOf(data).adaptation.Some? || LayoutOf(data).payload.Some?)
  {
    ValidMeans(data);
    hide Valid;
    hide AdaptationOf;
    hide BitOf;
    hide U16;
  }

  /** Every accepted block that is filled is the encoding of its layout. */
  lemma Reencode(data: Block)
    requires Valid(data) && FillsPacket(data)
    ensures WellFormed(LayoutOf(data)) && Encode(LayoutOf(data)) == data
  {
    PartsOf(data);
    HeaderOf(data);
    EncodeJoins(data, LayoutOf(data), if LayoutOf(data).adaptation.Some? then 5 + data[4] else 4);
  }

  lemma EncodeJoins(data: Block, l: Layout, end: nat)
    requires WellFormed(l) && 4 <= end <= 188 && EncodeHeader(l) == data[..4]
    requires EncodeAdaptation(l) == data[4..end] && OptBytes(l.payload) == data[end..]
    ensures Encode(l) == data
  {
    hide EncodeHeader;
    hide EncodeAdaptation;
    hide OptBytes;
    hide WellFormed;
  }

  /** The encodings are exactly the accepted blocks that are filled. */
  lemma EncodingsExactly(data: Block)
    ensures (exists l :: WellFormed(l) && Encode(l) == data) <==> Valid(data) && FillsPacket(data)
  {
    if Valid(data) && FillsPacket(data) {
      Reencode(data);
    }
    forall l | WellFormed(l) && Encode(l) == data
      ensures Valid(data) && FillsPacket(data)
    {
      RoundTrip(l);
      HeaderRoundTrip(l);
      PayloadPosition(l);
    }
  }

  /** An adaptation-only packet with an empty adaptation field: accepted, but no encoding. */
  lemma UnfilledIsAccepted()
    ensures var data: seq<Byte> := [0x47, 0x01, 0x00, 0x20, 0x00] + seq(183, _ => 0);
      Valid(data) && !FillsPacket(data) && !exists l :: WellFormed(l) && Encode(l) == data
  {
    var data: seq<Byte> := [0x47, 0x01, 0x00, 0x20, 0x00] + seq(183, _ => 0);
    assert data[0] == 0x47 && data[1] == 0x01 && data[3] == 0x20 && data[4] == 0x00;
    assert Valid(data) && !FillsPacket(data);
    hide *;
    EncodingsExactly(data);
  }

  // ------------------------------------------------------------------------------------------
  // What any block parses to
  // ------------------------------------------------------------------------------------------

  /** The octets that the flags octet asks for: PCR, OPCR, splice countdown. */
  function Asked(flags: Byte): nat {
    flags as int / 16 % 2 * 6 + flags as int / 8 % 2 * 6 + flags as int / 4 % 2
  }

  /** The adaptation field of a block holds what its flags ask for. */
  predicate FieldHolds(data: Block) {
    data[4] == 0 ||
    var size := Asked(data[5]);
    && data[4] <= 183 && 1 + size <= data[4] as int
    && (data[5] / 2 % 2 == 1 ==> 2 + size <= data[4] as int && 2 + size + data[6 + size] as int <= data[4] as int)
  }

  lemma AskedIs(flags: Byte)
    ensures OptionalSize(flags) == Asked(flags) && BitOf(flags, 1) == (flags / 2 % 2 == 1)
  {}

  lemma FieldHoldsExactly(data: Block)
    ensures AdaptationOk(data) <==> FieldHolds(data)
  {
    AskedIs(data[5]);
    hide OptionalSize;
    hide Asked;
    hide BitOf;
  }

  lemma ControlRead(b: Byte)
    ensures ControlOf(b).HasAdaptation() == (b / 32 % 2 == 1) && ControlOf(b).HasPayload() == (b / 16 % 2 == 1)
    ensures (ControlOf(b) == Reserved) == (b / 16 % 4 == 0)
  {}

  lemma ErrorBit(b: Byte)
    ensures BitOf(b, 7) == (b >= 128) && BitOf(b, 6) == (b / 64 % 2 == 1) && BitOf(b, 5) == (b / 32 % 2 == 1)
  {}

  /** A block is accepted exactly if it starts with 0x47, the error indicator is clear, it has payload or
      an adaptation field, and the field, if it is there, holds what its flags ask for. */
  lemma AcceptedExactly(data: Block)
    ensures Valid(data)
      <==> data[0] == 0x47 && data[1] < 128 && data[3] / 16 % 4 != 0 && (data[3] / 32 % 2 == 1 ==> FieldHolds(data))
  {
    ValidMeans(data);
    FieldHoldsExactly(data);
    ControlRead(data[3]);
    ErrorBit(data[1]);
    hide Valid;
    hide AdaptationOk;
    hide FieldHolds;
    hide ControlOf;
    hide BitOf;
  }

  /** What every accepted block parses to: header, flags, private data and payload. */
  lemma ParsedBlock(data: Block)
    requires Valid(data)
    ensures var p, h := Parse(data), Parse(data).header;
      && p.valid && h.syncByte == 0x47 && !h.transportError
      && h.payloadUnitStart == (data[1] / 64 % 2 == 1) && h.priority == (data[1] / 32 % 2 == 1)
      && h.pid == data[1] as int % 32 * 256 + data[2] as int
      && h.scrambling == data[3] / 64 && h.cc == data[3] % 16
      && p.hasAdaptation == (data[3] / 32 % 2 == 1) && p.hasPayload == (data[3] / 16 % 2 == 1)
      && p.payload == (if !p.hasPayload then [] else if p.hasAdaptation then data[5 + data[4]..] else data[4..])
  {
    ControlRead(data[3]);
    ErrorBit(data[1]);
    ParsedParts(data);
    hide *;
    PidRead(data[1], data[2], data[3]);
  }

  lemma PidRead(b1: Byte, b2: Byte, b3: Byte)
    ensures U16(b1 % 32, b2) == b1 as int % 32 * 256 + b2 as int && b3 / 64 % 4 == b3 / 64
  {}

  /** The same in the parser's own terms. */
  lemma ParsedParts(data: Block)
    requires Valid(data)
    ensures var p, control := Parse(data), ControlOf(data[3]);
      && p.valid && p.header == HeaderFields(data) && p.header.syncByte == 0x47 && !p.header.transportError
      && p.header.payloadUnitStart == BitOf(data[1], 6) && p.header.priority == BitOf(data[1], 5)
      && p.header.pid == U16(data[1] % 32, data[2]) && p.header.scrambling == data[3] / 64 % 4
      && p.header.cc == data[3] % 16
      && p.hasAdaptation == control.HasAdaptation() && p.hasPayload == control.HasPayload()
      && (p.hasPayload && p.hasAdaptation ==> 5 + data[4] <= 188)
      && p.payload == (if !p.hasPayload then [] else if p.hasAdaptation then data[5 + data[4]..] else data[4..])
  {
    ValidMeans(data);
    hide Valid;
    hide AdaptationInto;
    hide BitOf;
    hide U16;
    hide ControlOf;
  }

  /** Its adaptation field. */
  lemma ParsedField(data: Block)
    requires Valid(data) && data[3] / 32 % 2 == 1
    ensures var a := Parse(data).adaptation;
      && a.length == data[4]
      && (data[4] == 0 ==> a == FreshAdaptation())
      && (data[4] > 0 ==>
            && a.discontinuity == (data[5] / 128 == 1) && a.randomAccess == (data[5] / 64 % 2 == 1)
            && a.esPriority == (data[5] / 32 % 2 == 1) && a.pcrFlag == (data[5] / 16 % 2 == 1)
            && a.opcrFlag == (data[5] / 8 % 2 == 1) && a.splicingFlag == (data[5] / 4 % 2 == 1)
            && a.privateFlag == (data[5] / 2 % 2 == 1) && a.extensionFlag == (data[5] % 2 == 1))
      && Parse(data).PrivateData() ==
           if data[4] == 0 || data[5] / 2 % 2 == 0 then []
           else var at := 6 + Asked(data[5]);
                if at < 188 && at + 1 + data[at] as int <= 188 then data[at + 1..at + 1 + data[at]] else []
  {
    ValidMeans(data);
    FieldHoldsExactly(data);
    ControlRead(data[3]);
    AdaptationCases(FreshAdaptation(), data, 4);
    AskedIs(data[5]);
    FlagsAre(FreshAdaptation().(length := data[4]), data[5]);
    FieldOfParsed(data);
    hide Parse;
    hide Valid;
    hide AdaptationInto;
    hide AdaptationOk;
    hide WithFlags;
    hide BitOf;
    hide OptionalSize;
    hide Asked;
    hide ControlOf;
  }

  lemma FieldOfParsed(data: Block)
    requires Valid(data) && ControlOf(data[3]).HasAdaptation()
    ensures Parse(data).adaptation == AdaptationInto(FreshAdaptation(), data) && Parse(data).hasAdaptation
  {
    ValidMeans(data);
    hide AdaptationInto;
    hide AdaptationOk;
    hide BitOf;
  }

  lemma FlagsAre(a: AdaptationField, flags: Byte)
    ensures var b := WithFlags(a, flags);
      && b.length == a.length
      && b.discontinuity == (flags / 128 == 1) && b.randomAccess == (flags / 64 % 2 == 1)
      && b.esPriority == (flags / 32 % 2 == 1) && b.pcrFlag == (flags / 16 % 2 == 1)
      && b.opcrFlag == (flags / 8 % 2 == 1) && b.splicingFlag == (flags / 4 % 2 == 1)
      && b.privateFlag == (flags / 2 % 2 == 1) && b.extensionFlag == (flags % 2 == 1)
      && b.privateLength == a.privateLength && b.privateData == a.privateData
  {}

  /** Into a used object the same blocks are accepted and the same header is parsed; payload and
      adaptation field are replaced only if the block has them, and the marks that they are there stay. */
  lemma ReusedObject(p: Packet, data: Block)
    ensures ParseInto(p, data).valid == Valid(data)
    ensures Valid(data) ==>
      var q, r := ParseInto(p, data), Parse(data);
      && q.header == r.header
      && q.hasPayload == (p.hasPayload || r.hasPayload) && q.hasAdaptation == (p.hasAdaptation || r.hasAdaptation)
      && q.payload == (if r.hasPayload then r.payload else p.payload)
      && (!r.hasAdaptation ==> q.adaptation == p.adaptation)
      && (r.hasAdaptation ==> q.adaptation.length == r.adaptation.length)
  {
    hide *;
    ReusedAccepts(p, data);
    if Valid(data) { ReusedFields(p, data); }
    ReusedFieldLength(p, data);
  }

  lemma ReusedAccepts(p: Packet, data: Block)
    ensures ParseInto(p, data).valid == Valid(data)
  {
    hide AdaptationInto;
    hide AdaptationOk;
    hide BitOf;
    hide ControlOf;
  }

  lemma ReusedFields(p: Packet, data: Block)
    requires Valid(data)
    ensures var q, r := ParseInto(p, data), Parse(data);
      && q.header == r.header
      && q.hasPayload == (p.hasPayload || r.hasPayload) && q.hasAdaptation == (p.hasAdaptation || r.hasAdaptation)
      && q.payload == (if r.hasPayload then r.payload else p.payload)
      && (!r.hasAdaptation ==> q.adaptation == p.adaptation)
      && (r.hasAdaptation ==> q.adaptation == AdaptationInto(p.adaptation, data))
      && (r.hasAdaptation ==> r.adaptation == AdaptationInto(FreshAdaptation(), data))
  {
    ValidMeans(data);
    hide Valid;
    hide AdaptationInto;
    hide AdaptationOk;
    hide BitOf;
    hide ControlOf;
  }

  lemma ReusedFieldLength(p: Packet, data: Block)
    ensures AdaptationInto(p.adaptation, data).length == AdaptationInto(FreshAdaptation(), data).length
  {
    AdaptationLength(p.adaptation, data);
    AdaptationLength(FreshAdaptation(), data);
  }

  lemma AdaptationLength(a: AdaptationField, data: Block)
    ensures AdaptationInto(a, data).length == data[4]
  {
    hide BitOf;
    hide OptionalSize;
  }
}
