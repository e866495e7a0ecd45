/** The deterministic packet encoder of the test suite (tests/test_packet_generator.cpp). */
module PacketGenerator {
  import opened Bytes
  import opened TsPacket

  datatype Config = Config(pid: nat, startingCc: Byte, includeAdaptation: bool, includePrivateData: bool,
                           setPusi: bool, payloadPattern: Byte)
  {
    predicate InRange() { pid < 0x1_0000 }
  }

  const TEST_PRIVATE_DATA: seq<Byte> := [1, 2, 3, 4, 5, 6, 7, 8]

  /** The adaptation field a configuration asks for. */
  function ConfigAdaptation(c: Config): AdaptationLayout {
    Adaptation(false, false, false, false, None, None, None,
               (if c.includePrivateData then Some(TEST_PRIVATE_DATA) else None), [])
  }

  function AdaptationBytes(c: Config): nat {
    if !c.includeAdaptation then 0 else if c.includePrivateData then 11 else 2
  }

  /** The packet a configuration describes: PID and continuity counter are cut to 13 and 4 bits. */
  function ConfigLayout(c: Config): Layout {
    Layout(c.setPusi, false, c.pid % 8192, 0, c.startingCc % 16,
           (if c.includeAdaptation then Some(ConfigAdaptation(c)) else None),
           Some(seq(184 - AdaptationBytes(c), _ => c.payloadPattern)))
  }

  lemma ConfigAdaptationBody(c: Config)
    ensures AdaptationBody(ConfigAdaptation(c)) ==
      if c.includePrivateData then [2, 8] + TEST_PRIVATE_DATA else [0]
  {
    var a := ConfigAdaptation(c);
    assert OptionalBytes(a) == [];
  }

  lemma ConfigWellFormed(c: Config)
    ensures WellFormed(ConfigLayout(c))
  {
    hide AdaptationBody;
    ConfigAdaptationBody(c);
  }

  /** The pieces of the packet number, cut to 13 bits. */
  lemma PidParts(pid: nat)
    ensures pid % 8192 / 256 == pid / 256 % 32 && pid % 8192 % 256 == pid % 256
  {
    var q, r := pid / 8192, pid % 8192;
    var high, low := r / 256, r % 256;
    assert pid == 8192 * q + r && r == 256 * high + low && high < 32 && low < 256;
    assert pid / 256 == 32 * q + high && pid % 256 == low;
  }

  /** The four octets of a configured header. */
  function HeaderOctets(c: Config): (b: seq<Byte>)
    ensures |b| == 4
  {
    [SYNC_BYTE, Flag(c.setPusi, 64) + c.pid / 256 % 32, c.pid % 256,
     (if c.includeAdaptation then 48 else 16) + c.startingCc % 16]
  }

  lemma ConfigHeader(c: Config)
    ensures EncodeHeader(ConfigLayout(c)) == HeaderOctets(c)
  {
    PidParts(c.pid);
    hide ConfigAdaptation;
    hide AdaptationBytes;
  }

  method GenerateHeader(packet: array<Byte>, c: Config)
    requires packet.Length == 188 && c.InRange()
    modifies packet
    ensures packet[..4] == EncodeHeader(ConfigLayout(c))
    ensures packet[4..] == old(packet[4..])
  {
    ConfigHeader(c);
    hide EncodeHeader;
    hide ConfigLayout;
    packet[0] := SYNC_BYTE;
    packet[1] := 0x00;
    if c.setPusi {
      packet[1] := packet[1] + 0x40;
    }
    packet[1] := packet[1] + c.pid / 256 % 32;
    packet[2] := c.pid % 256;
    var adaptationControl: Byte := 0x01;
    if c.includeAdaptation {
      adaptationControl := 0x03;
    }
    packet[3] := 0x00;
    packet[3] := packet[3] + adaptationControl * 16;
    packet[3] := packet[3] + c.startingCc % 16;
    assert packet[..4] == HeaderOctets(c);
  }

  method GenerateAdaptationField(includePrivateData: bool, privateData: seq<Byte>) returns (adaptation: seq<Byte>)
    ensures !includePrivateData ==> adaptation == [1, 0]
    ensures includePrivateData ==>
      adaptation == [(2 + |privateData|) % 256, 2, |privateData| % 256] + privateData
  {
    adaptation := [];
    if !includePrivateData {
      adaptation := adaptation + [0x01];
      adaptation := adaptation + [0x00];
      return;
    }
    var totalLength := (1 + 1 + |privateData|) % 256;
    adaptation := adaptation + [totalLength];
    adaptation := adaptation + [0x02];
    adaptation := adaptation + [|privateData| % 256];
    if |privateData| > 0 {
      adaptation := adaptation + privateData;
    }
  }

  /** The octets of the adaptation field that a configuration asks for. */
  function AdaptationOctets(c: Config): (b: seq<Byte>)
    ensures |b| == AdaptationBytes(c)
  {
    if !c.includeAdaptation then [] else if c.includePrivateData then [10, 2, 8] + TEST_PRIVATE_DATA else [1, 0]
  }

  lemma ConfigAdaptationOctets(c: Config)
    ensures WellFormed(ConfigLayout(c))
    ensures EncodeAdaptation(ConfigLayout(c)) == AdaptationOctets(c)
  {
    ConfigWellFormed(c);
    ConfigAdaptationBody(c);
    hide AdaptationBody;
    hide WellFormed;
  }

  lemma ConfigParts(c: Config)
    ensures WellFormed(ConfigLayout(c))
    ensures Encode(ConfigLayout(c)) ==
      EncodeHeader(ConfigLayout(c)) + AdaptationOctets(c) + seq(184 - AdaptationBytes(c), _ => c.payloadPattern)
  {
    ConfigAdaptationOctets(c);
    hide WellFormed;
    hide EncodeHeader;
    hide EncodeAdaptation;
    hide AdaptationBody;
    hide AdaptationOctets;
    hide AdaptationBytes;
  }

  /** Copies an adaptation field behind the header. */
  method PlaceAdaptation(packet: array<Byte>, c: Config) returns (offset: nat)
    requires packet.Length == 188
    modifies packet
    ensures offset == 4 + AdaptationBytes(c) <= 188
    ensures packet[..offset] == old(packet[..4]) + AdaptationOctets(c)
  {
    offset := 4;
    if c.includeAdaptation {
      var privateData := [];
      if c.includePrivateData {
        privateData := TEST_PRIVATE_DATA;
      }
      var adaptation := GenerateAdaptationField(c.includePrivateData, privateData);
      assert adaptation == AdaptationOctets(c);
      forall i | 0 <= i < |adaptation| {
        packet[offset + i] := adaptation[i];
      }
      assert packet[4..4 + |adaptation|] == adaptation;
      assert packet[..4] == old(packet[..4]);
      offset := offset + |adaptation|;
    }
  }

  /** Writes a packet in place: it is the encoding of the configured layout. */
  method GeneratePacket(c: Config) returns (block: Block)
    requires c.InRange()
    ensures WellFormed(ConfigLayout(c)) && block == Encode(ConfigLayout(c))
  {
    ConfigParts(c);
    hide Encode;
    hide EncodeHeader;
    hide WellFormed;
    hide ConfigLayout;
    hide AdaptationBytes;
    hide AdaptationOctets;
    var packet := new Byte[188](_ => 0xFF);
    GenerateHeader(packet, c);
    var offset := PlaceAdaptation(packet, c);
    ghost var prefix := packet[..offset];
    var payloadRemaining := PACKET_SIZE - offset;
    for i := 0 to payloadRemaining
      invariant packet[..offset] == prefix
      invariant forall k | offset <= k < offset + i :: packet[k] == c.payloadPattern
    {
      packet[offset + i] := c.payloadPattern;
    }
    assert packet[..] == prefix + packet[offset..];
    assert packet[offset..] == seq(payloadRemaining, _ => c.payloadPattern);
    block := packet[..];
  }

  /** The i-th packet of a generated sequence. */
  function SequencePacket(c: Config, i: nat): Block {
    var ci := c.(startingCc := (c.startingCc + i) % 16);
    ConfigWellFormed(ci);
    Encode(ConfigLayout(ci))
  }

  /** Packets of the same configuration back to back, their continuity counters rising by one. */
  function SequenceBytes(c: Config, count: nat): seq<Byte> {
    if count == 0 then [] else SequenceBytes(c, count - 1) + SequencePacket(c, count - 1)
  }

  lemma SequenceStep(base: Config, config: Config, i: nat)
    requires config == base.(startingCc := if i == 0 then base.startingCc else (base.startingCc + i) % 16)
    ensures WellFormed(ConfigLayout(config))
    ensures SequenceBytes(base, i + 1) == SequenceBytes(base, i) + Encode(ConfigLayout(config))
  {
    hide Encode;
    ConfigWellFormed(config);
    assert ConfigLayout(config) == ConfigLayout(base.(startingCc := (base.startingCc + i) % 16));
  }

  method GenerateSequence(count: nat, base: Config) returns (packets: seq<Byte>)
    requires base.InRange()
    ensures packets == SequenceBytes(base, count)
  {
    hide Encode;
    hide ConfigLayout;
    hide WellFormed;
    hide SequencePacket;
    packets := [];
    var config := base;
    for i := 0 to count
      invariant config == base.(startingCc := if i == 0 then base.startingCc else (base.startingCc + i) % 16)
      invariant packets == SequenceBytes(base, i)
    {
      var packet := GeneratePacket(config);
      SequenceStep(base, config, i);
      packets := packets + packet;
      config := config.(startingCc := (config.startingCc + 1) % 16);
    }
  }

  /** Parsing recovers what was configured. */
  lemma GeneratedPacketParses(c: Config)
    ensures WellFormed(ConfigLayout(c))
    ensures var p := Parse(Encode(ConfigLayout(c)));
      && p.valid && p.header.pid == c.pid % 8192 && p.header.cc == c.startingCc % 16
      && p.header.payloadUnitStart == c.setPusi && !p.header.transportError
      && p.hasAdaptation == c.includeAdaptation && p.hasPayload
      && p.PrivateData() == (if c.includeAdaptation && c.includePrivateData then TEST_PRIVATE_DATA else [])
      && p.payload == seq(184 - AdaptationBytes(c), _ => c.payloadPattern)
  {
    ConfigWellFormed(c);
    hide Encode;
    hide Parse;
    hide AdaptationBody;
    RoundTrip(ConfigLayout(c));
  }
}
