/** From the packet generator to the storage: a generated stream after noise, cut into calls anyhow,
    is found, delivered and stored octet by octet. And what happens when a bad block follows it. */
module EndToEnd {
  import opened Bytes
  import opened TsPacket
  import opened PacketGenerator
  import opened Storage
  import opened DemuxSteps
  import opened DemuxModel
  import opened Chunking
  import opened Synchronisation
  import opened Redelivery
  import opened Grouping
  import opened Feeding

  /** No octet of the generated packets but the first is a sync byte. */
  predicate NoInnerSync(c: Config) {
    c.payloadPattern != SYNC_BYTE && c.pid % 256 != SYNC_BYTE && !(c.setPusi && c.pid / 256 % 32 == 7)
  }

  lemma {:induction false} SequenceLength(c: Config, n: nat)
    ensures |SequenceBytes(c, n)| == 188 * n
    decreases n
  {
    hide SequencePacket;
    if n > 0 { SequenceLength(c, n - 1); }
  }

  lemma {:induction false} SequenceBlock(c: Config, n: nat, i: nat)
    requires i < n
    ensures |SequenceBytes(c, n)| == 188 * n
    ensures SequenceBytes(c, n)[188 * i..188 * i + 188] == SequencePacket(c, i)
    decreases n
  {
    hide SequencePacket;
    SequenceLength(c, n);
    SequenceLength(c, n - 1);
    var init, last := SequenceBytes(c, n - 1), SequencePacket(c, n - 1);
    assert SequenceBytes(c, n) == init + last;
    if i < n - 1 {
      SequenceBlock(c, n - 1, i);
      assert (init + last)[188 * i..188 * i + 188] == init[188 * i..188 * i + 188];
    }
  }

  lemma EncodeParts(l: Layout)
    requires WellFormed(l)
    ensures Encode(l) == EncodeHeader(l) + EncodeAdaptation(l) + OptBytes(l.payload)
  {}

  lemma NoSyncInHeader(c: Config, k: nat)
    requires NoInnerSync(c) && 0 < k < 4
    ensures EncodeHeader(ConfigLayout(c))[k] != SYNC_BYTE
  {
    ConfigHeader(c);
    hide EncodeHeader;
    hide ConfigLayout;
  }

  lemma NoSyncInAdaptation(c: Config, k: nat)
    requires WellFormed(ConfigLayout(c)) && k < |EncodeAdaptation(ConfigLayout(c))|
    ensures EncodeAdaptation(ConfigLayout(c))[k] != SYNC_BYTE
  {
    ConfigAdaptationOctets(c);
    hide EncodeAdaptation;
    hide ConfigLayout;
    hide WellFormed;
  }

  lemma NoSyncInside(c: Config, i: nat, k: nat)
    requires NoInnerSync(c) && 0 < k < 188
    ensures SequencePacket(c, i)[k] != SYNC_BYTE
  {
    var ci := c.(startingCc := (c.startingCc + i) % 16);
    var l := ConfigLayout(ci);
    ConfigWellFormed(ci);
    EncodeParts(l);
    assert NoInnerSync(ci) && OptBytes(l.payload) == seq(184 - AdaptationBytes(ci), _ => ci.payloadPattern);
    hide ConfigLayout;
    hide Encode;
    hide EncodeHeader;
    hide EncodeAdaptation;
    hide WellFormed;
    if k < 4 {
      NoSyncInHeader(ci, k);
    } else if k - 4 < |EncodeAdaptation(l)| {
      NoSyncInAdaptation(ci, k - 4);
    }
  }

  /** What parsing makes of the i-th generated packet. */
  function GeneratedPacket(c: Config, i: nat): Packet {
    TsPacket.Parse(SequencePacket(c, i))
  }

  function GeneratedPackets(c: Config, n: nat): (ps: seq<Packet>)
    ensures |ps| == n
    ensures forall i | 0 <= i < n :: ps[i] == GeneratedPacket(c, i)
  {
    seq(n, i requires 0 <= i < n => GeneratedPacket(c, i))
  }

  /** What the payload data of a generated packet consists of. */
  function Contents(c: Config): seq<Byte> {
    (if c.includeAdaptation && c.includePrivateData then TEST_PRIVATE_DATA else [])
    + seq(184 - AdaptationBytes(c), _ => c.payloadPattern)
  }

  lemma GeneratedFields(c: Config, i: nat)
    ensures var p := GeneratedPacket(c, i);
      && TsPacket.Valid(SequencePacket(c, i)) && p.hasPayload && p.header.pid == c.pid % 8192
      && p.header.cc == (c.startingCc + i) % 16 && p.header.payloadUnitStart == c.setPusi
      && p.hasAdaptation == c.includeAdaptation
      && p.PrivateData() + PayloadOf(p) == Contents(c)
  {
    hide Encode;
    hide ConfigLayout;
    hide WellFormed;
    hide TsPacket.Parse;
    hide AdaptationBytes;
    var ci := c.(startingCc := (c.startingCc + i) % 16);
    GeneratedPacketParses(ci);
    assert AdaptationBytes(ci) == AdaptationBytes(c) by { SameAdaptation(c, ci); }
    hide Packet.PrivateData;
  }

  lemma SameAdaptation(c: Config, d: Config)
    requires c.includeAdaptation == d.includeAdaptation && c.includePrivateData == d.includePrivateData
    ensures AdaptationBytes(c) == AdaptationBytes(d)
  {}

  // ------------------------------------------------------------------------------------------
  // Finding the stream
  // ------------------------------------------------------------------------------------------

  function Stream(noise: seq<Byte>, c: Config, n: nat): (fed: seq<Byte>)
    ensures |fed| == |noise| + 188 * n
  {
    SequenceLength(c, n);
    noise + SequenceBytes(c, n)
  }

  lemma BlockOfStream(noise: seq<Byte>, c: Config, n: nat, i: nat)
    requires i < n
    ensures var fed, at := Stream(noise, c, n), |noise| + 188 * i;
      PacketAt(fed, at) && BlockAt(fed, at) == SequencePacket(c, i) && ParsedAt(fed, at) == GeneratedPacket(c, i)
  {
    hide SequencePacket;
    hide TsPacket.Parse;
    hide TsPacket.Valid;
    SequenceBlock(c, n, i);
    GeneratedFields(c, i);
    assert BlockAt(Stream(noise, c, n), |noise| + 188 * i) == SequencePacket(c, i);
  }

  /** The same for the part of the stream that has been fed. */
  lemma BlockOfPart(noise: seq<Byte>, c: Config, n: nat, part: seq<Byte>, i: nat)
    requires part <= Stream(noise, c, n) && |noise| + 188 * i + 188 <= |part|
    ensures var at := |noise| + 188 * i; PacketAt(part, at) && ParsedAt(part, at) == GeneratedPacket(c, i)
  {
    hide *;
    var fed := Stream(noise, c, n);
    assert fed == part + fed[|part|..];
    BlockOfStream(noise, c, n, i);
    PacketAtExtends(part, fed[|part|..], |noise| + 188 * i);
  }

  predicate PacketWith(buf: seq<Byte>, at: nat, pid: nat, cc: nat) {
    PacketAt(buf, at) && var p := ParsedAt(buf, at); p.hasPayload && p.header.pid == pid && p.header.cc == cc % 16
  }

  lemma FieldsOfPart(noise: seq<Byte>, c: Config, n: nat, part: seq<Byte>, i: nat)
    requires part <= Stream(noise, c, n) && |noise| + 188 * i + 188 <= |part|
    ensures PacketWith(part, |noise| + 188 * i, c.pid % 8192, c.startingCc + i)
  {
    BlockOfPart(noise, c, n, part, i);
    GeneratedFields(c, i);
    hide Stream;
    hide PacketAt;
    hide ParsedAt;
    hide GeneratedPacket;
    hide Contents;
    hide SequencePacket;
    hide TsPacket.Valid;
  }

  lemma NextCc(cc: nat)
    ensures (cc + 1) % 16 == (cc % 16 + 1) % 16
  {}

  lemma TrioOf(buf: seq<Byte>, at: nat, pid: nat, cc: nat)
    requires PacketWith(buf, at, pid, cc) && PacketWith(buf, at + 188, pid, cc + 1)
    requires PacketWith(buf, at + 376, pid, cc + 2)
    requires at + 564 <= |buf|
    ensures Trio(buf, at)
  {
    NextCc(cc);
    NextCc(cc + 1);
    hide PacketAt;
    hide BlockAt;
    hide TsPacket.Parse;
    hide BelongsTo;
  }

  lemma PartIsTrio(noise: seq<Byte>, c: Config, n: nat, part: seq<Byte>)
    requires part <= Stream(noise, c, n) && |noise| + MIN_SYNC <= |part|
    ensures Trio(part, |noise|)
  {
    assert MIN_SYNC == 564;
    hide *;
    FieldsOfPart(noise, c, n, part, 0);
    FieldsOfPart(noise, c, n, part, 1);
    FieldsOfPart(noise, c, n, part, 2);
    TrioOf(part, |noise|, c.pid % 8192, c.startingCc);
  }

  lemma PartHasNoFalseJump(noise: seq<Byte>, c: Config, n: nat, part: seq<Byte>)
    requires part <= Stream(noise, c, n) && |noise| + MIN_SYNC <= |part|
    requires NoFalseJump(Stream(noise, c, n), |noise|)
    ensures NoFalseJump(part, |noise|)
  {
    hide PacketAt;
    hide ParsedAt;
    hide Stream;
    var fed := Stream(noise, c, n);
    assert fed == part + fed[|part|..];
    forall r: nat | |noise| < r < |noise| + 188
      ensures PacketAt(part, r) == PacketAt(fed, r) && ParsedAt(part, r) == ParsedAt(fed, r)
    {
      PacketAtExtends(part, fed[|part|..], r);
    }
  }

  lemma SyncByteNeeded(buf: seq<Byte>, at: nat)
    requires PacketAt(buf, at)
    ensures at + 188 <= |buf| && BlockAt(buf, at)[0] == buf[at] == SYNC_BYTE
  {}

  /** Generated packets without inner sync bytes hold no false jump. */
  lemma NoInnerSyncSuffices(noise: seq<Byte>, c: Config, n: nat)
    requires n >= 3 && NoInnerSync(c)
    ensures NoFalseJump(Stream(noise, c, n), |noise|)
  {
    hide NoInnerSync;
    hide SequencePacket;
    hide Stream;
    hide PacketAt;
    hide ParsedAt;
    var fed := Stream(noise, c, n);
    BlockOfStream(noise, c, n, 0);
    forall r: nat | |noise| < r < |noise| + 188
      ensures !PacketAt(fed, r)
    {
      NoSyncInside(c, 0, r - |noise|);
      assert fed[r] == BlockAt(fed, |noise|)[r - |noise|];
      if PacketAt(fed, r) { SyncByteNeeded(fed, r); }
    }
  }

  /** What has been fed is found at the end of the noise exactly when three packets have arrived. */
  lemma PartIsFound(noise: seq<Byte>, c: Config, n: nat, part: seq<Byte>)
    requires SYNC_BYTE !in noise && part <= Stream(noise, c, n)
    requires n >= 3 && NoFalseJump(Stream(noise, c, n), |noise|)
    ensures FirstSync(part) == if |noise| + MIN_SYNC <= |part| then Some(|noise|) else None
  {
    NoiseFirst(noise, c, n, part);
    hide Stream;
    hide NoFalseJump;
    hide Trio;
    hide Admits;
    forall from: nat | from < |noise| && from < |part| ensures !Admits(part, from) { NoSyncByte(part, from); }
    if |noise| + MIN_SYNC <= |part| {
      PartIsTrio(noise, c, n, part);
      PartHasNoFalseJump(noise, c, n, part);
      SearchFindsExactly(part, |noise|);
    }
  }

  lemma NoiseFirst(noise: seq<Byte>, c: Config, n: nat, part: seq<Byte>)
    requires SYNC_BYTE !in noise && part <= Stream(noise, c, n)
    ensures forall from: nat | from < |noise| && from < |part| :: part[from] != SYNC_BYTE
  {
    hide SequenceBytes;
    assert forall from: nat | from < |noise| && from < |part| :: part[from] == Stream(noise, c, n)[from] == noise[from];
  }

  lemma {:induction false} PartIsGood(noise: seq<Byte>, c: Config, n: nat, part: seq<Byte>, m: nat, k: nat)
    requires part <= Stream(noise, c, n) && k <= m && 188 * m <= |part| - |noise| < 188 * m + 188
    ensures GoodBlocks(part, |noise| + 188 * k) == m - k
    decreases m - k
  {
    hide *;
    var at := |noise| + 188 * k;
    OneBlock(part, at);
    if k < m {
      BlockOfPart(noise, c, n, part, k);
      PartIsGood(noise, c, n, part, m, k + 1);
      assert at + 188 == |noise| + 188 * (k + 1);
    }
  }

  lemma OneBlock(buf: seq<Byte>, at: nat)
    ensures GoodBlocks(buf, at) == if PacketAt(buf, at) then 1 + GoodBlocks(buf, at + 188) else 0
    ensures PacketAt(buf, at) ==> at + 188 <= |buf|
  {
    NoBlock(buf, at);
    hide PacketAt;
  }

  // ------------------------------------------------------------------------------------------
  // Delivering it
  // ------------------------------------------------------------------------------------------

  /** The state after the packets that have arrived whole. */
  function Received(noise: seq<Byte>, c: Config, part: seq<Byte>): (t: State)
    requires |noise| <= |part|
    ensures t.core.Consistent()
  {
    var m := (|part| - |noise|) / 188;
    NEW_STATE.(core := PacketSteps(NEW_CORE, None, GeneratedPackets(c, m)), buffer := part[|noise| + 188 * m..],
               synced := true)
  }

  lemma PacketsOfPart(noise: seq<Byte>, c: Config, n: nat, part: seq<Byte>, m: nat)
    requires part <= Stream(noise, c, n) && |noise| + 188 * m <= |part|
    ensures Packets(part, |noise|, m) == GeneratedPackets(c, m)
  {
    hide Stream;
    hide ParsedAt;
    hide GeneratedPacket;
    forall i | 0 <= i < m ensures ParsedAt(part, |noise| + 188 * i) == GeneratedPacket(c, i) {
      BlockOfPart(noise, c, n, part, i);
    }
  }

  lemma NewState(buffer: seq<Byte>)
    ensures NEW_CORE.Consistent() && !NEW_STATE.synced && NEW_STATE.core == NEW_CORE && NEW_STATE.table == None
    ensures NEW_STATE.(buffer := buffer).core.Consistent() && NEW_STATE.buffer == []
  {}

  lemma DrainedPart(noise: seq<Byte>, c: Config, n: nat, part: seq<Byte>)
    requires part <= Stream(noise, c, n) && |noise| <= |part|
    ensures NEW_STATE.(buffer := part).core.Consistent()
    ensures Drained(NEW_STATE.(buffer := part), |noise|) == Received(noise, c, part)
  {
    hide Stream;
    hide GoodBlocks;
    hide Packets;
    hide PacketSteps;
    hide GeneratedPackets;
    hide Core.Consistent;
    var m := (|part| - |noise|) / 188;
    NewState(part);
    PartIsGood(noise, c, n, part, m, 0);
    assert |noise| + 188 * 0 == |noise|;
    PacketsOfPart(noise, c, n, part, m);
  }

  /** A call before the third packet has arrived: it waits, or delivers all that has arrived. */
  lemma EarlyCall(noise: seq<Byte>, c: Config, n: nat, before: seq<Byte>, chunk: seq<Byte>)
    requires SYNC_BYTE !in noise && n >= 3 && NoFalseJump(Stream(noise, c, n), |noise|)
    requires before + chunk <= Stream(noise, c, n) && |before| + |chunk| <= MAX_BUFFER
    requires |before| < |noise| + MIN_SYNC
    ensures NEW_STATE.(buffer := before).core.Consistent()
    ensures Fed(NEW_STATE.(buffer := before), chunk) ==
      if |before + chunk| < |noise| + MIN_SYNC then NEW_STATE.(buffer := before + chunk)
      else Received(noise, c, before + chunk)
  {
    hide Stream;
    hide FirstSync;
    hide Drained;
    hide Received;
    hide NoFalseJump;
    hide Core.Consistent;
    NewState(before);
    if chunk == [] {
      assert before + chunk == before;
    } else {
      PartIsFound(noise, c, n, before + chunk);
      if |noise| + MIN_SYNC <= |before + chunk| { DrainedPart(noise, c, n, before + chunk); }
    }
  }

  /** Once synchronised, the rest is received however it is cut. */
  lemma LateCalls(noise: seq<Byte>, c: Config, n: nat, part: seq<Byte>, chunks: seq<seq<Byte>>)
    requires |noise| <= |part| && part + Flatten(chunks) == Stream(noise, c, n)
    requires Fits(Received(noise, c, part), chunks)
    ensures FedAll(Received(noise, c, part), chunks) == Received(noise, c, Stream(noise, c, n))
  {
    var s, m := Received(noise, c, part), (|part| - |noise|) / 188;
    assert Synchronised(s);
    RestParses(noise, c, n, part, Flatten(chunks));
    ChunkingDoesNotMatter(s, chunks);
    WholeRest(noise, c, n, part, Flatten(chunks));
    hide *;
  }

  lemma SameBlocks(a: seq<Byte>, i: nat, b: seq<Byte>, j: nat)
    requires i + 188 <= |a| && j + 188 <= |b| && BlockAt(a, i) == BlockAt(b, j)
    ensures ParsedAt(a, i) == ParsedAt(b, j) && PacketAt(a, i) == PacketAt(b, j)
  {}

  lemma BlockOfRest(noise: seq<Byte>, c: Config, n: nat, m: nat, i: nat)
    requires m + i < n
    ensures var rest := Stream(noise, c, n)[|noise| + 188 * m..];
      && |rest| == 188 * (n - m) && PacketAt(rest, 188 * i) && ParsedAt(rest, 188 * i) == GeneratedPacket(c, m + i)
  {
    hide *;
    var fed := Stream(noise, c, n);
    BlockOfStream(noise, c, n, m + i);
    BlockShift(fed, |noise| + 188 * m, 188 * i);
    SameBlocks(fed, |noise| + 188 * (m + i), fed[|noise| + 188 * m..], 188 * i);
  }

  lemma RestParses(noise: seq<Byte>, c: Config, n: nat, part: seq<Byte>, rest: seq<Byte>)
    requires |noise| <= |part| && part + rest == Stream(noise, c, n)
    ensures AllBlocksParse(Received(noise, c, part).buffer + rest)
  {
    hide Stream;
    hide PacketSteps;
    hide GeneratedPackets;
    hide Core.Consistent;
    hide PacketAt;
    var m := (|part| - |noise|) / 188;
    var buf := Received(noise, c, part).buffer + rest;
    assert buf == Stream(noise, c, n)[|noise| + 188 * m..];
    hide Received;
    forall i: nat | i < |buf| / 188
      ensures PacketAt(buf, 188 * i)
    {
      BlockOfRest(noise, c, n, m, i);
    }
  }

  lemma GeneratedSplit(noise: seq<Byte>, c: Config, n: nat, m: nat)
    requires m <= n
    ensures var rest := Stream(noise, c, n)[|noise| + 188 * m..];
      && |rest| == 188 * (n - m)
      && GeneratedPackets(c, m) + Packets(rest, 0, n - m) == GeneratedPackets(c, n)
  {
    hide *;
    var rest := Stream(noise, c, n)[|noise| + 188 * m..];
    var ps := Packets(rest, 0, n - m);
    forall i | 0 <= i < n - m
      ensures ps[i] == GeneratedPacket(c, m + i)
    {
      BlockOfRest(noise, c, n, m, i);
    }
  }

  lemma WholeRest(noise: seq<Byte>, c: Config, n: nat, part: seq<Byte>, rest: seq<Byte>)
    requires |noise| <= |part| && part + rest == Stream(noise, c, n)
    ensures Whole(Received(noise, c, part), rest) == Received(noise, c, Stream(noise, c, n))
  {
    hide Stream;
    hide PacketSteps;
    hide GeneratedPackets;
    hide Packets;
    hide Core.Consistent;
    var fed, m := Stream(noise, c, n), (|part| - |noise|) / 188;
    var buf := Received(noise, c, part).buffer + rest;
    assert buf == fed[|noise| + 188 * m..];
    GeneratedSplit(noise, c, n, m);
    NewState([]);
    PacketStepsAppend(NEW_CORE, None, GeneratedPackets(c, m), Packets(buf, 0, n - m));
    assert buf[188 * (n - m)..] == [] && fed[|noise| + 188 * n..] == [];
  }

  lemma {:induction false} StreamArrives(noise: seq<Byte>, c: Config, n: nat, before: seq<Byte>, chunks: seq<seq<Byte>>)
    requires SYNC_BYTE !in noise && n >= 3 && NoFalseJump(Stream(noise, c, n), |noise|)
    requires before + Flatten(chunks) == Stream(noise, c, n) && |before| < |noise| + MIN_SYNC
    requires NEW_STATE.(buffer := before).core.Consistent() && Fits(NEW_STATE.(buffer := before), chunks)
    ensures FedAll(NEW_STATE.(buffer := before), chunks) == Received(noise, c, Stream(noise, c, n))
    decreases |chunks|
  {
    hide Stream;
    hide Received;
    hide NoFalseJump;
    hide Fed;
    hide Core.Consistent;
    if chunks != [] {
      var chunk, rest := chunks[0], chunks[1..];
      assert before + Flatten(chunks) == (before + chunk) + Flatten(rest);
      EarlyCall(noise, c, n, before, chunk);
      hide FedAll;
      hide Fits;
      if |before + chunk| < |noise| + MIN_SYNC {
        StreamArrives(noise, c, n, before + chunk, rest);
      } else {
        LateCalls(noise, c, n, before + chunk, rest);
      }
    }
  }

  /** However at least three generated packets after noise without sync bytes are cut into calls that
      fit the buffer, and whatever sync bytes they hold as long as the first hides no false jump, a new
      demultiplexer delivers every packet, in order, and nothing else; it ends synchronised and with
      nothing left over. */
  lemma StreamIsDelivered(noise: seq<Byte>, c: Config, n: nat, chunks: seq<seq<Byte>>)
    requires SYNC_BYTE !in noise && n >= 3 && NoFalseJump(Stream(noise, c, n), |noise|)
    requires NEW_STATE.core.Consistent() && Flatten(chunks) == Stream(noise, c, n) && Fits(NEW_STATE, chunks)
    ensures FedAll(NEW_STATE, chunks) ==
      NEW_STATE.(core := PacketSteps(NEW_STATE.core, None, GeneratedPackets(c, n)), buffer := [], synced := true)
  {
    NewState([]);
    assert NEW_STATE == NEW_STATE.(buffer := []);
    assert [] + Flatten(chunks) == Flatten(chunks);
    StreamArrives(noise, c, n, [], chunks);
    AllReceived(noise, c, n);
    hide *;
  }

  lemma AllReceived(noise: seq<Byte>, c: Config, n: nat)
    ensures NEW_STATE.core.Consistent()
    ensures Received(noise, c, Stream(noise, c, n)) ==
      NEW_STATE.(core := PacketSteps(NEW_STATE.core, None, GeneratedPackets(c, n)), buffer := [], synced := true)
  {
    hide Stream;
    hide PacketSteps;
    hide GeneratedPackets;
    NewState([]);
  }

  // ------------------------------------------------------------------------------------------
  // Storing it
  // ------------------------------------------------------------------------------------------

  function Repeated(bytes: seq<Byte>, n: nat): seq<Byte> {
    if n == 0 then [] else Repeated(bytes, n - 1) + bytes
  }

  lemma {:induction false} CarriedByGenerated(c: Config, n: nat)
    ensures Carried(GeneratedPackets(c, n)) == Repeated(Contents(c), n)
    decreases n
  {
    hide GeneratedPacket;
    hide Contents;
    hide PayloadOf;
    hide TsPacket.Valid;
    hide Packet.PrivateData;
    hide SequencePacket;
    if n > 0 {
      var ps := GeneratedPackets(c, n);
      assert ps[..n - 1] == GeneratedPackets(c, n - 1);
      CarriedByGenerated(c, n - 1);
      GeneratedFields(c, n - 1);
      var p := ps[n - 1];
      var before := Carried(ps[..n - 1]);
      assert before + p.PrivateData() + PayloadOf(p) == before + (p.PrivateData() + PayloadOf(p));
    }
  }

  lemma {:induction false} AllAccepted(ps: seq<Packet>, table: Option<set<nat>>, pid: nat)
    requires Accepts(table, pid) && forall p | p in ps :: p.header.pid == pid
    ensures Accepted(table, pid, Arrivals(ps)) == ps
    decreases |ps|
  {
    if ps != [] {
      var init := ps[..|ps| - 1];
      assert Arrivals(ps)[..|ps| - 1] == Arrivals(init);
      AllAccepted(init, table, pid);
      assert init + [ps[|ps| - 1]] == ps;
    }
  }

  lemma GeneratedArrive(c: Config, n: nat)
    requires !IsSystemPid(c.pid % 8192)
    ensures Accepted(None, c.pid % 8192, Arrivals(GeneratedPackets(c, n))) == GeneratedPackets(c, n)
  {
    hide GeneratedPacket;
    hide Contents;
    hide SequencePacket;
    hide TsPacket.Valid;
    var ps := GeneratedPackets(c, n);
    forall p | p in ps ensures p.header.pid == c.pid % 8192 {
      var i :| 0 <= i < n && p == ps[i];
      GeneratedFields(c, i);
    }
    AllAccepted(ps, None, c.pid % 8192);
  }

  lemma RunOfFeeds(chunks: seq<seq<Byte>>)
    ensures NEW_STATE.core.Consistent() && Run(Feeds(chunks)) == FedAll(NEW_STATE, chunks)
  {
    NewState([]);
    EmptyRun();
    hide *;
    RunFeeds([], chunks);
    assert [] + Feeds(chunks) == Feeds(chunks);
  }

  lemma EmptyRun()
    ensures Run([]) == NEW_STATE
  {}

  lemma GeneratedStored(c: Config, n: nat)
    requires !IsSystemPid(c.pid % 8192)
    ensures NEW_STATE.core.Consistent()
    ensures var s, pid := PacketSteps(NEW_STATE.core, None, GeneratedPackets(c, n)).store, c.pid % 8192;
      && StoredData(s.streams.Of(pid)) + OpenData(s, pid) == Repeated(Contents(c), n)
      && StoredCount(s.streams.Of(pid)) + OpenCount(s, pid) == n
  {
    var ps := GeneratedPackets(c, n);
    NothingYet();
    hide *;
    NewState([]);
    AfterArrivals(NEW_STATE.core, None, [], ps);
    assert [] + Arrivals(ps) == Arrivals(ps);
    GeneratedArrive(c, n);
    CarriedByGenerated(c, n);
    Conservation(None, c.pid % 8192, Arrivals(ps));
  }

  lemma NothingYet()
    ensures NEW_STATE.core.store == After(None, [])
  {}

  /** What the store of a new demultiplexer holds after such a stream. */
  lemma StoreOfStream(noise: seq<Byte>, c: Config, n: nat, chunks: seq<seq<Byte>>)
    requires SYNC_BYTE !in noise && n >= 3 && NoFalseJump(Stream(noise, c, n), |noise|)
    requires NEW_STATE.core.Consistent() && Flatten(chunks) == Stream(noise, c, n) && Fits(NEW_STATE, chunks)
    ensures Run(Feeds(chunks)).core.store == After(None, Arrivals(GeneratedPackets(c, n)))
  {
    NothingYet();
    hide *;
    var ps := GeneratedPackets(c, n);
    StreamIsDelivered(noise, c, n, chunks);
    RunOfFeeds(chunks);
    AfterArrivals(NEW_STATE.core, None, [], ps);
    assert [] + Arrivals(ps) == Arrivals(ps);
  }

  /** And what is stored for their PID, stored data then open data, is exactly what the generator put
      into them: private data and payload, packet by packet. */
  lemma StreamIsStored(noise: seq<Byte>, c: Config, n: nat, chunks: seq<seq<Byte>>)
    requires SYNC_BYTE !in noise && n >= 3 && NoFalseJump(Stream(noise, c, n), |noise|)
    requires NEW_STATE.core.Consistent() && Flatten(chunks) == Stream(noise, c, n) && Fits(NEW_STATE, chunks)
    requires !IsSystemPid(c.pid % 8192)
    ensures var s, pid := Run(Feeds(chunks)).core.store, c.pid % 8192;
      && StoredData(s.streams.Of(pid)) + OpenData(s, pid) == Repeated(Contents(c), n)
      && StoredCount(s.streams.Of(pid)) + OpenCount(s, pid) == n
  {
    hide *;
    StreamIsDelivered(noise, c, n, chunks);
    RunOfFeeds(chunks);
    GeneratedStored(c, n);
  }
}
