/** Runs, from real packets, in which properties one might expect do not hold. */
module RunExamples {
  import opened Bytes
  import opened TsPacket
  import opened PacketGenerator
  import opened Storage
  import opened DemuxSteps
  import opened DemuxModel
  import opened Chunking
  import opened Reachability
  import opened Synchronisation
  import opened Redelivery
  import opened Grouping
  import opened IterationIds
  import opened Feeding
  import opened EndToEnd

  // ------------------------------------------------------------------------------------------
  // A gap without a flag
  // ------------------------------------------------------------------------------------------

  function SingleGroup(ps: seq<Packet>): Groups {
    if ps == [] then Groups([], None, None) else Groups([], Some(Group(None, ps)), LastCc(ps))
  }

  lemma ArrivalsSnoc(ps: seq<Packet>)
    requires ps != []
    ensures var init, p := ps[..|ps| - 1], ps[|ps| - 1];
      Arrivals(ps) != [] && Arrivals(ps)[..|Arrivals(ps)| - 1] == Arrivals(init)
      && Arrivals(ps)[|Arrivals(ps)| - 1] == Delivered(p) && init + [p] == ps
  {}

  lemma SingleGroupGrows(table: Option<set<nat>>, pid: nat, ps: seq<Packet>, p: Packet)
    requires Accepts(table, pid) && p.header.pid == pid && !p.header.payloadUnitStart
    ensures Regrouped(SingleGroup(ps), table, pid, Delivered(p)) == SingleGroup(ps + [p])
  {
    if ps == [] { assert ps + [p] == [p]; }
    hide Accepts;
  }

  lemma GroupsSnoc(table: Option<set<nat>>, pid: nat, events: seq<Event>)
    requires events != []
    ensures GroupsOf(table, pid, events)
      == Regrouped(GroupsOf(table, pid, events[..|events| - 1]), table, pid, events[|events| - 1])
  {
    hide Regrouped;
  }

  lemma {:induction false} OneGroup(table: Option<set<nat>>, pid: nat, ps: seq<Packet>)
    requires Accepts(table, pid)
    requires forall i | 0 <= i < |ps| :: ps[i].header.pid == pid && !ps[i].header.payloadUnitStart
    ensures GroupsOf(table, pid, Arrivals(ps)) == SingleGroup(ps)
    decreases |ps|
  {
    if ps == [] {
      hide Accepts;
    } else {
      hide *;
      ArrivalsSnoc(ps);
      OneGroup(table, pid, ps[..|ps| - 1]);
      GroupsSnoc(table, pid, Arrivals(ps));
      SingleGroupGrows(table, pid, ps[..|ps| - 1], ps[|ps| - 1]);
    }
  }

  /** n generated packets, then one of another configuration. */
  function Followed(c: Config, n: nat, d: Config): seq<Packet> {
    GeneratedPackets(c, n) + [GeneratedPacket(d, 0)]
  }

  lemma OneStream(c: Config, n: nat)
    requires n >= 3 && NoFalseJump(Stream([], c, n), 0) && 188 * n <= MAX_BUFFER
    ensures NEW_STATE.core.Consistent()
    ensures Fed(NEW_STATE, Stream([], c, n)) ==
      NEW_STATE.(core := PacketSteps(NEW_STATE.core, None, GeneratedPackets(c, n)), buffer := [], synced := true)
  {
    var none: seq<Byte> := [];
    assert |none| == 0 && SYNC_BYTE !in none;
    hide *;
    NewState([]);
    var fed := Stream([], c, n);
    JustOne(NEW_STATE, fed);
    StreamIsDelivered([], c, n, [fed]);
  }

  lemma JustOne(s: State, chunk: seq<Byte>)
    requires s.core.Consistent()
    ensures FedAll(s, [chunk]) == Fed(s, chunk) && Flatten<Byte>([chunk]) == chunk
    ensures Fits(s, [chunk]) <==> |s.buffer| + |chunk| <= MAX_BUFFER
  {
    OneChunk(s, chunk);
    assert [chunk][1..] == [];
    hide Fed;
    hide Fits;
    hide Core.Consistent;
  }

  lemma BlockAlone(d: Config, i: nat)
    ensures var block: seq<Byte> := SequencePacket(d, i);
      AllBlocksParse(block) && Packets(block, 0, 1) == [GeneratedPacket(d, i)]
  {
    var block: seq<Byte> := SequencePacket(d, i);
    assert BlockAt(block, 0) == block;
    GeneratedFields(d, i);
    hide SequencePacket;
    hide TsPacket.Parse;
    hide TsPacket.Valid;
    hide Contents;
  }

  lemma WholeOfBlock(s: State, block: seq<Byte>)
    requires s.core.Consistent() && s.synced && s.buffer == [] && |block| == 188
    ensures s.buffer + block == block
    ensures Whole(s, block) == s.(core := PacketSteps(s.core, s.table, Packets(block, 0, 1)))
  {
    hide *;
    OnlyBlock(s, block);
    WholeIs(s, block, block, 1);
  }

  lemma OnlyBlock(s: State, block: seq<Byte>)
    requires s.buffer == [] && |block| == 188
    ensures s.buffer + block == block && |block| / 188 == 1 && block[188..] == []
  {}

  lemma WholeIs(s: State, data: seq<Byte>, buf: seq<Byte>, n: nat)
    requires s.core.Consistent() && s.buffer + data == buf && n == |buf| / 188
    ensures Whole(s, data) ==
      s.(core := PacketSteps(s.core, s.table, Packets(buf, 0, n)), buffer := buf[188 * n..], synced := true)
  {
    hide PacketSteps;
    hide Packets;
    hide Core.Consistent;
  }

  /** One more block to a synchronised demultiplexer with nothing left over. */
  lemma OneMoreBlock(s: State, d: Config, i: nat)
    requires Synchronised(s) && s.buffer == []
    ensures Fed(s, SequencePacket(d, i)) == s.(core := PacketSteps(s.core, s.table, [GeneratedPacket(d, i)]))
  {
    assert MAX_BUFFER == 18800 && s.core.Consistent() && s.synced;
    hide *;
    var block: seq<Byte> := SequencePacket(d, i);
    BlockAlone(d, i);
    WholeOfBlock(s, block);
    FedIsWhole(s, block);
  }

  lemma GapIsFed(c: Config, n: nat, d: Config)
    requires n >= 3 && NoFalseJump(Stream([], c, n), 0) && 188 * n <= MAX_BUFFER
    ensures Run(Feeds([Stream([], c, n), SequencePacket(d, 0)])).core.store == After(None, Arrivals(Followed(c, n, d)))
  {
    NothingYet();
    SynchronisedIs();
    hide *;
    hide Followed;
    var ps, x := GeneratedPackets(c, n), GeneratedPacket(d, 0);
    NewState([]);
    OneStream(c, n);
    var s := Fed(NEW_STATE, Stream([], c, n));
    OneMoreBlock(s, d, 0);
    TwoFeeds(Stream([], c, n), SequencePacket(d, 0));
    PacketStepsAppend(NEW_STATE.core, None, ps, [x]);
    FollowedIs(c, n, d);
    AfterArrivals(NEW_STATE.core, None, [], Followed(c, n, d));
    assert [] + Arrivals(Followed(c, n, d)) == Arrivals(Followed(c, n, d));
  }

  lemma SynchronisedIs()
    ensures forall s: State | s.core.Consistent() && s.synced && s.buffer == [] :: Synchronised(s)
  {}

  lemma FollowedIs(c: Config, n: nat, d: Config)
    ensures Followed(c, n, d) == GeneratedPackets(c, n) + [GeneratedPacket(d, 0)]
  {}

  lemma TwoFeeds(a: seq<Byte>, b: seq<Byte>)
    ensures NEW_STATE.core.Consistent() && Run(Feeds([a, b])) == Fed(Fed(NEW_STATE, a), b)
  {
    hide *;
    NewState([]);
    RunOfFeeds([a, b]);
    assert [a, b] == [a] + [b];
    FirstOfCalls(NEW_STATE, a, [b]);
    JustOne(Fed(NEW_STATE, a), b);
  }

  lemma GapFields(c: Config, n: nat, d: Config, i: nat)
    requires c.pid % 8192 == d.pid % 8192 && !c.setPusi && !d.setPusi && !c.includeAdaptation && !d.includeAdaptation
    requires i <= n
    ensures |Followed(c, n, d)| == n + 1
    ensures var p := Followed(c, n, d)[i];
      && p.header.pid == c.pid % 8192 && !p.header.payloadUnitStart && !p.Discontinuity()
      && p.header.cc == if i < n then (c.startingCc + i) % 16 else d.startingCc % 16
  {
    if i < n { GeneratedFields(c, i); } else { GeneratedFields(d, 0); }
    hide GeneratedPacket;
    hide Contents;
    hide SequencePacket;
    hide TsPacket.Valid;
    hide Packet.PrivateData;
  }

  lemma HasGapNoJump(g: Group, i: nat)
    requires 0 < i < |g.packets| && forall k | 0 <= k < |g.packets| :: !g.packets[k].Discontinuity()
    requires g.packets[i].header.cc != (g.packets[i - 1].header.cc + 1) % 16
    ensures HasGap(g) && !HasJump(g)
  {
    assert IsGap(CcBefore(g, i), g.packets[i]);
  }

  lemma FlagIs(g: Group)
    requires g.packets != []
    ensures Iteration(g).discontinuity == HasJump(g)
  {
    hide AllPieces;
    hide Tiled;
    hide Joined;
    hide HasJump;
  }

  lemma OpenIs(s: Store, pid: nat, g: Groups)
    requires Represents(s, pid, g) && g.open.Some?
    ensures g.open.value.packets != [] && Get(s.open, pid) == Some(Iteration(g.open.value))
  {
    hide Iteration;
  }

  lemma SingleGroupIs(ps: seq<Packet>)
    ensures ps != [] ==> SingleGroup(ps).open == Some(Group(None, ps))
  {}

  /** Packets without adaptation fields whose counters run on, and one whose counter does not: the open
      iteration of the PID has a gap, and no flag. */
  lemma GapWithoutFlag(c: Config, n: nat, d: Config)
    requires n >= 3 && NoFalseJump(Stream([], c, n), 0) && 188 * n <= MAX_BUFFER
    requires c.pid % 8192 == d.pid % 8192 && !IsSystemPid(c.pid % 8192)
    requires !c.setPusi && !d.setPusi && !c.includeAdaptation && !d.includeAdaptation
    requires d.startingCc % 16 != (c.startingCc + n) % 16
    ensures var s, pid := Run(Feeds([Stream([], c, n), SequencePacket(d, 0)])).core.store, c.pid % 8192;
      var g := Group(None, Followed(c, n, d));
      && HasGap(g) && g.packets != [] && Get(s.open, pid) == Some(Iteration(g)) && !Iteration(g).discontinuity
  {
    hide *;
    var ps, pid := Followed(c, n, d), c.pid % 8192;
    var g := Group(None, ps);
    AcceptedWithoutTable(pid);
    GapFields(c, n, d, n);
    GapFields(c, n, d, n - 1);
    NextCc(c.startingCc + (n - 1));
    forall i | 0 <= i < |ps|
      ensures ps[i].header.pid == pid && !ps[i].header.payloadUnitStart && !ps[i].Discontinuity()
    {
      GapFields(c, n, d, i);
    }
    HasGapNoJump(g, n);
    FlagIs(g);
    OneGroup(None, pid, ps);
    SingleGroupIs(ps);
    GapIsFed(c, n, d);
    StoreHoldsGroups(None, pid, Arrivals(ps));
    OpenIs(After(None, Arrivals(ps)), pid, SingleGroup(ps));
  }

  lemma AcceptedWithoutTable(pid: nat)
    requires !IsSystemPid(pid)
    ensures Accepts(None, pid)
  {}

  const RUNNING_ON := Config(0x100, 0, false, false, false, 0xAA)
  const JUMPED := Config(0x100, 5, false, false, false, 0xAA)

  /** For instance counters 0, 1, 2 and 5. */
  lemma GapExample()
    ensures NoFalseJump(Stream([], RUNNING_ON, 3), 0) && !IsSystemPid(RUNNING_ON.pid % 8192)
    ensures var s := Run(Feeds([Stream([], RUNNING_ON, 3), SequencePacket(JUMPED, 0)])).core.store;
      var g := Group(None, Followed(RUNNING_ON, 3, JUMPED));
      && HasGap(g) && g.packets != [] && Get(s.open, 0x100) == Some(Iteration(g)) && !Iteration(g).discontinuity
  {
    var none: seq<Byte> := [];
    assert |none| == 0 && 188 * 3 <= MAX_BUFFER && NoInnerSync(RUNNING_ON) && !IsSystemPid(0x100);
    assert RUNNING_ON.pid % 8192 == 0x100 == JUMPED.pid % 8192;
    assert !RUNNING_ON.setPusi && !JUMPED.setPusi && !RUNNING_ON.includeAdaptation && !JUMPED.includeAdaptation;
    assert JUMPED.startingCc % 16 != (RUNNING_ON.startingCc + 3) % 16;
    hide *;
    NoInnerSyncSuffices([], RUNNING_ON, 3);
    GapWithoutFlag(RUNNING_ON, 3, JUMPED);
  }

  // ------------------------------------------------------------------------------------------
  // More iterations than ids
  // ------------------------------------------------------------------------------------------

  /** Generated packets that start units each begin an iteration. */
  lemma {:induction false} UnitStartsBegin(c: Config, n: nat)
    requires c.setPusi && !IsSystemPid(c.pid % 8192)
    ensures BegunCount(None, Arrivals(GeneratedPackets(c, n))) == n
    decreases n
  {
    hide GeneratedPacket;
    hide Contents;
    hide SequencePacket;
    hide TsPacket.Valid;
    hide After;
    if n > 0 {
      var ps := GeneratedPackets(c, n);
      assert ps[..n - 1] == GeneratedPackets(c, n - 1);
      assert Arrivals(ps)[..n - 1] == Arrivals(GeneratedPackets(c, n - 1));
      GeneratedFields(c, n - 1);
      UnitStartsBegin(c, n - 1);
    }
  }

  /** Whatever the cut: one iteration more than there are ids, and two of them share one; one less, and
      some id is not below the next. */
  lemma TooManyIterations(c: Config, n: nat, chunks: seq<seq<Byte>>)
    requires c.setPusi && !IsSystemPid(c.pid % 8192) && n >= 3 && NoFalseJump(Stream([], c, n), 0)
    requires NEW_STATE.core.Consistent() && Flatten(chunks) == Stream([], c, n) && Fits(NEW_STATE, chunks)
    ensures Distinct(Run(Feeds(chunks)).core.store) <==> n <= 0x1_0000_0000
    ensures BelowNext(Run(Feeds(chunks)).core.store) <==> n + 1 < 0x1_0000_0000
  {
    var none: seq<Byte> := [];
    assert |none| == 0 && SYNC_BYTE !in none;
    hide *;
    StoreOfStream([], c, n, chunks);
    UnitStartsBegin(c, n);
    IdsDistinctExactly(None, Arrivals(GeneratedPackets(c, n)));
    IdsBelowNextExactly(None, Arrivals(GeneratedPackets(c, n)));
  }

  // A cut of any length that fits: block by block.

  function Blocks(c: Config, from: nat, n: nat): (chunks: seq<seq<Byte>>)
    requires from <= n
    ensures |chunks| == n - from
    decreases n - from
  {
    if from == n then [] else [SequencePacket(c, from)] + Blocks(c, from + 1, n)
  }

  lemma StreamGrows(c: Config, i: nat)
    ensures Stream([], c, i + 1) == Stream([], c, i) + SequencePacket(c, i)
  {
    hide SequencePacket;
    SequenceLength(c, i);
  }

  lemma {:induction false} StreamPrefix(c: Config, i: nat, n: nat)
    requires i <= n
    ensures Stream([], c, i) <= Stream([], c, n)
    decreases n - i
  {
    hide Stream;
    if i < n {
      StreamGrows(c, i);
      StreamPrefix(c, i + 1, n);
    }
  }

  lemma {:induction false} BlocksJoined(c: Config, from: nat, n: nat)
    requires from <= n
    ensures Stream([], c, from) + Flatten(Blocks(c, from, n)) == Stream([], c, n)
    decreases n - from
  {
    hide SequencePacket;
    hide Stream;
    if from < n {
      StreamGrows(c, from);
      BlocksJoined(c, from + 1, n);
      var block, rest := SequencePacket(c, from), Blocks(c, from + 1, n);
      assert ([block] + rest)[0] == block && ([block] + rest)[1..] == rest;
      assert Stream([], c, from) + (block + Flatten(rest)) == Stream([], c, from) + block + Flatten(rest);
    } else {
      assert Stream([], c, from) + [] == Stream([], c, from);
    }
  }

  /** The state after the first i blocks. */
  function AfterBlocks(c: Config, i: nat): (s: State)
    ensures s.core.Consistent() && |s.buffer| <= 376
  {
    NewState(Stream([], c, i));
    if i < 3 then NEW_STATE.(buffer := Stream([], c, i)) else Received([], c, Stream([], c, i))
  }

  lemma EarlyBlock(c: Config, n: nat, i: nat)
    requires n >= 3 && NoFalseJump(Stream([], c, n), 0) && i < n && i < 3
    ensures Fed(AfterBlocks(c, i), SequencePacket(c, i)) == AfterBlocks(c, i + 1)
  {
    var none: seq<Byte> := [];
    assert |none| == 0 && SYNC_BYTE !in none && MIN_SYNC == 564;
    StreamGrows(c, i);
    StreamPrefix(c, i + 1, n);
    hide SequencePacket;
    hide Stream;
    hide Received;
    hide Fed;
    hide NoFalseJump;
    hide Core.Consistent;
    EarlyCall([], c, n, Stream([], c, i), SequencePacket(c, i));
  }

  lemma AfterBlocksIs(c: Config, i: nat)
    requires i >= 3
    ensures AfterBlocks(c, i) == Received([], c, Stream([], c, i))
    ensures AfterBlocks(c, i + 1) == Received([], c, Stream([], c, i + 1))
  {
    hide Stream;
    hide Received;
    hide Core.Consistent;
  }

  lemma Limits()
    ensures var none: seq<Byte> := []; |none| == 0 && MAX_BUFFER == 18800
  {}

  lemma LateBlock(c: Config, i: nat)
    requires i >= 3
    ensures Fed(AfterBlocks(c, i), SequencePacket(c, i)) == AfterBlocks(c, i + 1)
  {
    hide *;
    Limits();
    AfterBlocksIs(c, i);
    ReceivedIsSynchronised(c, i);
    StreamGrows(c, i);
    RestParses([], c, i + 1, Stream([], c, i), SequencePacket(c, i));
    WholeRest([], c, i + 1, Stream([], c, i), SequencePacket(c, i));
    FedIsWhole(Received([], c, Stream([], c, i)), SequencePacket(c, i));
  }

  lemma ReceivedIsSynchronised(c: Config, i: nat)
    ensures Synchronised(Received([], c, Stream([], c, i))) && Received([], c, Stream([], c, i)).buffer == []
  {
    hide Stream;
    hide PacketSteps;
    hide Core.Consistent;
  }

  lemma {:induction false} BlocksFit(c: Config, from: nat, n: nat)
    requires from <= n && n >= 3 && NoFalseJump(Stream([], c, n), 0)
    ensures Fits(AfterBlocks(c, from), Blocks(c, from, n))
    decreases n - from
  {
    assert MAX_BUFFER == 18800;
    if from < n {
      if from < 3 { EarlyBlock(c, n, from); } else { LateBlock(c, from); }
      var block, rest := SequencePacket(c, from), Blocks(c, from + 1, n);
      assert Blocks(c, from, n) == [block] + rest && ([block] + rest)[0] == block && ([block] + rest)[1..] == rest;
      hide SequencePacket;
      hide Stream;
      hide Fed;
      hide AfterBlocks;
      hide NoFalseJump;
      hide Blocks;
      hide Core.Consistent;
      BlocksFit(c, from + 1, n);
    }
  }

  const UNIT_STARTS := Config(0x100, 0, false, false, true, 0xAA)

  /** Such a run: 2^32 + 1 packets that start units, fed block by block, and two iterations share an id. */
  lemma SharedId()
    ensures !Distinct(Run(Feeds(Blocks(UNIT_STARTS, 0, ID_LIMIT + 1))).core.store)
  {
    var none: seq<Byte> := [];
    assert |none| == 0 && NoInnerSync(UNIT_STARTS) && ID_LIMIT + 1 >= 3;
    assert ID_LIMIT == 0x1_0000_0000 && UNIT_STARTS.setPusi;
    assert UNIT_STARTS.pid % 8192 == 0x100 && !IsSystemPid(0x100);
    NothingAtFirst(UNIT_STARTS);
    hide *;
    var c, n := UNIT_STARTS, ID_LIMIT + 1;
    NoInnerSyncSuffices([], c, n);
    BlocksFit(c, 0, n);
    BlocksJoined(c, 0, n);
    TooManyIterations(c, n, Blocks(c, 0, n));
  }

  lemma NothingAtFirst(c: Config)
    ensures AfterBlocks(c, 0) == NEW_STATE && NEW_STATE.core.Consistent()
    ensures forall b: seq<Byte> :: Stream([], c, 0) + b == b
  {
    NewState([]);
    assert Stream([], c, 0) == [];
  }

  // ------------------------------------------------------------------------------------------
  // A repetition that takes two calls
  // ------------------------------------------------------------------------------------------

  /** Two packets that go on a stream of three, and a block that is not a packet. */
  function Pair(c: Config): (fed: seq<Byte>)
    ensures |fed| == 564
  {
    SequencePacket(c, 3) + SequencePacket(c, 4) + seq(188, _ => 0)
  }

  /** The same, one octet, and the packet that follows the two. */
  function PairAndNext(c: Config): (fed: seq<Byte>)
    ensures |fed| == 753 && fed == Pair(c) + [0] + SequencePacket(c, 5)
  {
    Pair(c) + [0] + SequencePacket(c, 5)
  }

  lemma OctetsOfPair(c: Config, r: nat)
    requires NoInnerSync(c) && r < 753 && r != 0 && r != 188 && r != 565
    ensures PairAndNext(c)[r] != SYNC_BYTE
  {
    hide SequencePacket;
    hide NoInnerSync;
    if r < 188 {
      NoSyncInside(c, 3, r);
    } else if r < 376 {
      NoSyncInside(c, 4, r - 188);
    } else if r > 565 {
      NoSyncInside(c, 5, r - 565);
    }
  }

  lemma NoPacketInPair(c: Config, r: nat)
    requires NoInnerSync(c) && r != 0 && r != 188 && r != 565
    ensures !PacketAt(PairAndNext(c), r)
  {
    hide PairAndNext;
    hide NoInnerSync;
    if PacketAt(PairAndNext(c), r) {
      SyncByteNeeded(PairAndNext(c), r);
      OctetsOfPair(c, r);
    }
  }

  lemma PacketOfBlock(buf: seq<Byte>, at: nat, c: Config, i: nat)
    requires at + 188 <= |buf| && BlockAt(buf, at) == SequencePacket(c, i)
    ensures PacketAt(buf, at) && ParsedAt(buf, at) == GeneratedPacket(c, i)
  {
    GeneratedFields(c, i);
    hide SequencePacket;
    hide TsPacket.Parse;
    hide TsPacket.Valid;
    hide Contents;
  }

  lemma PacketsOfPair(c: Config)
    ensures var buf := PairAndNext(c);
      && PacketAt(buf, 0) && ParsedAt(buf, 0) == GeneratedPacket(c, 3)
      && PacketAt(buf, 188) && ParsedAt(buf, 188) == GeneratedPacket(c, 4)
      && PacketAt(buf, 565) && ParsedAt(buf, 565) == GeneratedPacket(c, 5)
  {
    var buf := PairAndNext(c);
    hide SequencePacket;
    hide PacketAt;
    hide ParsedAt;
    hide GeneratedPacket;
    assert BlockAt(buf, 0) == SequencePacket(c, 3);
    assert BlockAt(buf, 188) == SequencePacket(c, 4);
    assert BlockAt(buf, 565) == SequencePacket(c, 5);
    PacketOfBlock(buf, 0, c, 3);
    PacketOfBlock(buf, 188, c, 4);
    PacketOfBlock(buf, 565, c, 5);
  }

  lemma FieldsThatCount(c: Config, i: nat)
    ensures var p := GeneratedPacket(c, i); p.header.pid == c.pid % 8192 && p.header.cc == (c.startingCc + i) % 16
  {
    GeneratedFields(c, i);
    hide *;
  }

  lemma Belong(p: Packet, q: Packet)
    requires q.header.cc == (p.header.cc + 1) % 16 && p.header.pid == q.header.pid
    ensures BelongsTo(p, q)
  {
    hide Packet.Discontinuity;
  }

  lemma Consecutive(c: Config, i: nat)
    ensures BelongsTo(GeneratedPacket(c, i), GeneratedPacket(c, i + 1))
  {
    hide *;
    FieldsThatCount(c, i);
    FieldsThatCount(c, i + 1);
    NextCc(c.startingCc + i);
    Belong(GeneratedPacket(c, i), GeneratedPacket(c, i + 1));
  }

  /** With the third packet the search succeeds. */
  lemma PairIsFound(c: Config)
    requires NoInnerSync(c)
    ensures FirstSync(PairAndNext(c)) == Some(0)
  {
    var buf := PairAndNext(c);
    hide PairAndNext;
    hide NoInnerSync;
    hide PacketAt;
    hide ParsedAt;
    hide BelongsTo;
    PacketsOfPair(c);
    Consecutive(c, 3);
    Consecutive(c, 4);
    forall r: nat | r != 0 && r != 188 && r != 565 ensures !PacketAt(buf, r) { NoPacketInPair(c, r); }
    assert NextMatch(buf, 0, 1, 753, 188);
    assert NextMatch(buf, 188, 376, 753, 565);
    assert SearchLimit(buf, 0) == 753;
    assert Chain(buf, 0, 188, 565);
  }

  /** Without it, it does not. */
  lemma PairIsNotFound(c: Config)
    requires NoInnerSync(c)
    ensures FirstSync(Pair(c) + [0]) == None
  {
    var buf, more := Pair(c) + [0], SequencePacket(c, 5);
    assert PairAndNext(c) == buf + more && |buf| == 565;
    hide Pair;
    hide SequencePacket;
    hide PairAndNext;
    hide NoInnerSync;
    if FirstSync(buf).Some? {
      var a := FirstSync(buf).value;
      assert Admits(buf, a);
      var p1: nat, p2: nat :| Chain(buf, a, p1, p2);
      ChainPackets(buf, a, p1, p2);
      PacketAtExtends(buf, more, a);
      PacketAtExtends(buf, more, p1);
      PacketAtExtends(buf, more, p2);
      if a != 0 && a != 188 && a != 565 { NoPacketInPair(c, a); }
      if p1 != 0 && p1 != 188 && p1 != 565 { NoPacketInPair(c, p1); }
      if p2 != 0 && p2 != 188 && p2 != 565 { NoPacketInPair(c, p2); }
    }
  }

  lemma ChainPackets(buf: seq<Byte>, a: nat, p1: nat, p2: nat)
    requires Chain(buf, a, p1, p2)
    ensures PacketAt(buf, a) && PacketAt(buf, p1) && PacketAt(buf, p2)
    ensures a + 188 <= |buf| && a < p1 && p1 + 188 <= p2 && p2 + 188 <= |buf|
  {
    ChainBounds(buf, a, p1, p2);
    hide PacketAt;
    hide NoneFollows;
    hide BelongsTo;
  }

  lemma TwoGood(c: Config)
    requires NoInnerSync(c)
    ensures GoodBlocks(PairAndNext(c), 0) == 2 && GoodBlocks(Pair(c), 0) == 2
  {
    hide *;
    var buf, short := PairAndNext(c), Pair(c);
    PacketsOfPair(c);
    NoPacketInPair(c, 376);
    OneBlock(buf, 0);
    OneBlock(buf, 188);
    OneBlock(buf, 376);
    assert buf == short + ([0] + SequencePacket(c, 5));
    PacketAtExtends(short, [0] + SequencePacket(c, 5), 0);
    PacketAtExtends(short, [0] + SequencePacket(c, 5), 188);
    PacketAtExtends(short, [0] + SequencePacket(c, 5), 376);
    OneBlock(short, 0);
    OneBlock(short, 188);
    OneBlock(short, 376);
  }

  lemma SynchronisedCallIs(s: State, chunk: seq<Byte>)
    requires s.core.Consistent() && s.synced && s.buffer == [] && chunk != [] && |chunk| <= MAX_BUFFER
    ensures DeliveryStart(s, chunk) == Some(0) && Fed(s, chunk) == Drained(s.(buffer := chunk), 0)
    ensures Clipped(s.buffer + chunk) == chunk && Dropped(s, chunk) == 0
  {
    assert s.buffer + chunk == chunk;
    hide Drained;
    hide FirstSync;
    hide Core.Consistent;
  }

  /** A synchronised call that meets a block that does not parse. */
  lemma SynchronisedLoss(s: State, chunk: seq<Byte>)
    requires s.core.Consistent() && s.synced && s.buffer == []
    requires GoodBlocks(chunk, 0) == 2 && 564 <= |chunk| <= MAX_BUFFER
    ensures DeliveryStart(s, chunk) == Some(0)
    ensures !Fed(s, chunk).synced && Fed(s, chunk).buffer == chunk && Dropped(s, chunk) == 0
    ensures Clipped(s.buffer + chunk) == chunk
  {
    hide *;
    SynchronisedCallIs(s, chunk);
    DrainedStuck(s.(buffer := chunk), 0, 2);
  }

  lemma StartOf(t: State, more: seq<Byte>)
    requires !t.synced && more != [] && |t.buffer| + |more| <= MAX_BUFFER
    ensures DeliveryStart(t, more) == FirstSync(t.buffer + more)
    ensures Clipped(t.buffer + more) == t.buffer + more && Dropped(t, more) == 0
  {
    hide FirstSync;
  }

  lemma RunSteps(a: seq<Byte>, b: seq<Byte>, x: seq<Byte>)
    ensures NEW_STATE.core.Consistent()
    ensures var s := Fed(NEW_STATE, a); var t := Fed(s, b);
      && Run([Feed(a)]) == s && Run([Feed(a), Feed(b)]) == t && Run([Feed(a), Feed(b), Feed(x)]) == Fed(t, x)
    ensures FedSince([Feed(a)]) == a && FedSince([Feed(a), Feed(b), Feed(x)]) == a + b + x
  {
    NewState([]);
    EmptyRun();
    NothingFed();
    hide *;
    var none: seq<Op> := [];
    assert none + [Feed(a)] == [Feed(a)] && [Feed(a)] + [Feed(b)] == [Feed(a), Feed(b)];
    assert [Feed(a), Feed(b)] + [Feed(x)] == [Feed(a), Feed(b), Feed(x)];
    assert FedSince(none) + a == a;
    RunSnoc(none, Feed(a));
    RunSnoc([Feed(a)], Feed(b));
    RunSnoc([Feed(a), Feed(b)], Feed(x));
    FeedIsFed(Run(none), a);
    FeedIsFed(Run([Feed(a)]), b);
    FeedIsFed(Run([Feed(a), Feed(b)]), x);
    FedSinceFeed(none, a);
    FedSinceFeed([Feed(a)], b);
    FedSinceFeed([Feed(a), Feed(b)], x);
  }

  lemma NothingFed()
    ensures FedSince([]) == []
  {}

  lemma NextIs(ops: seq<Op>)
    ensures Next(ops) == |FedSince(ops)| - |Run(ops).buffer|
  {
    hide Run;
    hide FedSince;
  }

  lemma PairParts(c: Config)
    ensures PairAndNext(c) == Pair(c) + [0] + SequencePacket(c, 5)
    ensures var none: seq<Byte> := []; |none| == 0 && MAX_BUFFER == 18800
  {
    hide Pair;
    hide SequencePacket;
  }

  /** The states of the run: synchronised with nothing left over; unsynchronised with the pair kept; the
      same with one octet more. */
  lemma StatesOfRun(c: Config)
    requires NoInnerSync(c)
    ensures var first, second, third := Stream([], c, 3), Pair(c), [0];
      var s, t := Run([Feed(first)]), Run([Feed(first), Feed(second)]);
      var u := Run([Feed(first), Feed(second), Feed(third)]);
      && s.synced && s.buffer == [] && DeliveryStart(s, second) == Some(0)
      && Clipped(s.buffer + second) == second && Dropped(s, second) == 0
      && !t.synced && t.buffer == second && DeliveryStart(t, third) == None
      && !u.synced && u.buffer == second + third
      && FedSince([Feed(first)]) == first
      && FedSince([Feed(first), Feed(second), Feed(third)]) == first + second + third
  {
    hide *;
    var first, second, third := Stream([], c, 3), Pair(c), [0];
    PairParts(c);
    NoInnerSyncSuffices([], c, 3);
    RunSteps(first, second, third);
    OneStream(c, 3);
    TwoGood(c);
    var s, t := Run([Feed(first)]), Run([Feed(first), Feed(second)]);
    SynchronisedLoss(s, second);
    PairIsNotFound(c);
    StartOf(t, third);
    Waits(t, third);
  }

  /** Three packets; two more and a bad block, at which synchronisation is lost; one octet, with which
      nothing is found and nothing delivered; and the next packet, with which the two are found and
      delivered again. */
  lemma RepeatedLater(c: Config)
    requires NoInnerSync(c)
    ensures var first, second, third, fourth := Stream([], c, 3), Pair(c), [0], SequencePacket(c, 5);
      var ops1, ops2, ops3 := [Feed(first)], [Feed(first), Feed(second)], [Feed(first), Feed(second), Feed(third)];
      && DeliveryStart(Run(ops2), third) == None
      && exists pos: int :: DeliversOctet(ops1, second, pos) && DeliversOctet(ops3, fourth, pos)
  {
    hide *;
    var first, second, third, fourth := Stream([], c, 3), Pair(c), [0], SequencePacket(c, 5);
    var ops1, ops3 := [Feed(first)], [Feed(first), Feed(second), Feed(third)];
    PairParts(c);
    StatesOfRun(c);
    TwoGood(c);
    StartOf(Run(ops3), fourth);
    PairIsFound(c);
    NextIs(ops1);
    NextIs(ops3);
    MeetAt(ops1, second, ops3, fourth, 2);
    BothDeliverExactly(ops1, second, ops3, fourth);
  }

  lemma MeetAt(ops: seq<Op>, chunk: seq<Byte>, ops1: seq<Op>, more: seq<Byte>, n: nat)
    requires var s, t := Run(ops), Run(ops1);
      && DeliveryStart(s, chunk) == Some(0) && DeliveryStart(t, more) == Some(0)
      && Dropped(s, chunk) == 0 && Dropped(t, more) == 0 && Next(ops) == Next(ops1) && n > 0
      && GoodBlocks(Clipped(s.buffer + chunk), 0) == n && GoodBlocks(Clipped(t.buffer + more), 0) == n
    ensures Meets(ops, chunk, ops1, more)
  {
    hide Run;
    hide DeliveryStart;
    hide Dropped;
    hide Next;
    hide GoodBlocks;
    hide Clipped;
  }

  // ------------------------------------------------------------------------------------------
  // Counters that do not go on
  // ------------------------------------------------------------------------------------------

  /** Three packets of a sequence, back to back. */
  function Scattered(c: Config, i: nat, j: nat): (fed: seq<Byte>)
    ensures |fed| == 564
  {
    SequencePacket(c, 0) + SequencePacket(c, i) + SequencePacket(c, j)
  }

  lemma BlocksOfScattered(c: Config, i: nat, j: nat)
    ensures var buf := Scattered(c, i, j);
      && PacketAt(buf, 0) && ParsedAt(buf, 0) == GeneratedPacket(c, 0)
      && PacketAt(buf, 188) && ParsedAt(buf, 188) == GeneratedPacket(c, i)
      && PacketAt(buf, 376) && ParsedAt(buf, 376) == GeneratedPacket(c, j)
  {
    var buf := Scattered(c, i, j);
    hide SequencePacket;
    hide PacketAt;
    hide ParsedAt;
    hide GeneratedPacket;
    assert BlockAt(buf, 0) == SequencePacket(c, 0);
    assert BlockAt(buf, 188) == SequencePacket(c, i);
    assert BlockAt(buf, 376) == SequencePacket(c, j);
    PacketOfBlock(buf, 0, c, 0);
    PacketOfBlock(buf, 188, c, i);
    PacketOfBlock(buf, 376, c, j);
  }

  lemma OctetsOfScattered(c: Config, i: nat, j: nat, r: nat)
    requires NoInnerSync(c) && r < 564 && r % 188 != 0
    ensures Scattered(c, i, j)[r] != SYNC_BYTE
  {
    hide SequencePacket;
    hide NoInnerSync;
    if r < 188 { NoSyncInside(c, 0, r); }
    else if r < 376 { NoSyncInside(c, i, r - 188); }
    else { NoSyncInside(c, j, r - 376); }
  }

  lemma NoOtherInScattered(c: Config, i: nat, j: nat, r: nat)
    requires NoInnerSync(c) && PacketAt(Scattered(c, i, j), r)
    ensures r == 0 || r == 188 || r == 376
  {
    hide Scattered;
    hide NoInnerSync;
    SyncByteNeeded(Scattered(c, i, j), r);
    if r % 188 != 0 { OctetsOfScattered(c, i, j, r); }
  }

  /** The counters of the three go on one by one. */
  predicate InOrder(c: Config, i: nat, j: nat) {
    && (c.startingCc + i) % 16 == (c.startingCc + 1) % 16
    && (c.startingCc + j) % 16 == (c.startingCc + i + 1) % 16
  }

  lemma ScatteredFields(c: Config, i: nat)
    requires !c.includeAdaptation
    ensures var p := GeneratedPacket(c, i);
      p.header.cc == (c.startingCc + i) % 16 && p.header.pid == c.pid % 8192 && !p.hasAdaptation
  {
    GeneratedFields(c, i);
    hide *;
  }

  lemma ScatteredFound(c: Config, i: nat, j: nat)
    requires NoInnerSync(c) && !c.includeAdaptation
    ensures FirstSync(Scattered(c, i, j)) == if InOrder(c, i, j) then Some(0) else None
  {
    var buf := Scattered(c, i, j);
    hide Scattered;
    hide NoInnerSync;
    hide PacketAt;
    hide ParsedAt;
    hide GeneratedPacket;
    hide FirstSync;
    BlocksOfScattered(c, i, j);
    ScatteredFields(c, 0);
    ScatteredFields(c, i);
    ScatteredFields(c, j);
    NextCc(c.startingCc + 0);
    NextCc(c.startingCc + i);
    forall r: nat | PacketAt(buf, r) ensures r == 0 || r == 188 || r == 376 { NoOtherInScattered(c, i, j, r); }
    assert OnlyThree(buf, 0, 188, 376);
    assert Found(buf, 0, 188, 376) <==> InOrder(c, i, j);
    ThreePacketsExactly(buf, 0, 188, 376);
  }

  lemma KeptWhole(s: State, fed: seq<Byte>)
    requires s.buffer == [] && |fed| <= MAX_BUFFER
    ensures Clipped(s.buffer + fed) == fed
  {
    assert [] + fed == fed;
  }

  lemma NotFoundCall(s: State, fed: seq<Byte>)
    requires s.core.Consistent() && !s.synced && s.buffer == [] && 0 < |fed| <= MAX_BUFFER
    requires FirstSync(fed) == None
    ensures DeliveredBy(s, fed) == [] && Fed(s, fed) == s.(buffer := fed)
  {
    KeptWhole(s, fed);
    hide Clipped;
    hide FirstSync;
    hide GoodBlocks;
    hide Packets;
    hide Drained;
    hide Core.Consistent;
  }

  lemma FoundCall(s: State, fed: seq<Byte>)
    requires s.core.Consistent() && !s.synced && s.buffer == [] && 0 < |fed| <= MAX_BUFFER
    requires FirstSync(fed) == Some(0) && GoodBlocks(fed, 0) == 3
    ensures DeliveredBy(s, fed) == Packets(fed, 0, 3)
  {
    KeptWhole(s, fed);
    hide Clipped;
    hide FirstSync;
    hide GoodBlocks;
    hide Packets;
    hide Fed;
    hide Core.Consistent;
  }

  lemma ThreeGood(c: Config, i: nat, j: nat)
    ensures GoodBlocks(Scattered(c, i, j), 0) == 3
    ensures Packets(Scattered(c, i, j), 0, 3) == [GeneratedPacket(c, 0), GeneratedPacket(c, i), GeneratedPacket(c, j)]
  {
    var buf := Scattered(c, i, j);
    hide Scattered;
    hide GeneratedPacket;
    hide PacketAt;
    hide ParsedAt;
    BlocksOfScattered(c, i, j);
    OneBlock(buf, 0);
    OneBlock(buf, 188);
    OneBlock(buf, 376);
    OneBlock(buf, 564);
  }

  /** A new demultiplexer delivers three packets of a PID if their counters go on, and otherwise nothing
      at all: it keeps waiting. */
  lemma CountersDecide(c: Config, i: nat, j: nat)
    requires NoInnerSync(c) && !c.includeAdaptation
    ensures NEW_STATE.core.Consistent()
    ensures DeliveredBy(NEW_STATE, Scattered(c, i, j)) ==
      if InOrder(c, i, j) then [GeneratedPacket(c, 0), GeneratedPacket(c, i), GeneratedPacket(c, j)] else []
    ensures !InOrder(c, i, j) ==> Fed(NEW_STATE, Scattered(c, i, j)) == NEW_STATE.(buffer := Scattered(c, i, j))
  {
    hide *;
    Limits();
    NewState([]);
    ScatteredFound(c, i, j);
    ThreeGood(c, i, j);
    if InOrder(c, i, j) { FoundCall(NEW_STATE, Scattered(c, i, j)); }
    else { NotFoundCall(NEW_STATE, Scattered(c, i, j)); }
  }

  /** For instance counters 0, 5 and 10. */
  lemma JumpsAreRefused()
    ensures NEW_STATE.core.Consistent()
    ensures DeliveredBy(NEW_STATE, Scattered(RUNNING_ON, 5, 10)) == []
    ensures Run(Feeds([Scattered(RUNNING_ON, 5, 10)])) == NEW_STATE.(buffer := Scattered(RUNNING_ON, 5, 10))
  {
    RunningOn();
    hide *;
    NewState([]);
    CountersDecide(RUNNING_ON, 5, 10);
    RunOfFeeds([Scattered(RUNNING_ON, 5, 10)]);
    JustOne(NEW_STATE, Scattered(RUNNING_ON, 5, 10));
  }

  lemma RunningOn()
    ensures NoInnerSync(RUNNING_ON) && !RUNNING_ON.includeAdaptation && !InOrder(RUNNING_ON, 5, 10)
  {}
}
