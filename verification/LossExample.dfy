/** A run that delivers packets more than once: generated packets, a block of zeros, and more octets. */
module LossExample {
  import opened Bytes
  import opened TsPacket
  import opened PacketGenerator
  import opened DemuxSteps
  import opened DemuxModel
  import opened Chunking
  import opened Reachability
  import opened Synchronisation
  import opened Redelivery
  import opened EndToEnd
  import opened Grouping

  /** A generated stream with a block behind it that is not a packet. */
  function Broken(c: Config, n: nat): (fed: seq<Byte>)
    ensures |fed| == 188 * n + 188
  {
    Stream([], c, n) + seq(188, _ => 0)
  }

  lemma ZerosAreNoPacket(c: Config, n: nat)
    ensures !PacketAt(Broken(c, n), 188 * n)
  {
    hide Stream;
    if PacketAt(Broken(c, n), 188 * n) { SyncByteNeeded(Broken(c, n), 188 * n); }
  }

  lemma BlockOfBroken(c: Config, n: nat, i: nat)
    requires i < n
    ensures PacketAt(Broken(c, n), 188 * i) && ParsedAt(Broken(c, n), 188 * i) == GeneratedPacket(c, i)
  {
    hide Stream;
    hide PacketAt;
    hide ParsedAt;
    BlockOfStream([], c, n, i);
    PacketAtExtends(Stream([], c, n), seq(188, _ => 0), 188 * i);
    var none: seq<Byte> := [];
    assert |none| + 188 * i == 188 * i;
  }

  lemma {:induction false} BrokenIsGood(c: Config, n: nat, k: nat)
    requires k <= n
    ensures GoodBlocks(Broken(c, n), 188 * k) == n - k
    decreases n - k
  {
    hide *;
    OneBlock(Broken(c, n), 188 * k);
    if k < n {
      BlockOfBroken(c, n, k);
      BrokenIsGood(c, n, k + 1);
      assert 188 * k + 188 == 188 * (k + 1);
    } else {
      ZerosAreNoPacket(c, n);
    }
  }

  lemma PacketsOfBroken(c: Config, n: nat)
    ensures Packets(Broken(c, n), 0, n) == GeneratedPackets(c, n)
  {
    hide ParsedAt;
    hide Broken;
    hide GeneratedPacket;
    forall i | 0 <= i < n ensures ParsedAt(Broken(c, n), 188 * i) == GeneratedPacket(c, i) {
      BlockOfBroken(c, n, i);
    }
  }

  /** The search succeeds at once. */
  lemma BrokenIsFound(c: Config, n: nat)
    requires n >= 3 && NoFalseJump(Stream([], c, n), 0)
    ensures Admits(Broken(c, n), 0) && FirstSync(Broken(c, n)) == Some(0)
  {
    hide Stream;
    hide Trio;
    hide NoFalseJump;
    hide Admits;
    PartIsTrio([], c, n, Stream([], c, n));
    TrioAdmits(Stream([], c, n), 0);
    AdmitsExtends(Stream([], c, n), seq(188, _ => 0), 0);
  }

  /** What a first call does with a buffer whose packets end in a block that does not parse. */
  lemma FirstLoss(s: State, fed: seq<Byte>, n: nat)
    requires s.core.Consistent() && !s.synced && s.buffer == []
    requires FirstSync(fed) == Some(0) && GoodBlocks(fed, 0) == n && 188 * n + 188 <= |fed| <= MAX_BUFFER
    ensures var t := Fed(s, fed);
      && Loses(s, fed) && DeliveryStart(s, fed) == Some(0) && DeliveredBy(s, fed) == Packets(fed, 0, n)
      && Stuck(t, 0) && t.buffer == fed && t.core.packets == s.core.packets + n
  {
    assert [] + fed == fed;
    hide FirstSync;
    hide GoodBlocks;
    hide Packets;
    hide PacketSteps;
    hide Fed;
    hide DeliveryStart;
    hide DeliveredBy;
    hide Drained;
    hide Core.Consistent;
    FullCall(s, fed);
    DrainedStuck(s.(buffer := fed), 0, n);
    PacketsCounted(s.core, s.table, Packets(fed, 0, n));
  }

  /** The first call delivers the generated packets, loses synchronisation, and keeps everything. */
  lemma BrokenIsLost(c: Config, n: nat)
    requires n >= 3 && NoFalseJump(Stream([], c, n), 0) && 188 * n + 188 <= MAX_BUFFER
    ensures NEW_STATE.core.Consistent()
    ensures var fed, t := Broken(c, n), Fed(NEW_STATE, Broken(c, n));
      && Loses(NEW_STATE, fed) && DeliveryStart(NEW_STATE, fed) == Some(0)
      && DeliveredBy(NEW_STATE, fed) == GeneratedPackets(c, n)
      && Stuck(t, 0) && t.buffer == fed && GoodBlocks(fed, 0) == n && t.core.packets == n
  {
    hide *;
    NewState([]);
    NoPacketsYet();
    BrokenIsFound(c, n);
    assert 188 * 0 == 0;
    BrokenIsGood(c, n, 0);
    PacketsOfBroken(c, n);
    FirstLoss(NEW_STATE, Broken(c, n), n);
  }

  lemma NoPacketsYet()
    ensures NEW_STATE.core.packets == 0
  {}

  /** Every further call that fits, of any octets, delivers all of them again. */
  lemma LossRepeats(c: Config, n: nat, chunks: seq<seq<Byte>>)
    requires n >= 3 && NoFalseJump(Stream([], c, n), 0) && NoneEmpty(chunks)
    requires 188 * n + 188 + |Flatten(chunks)| <= MAX_BUFFER
    ensures NEW_STATE.core.Consistent()
    ensures FedAll(Fed(NEW_STATE, Broken(c, n)), chunks).core.packets == n + |chunks| * n
  {
    BrokenIsLost(c, n);
    hide *;
    StuckCalls(Fed(NEW_STATE, Broken(c, n)), 0, chunks, n);
  }

  lemma AcceptedTwice(c: Config, n: nat)
    requires !IsSystemPid(c.pid % 8192)
    ensures var ps := GeneratedPackets(c, n); Accepted(None, c.pid % 8192, Arrivals(ps + ps)) == ps + ps
  {
    hide GeneratedPacket;
    hide Contents;
    hide SequencePacket;
    hide TsPacket.Valid;
    var ps := GeneratedPackets(c, n);
    forall p: Packet | p in ps + ps ensures p.header.pid == c.pid % 8192 {
      var i :| 0 <= i < n && p == ps[i];
      GeneratedFields(c, i);
    }
    AllAccepted(ps + ps, None, c.pid % 8192);
  }

  lemma SecondCall(c: Config, n: nat, more: seq<Byte>)
    requires n >= 3 && NoFalseJump(Stream([], c, n), 0) && more != [] && 188 * n + 188 + |more| <= MAX_BUFFER
    ensures NEW_STATE.core.Consistent()
    ensures var ps := GeneratedPackets(c, n);
      Fed(Fed(NEW_STATE, Broken(c, n)), more).core == PacketSteps(NEW_STATE.core, None, ps + ps)
  {
    hide *;
    NewState([]);
    var ps, t := GeneratedPackets(c, n), Fed(NEW_STATE, Broken(c, n));
    BrokenIsLost(c, n);
    FeedingDelivers(NEW_STATE, Broken(c, n));
    StuckCall(t, 0, more);
    PacketsOfBroken(c, n);
    FeedingDelivers(t, more);
    PacketStepsAppend(NEW_STATE.core, None, ps, ps);
  }

  /** What the repeated packets carry is stored again. */
  lemma StoredTwice(c: Config, n: nat, more: seq<Byte>)
    requires n >= 3 && NoFalseJump(Stream([], c, n), 0) && more != [] && 188 * n + 188 + |more| <= MAX_BUFFER
    requires !IsSystemPid(c.pid % 8192)
    ensures NEW_STATE.core.Consistent()
    ensures var s, pid := Fed(Fed(NEW_STATE, Broken(c, n)), more).core.store, c.pid % 8192;
      var data := Repeated(Contents(c), n);
      && StoredData(s.streams.Of(pid)) + OpenData(s, pid) == data + data
      && StoredCount(s.streams.Of(pid)) + OpenCount(s, pid) == 2 * n
  {
    NothingYet();
    hide *;
    var ps := GeneratedPackets(c, n);
    NewState([]);
    SecondCall(c, n, more);
    AfterArrivals(NEW_STATE.core, None, [], ps + ps);
    assert [] + Arrivals(ps + ps) == Arrivals(ps + ps);
    AcceptedTwice(c, n);
    CarriedByGenerated(c, n);
    CarriedAppend(ps, ps);
    Conservation(None, c.pid % 8192, Arrivals(ps + ps));
  }

  const EXAMPLE := Config(0x100, 0, false, false, false, 0xAA)

  lemma ExampleConfig()
    ensures NoInnerSync(EXAMPLE) && 188 * 3 + 188 + 1 <= MAX_BUFFER && |Broken(EXAMPLE, 3)| == 752
  {
    hide Broken;
  }

  /** Three packets, a block of zeros, and one octet more: six packets are delivered, and some octets
      twice. */
  lemma DeliveredTwice()
    ensures NEW_STATE.core.Consistent()
    ensures var first := Broken(EXAMPLE, 3);
      && |first| == 752
      && FedAll(NEW_STATE, [first, [0]]).core.packets == 6
      && exists pos: int :: DeliversOctet([], first, pos) && DeliversOctet([] + [Feed(first)], [0], pos)
  {
    ExampleConfig();
    RunOfNothing();
    hide *;
    var first := Broken(EXAMPLE, 3);
    NoInnerSyncSuffices([], EXAMPLE, 3);
    var none: seq<Byte> := [];
    assert |none| == 0;
    BrokenIsLost(EXAMPLE, 3);
    OneOctet();
    LossRepeats(EXAMPLE, 3, [[0]]);
    TwoCalls(first, [0]);
    SearchedLossRedelivers([], first, [0]);
  }

  lemma RunOfNothing()
    ensures Run([]) == NEW_STATE && !NEW_STATE.synced
  {}

  lemma OneOctet()
    ensures NoneEmpty([[0]]) && Flatten<Byte>([[0]]) == [0]
  {
    assert Flatten<Byte>([[0]]) == [0] + Flatten([[0]][1..]);
  }

  lemma TwoCalls(a: seq<Byte>, b: seq<Byte>)
    ensures NEW_STATE.core.Consistent()
    ensures FedAll(NEW_STATE, [a, b]) == FedAll(Fed(NEW_STATE, a), [b])
  {
    NewState([]);
    assert [a, b][1..] == [b];
    hide Fed;
    hide Core.Consistent;
  }
}
