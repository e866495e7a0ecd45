/** How deliveries move through the octets fed, in runs without `clearAll`: no octet is delivered
    twice while synchronisation is never lost, and what an overflow drops is never delivered. */
module DeliveryOrder {
  import opened Bytes
  import opened TsPacket
  import opened DemuxSteps
  import opened DemuxModel
  import opened Chunking
  import opened Reachability
  import opened Redelivery

  predicate NoClear(ops: seq<Op>) {
    forall i | 0 <= i < |ops| :: !ops[i].ClearAll?
  }

  lemma BufferWithinFed(ops: seq<Op>)
    ensures 0 <= Next(ops) && |Run(ops).buffer| <= 18800 && (Run(ops).synced ==> |Run(ops).buffer| < 188)
  {
    BufferInvariant(ops);
    hide Run;
    hide FedSince;
  }

  lemma FedSinceOther(ops: seq<Op>, op: Op)
    ensures !op.Feed? && !op.ClearAll? ==> FedSince(ops + [op]) == FedSince(ops)
  {
    assert (ops + [op])[..|ops + [op]| - 1] == ops;
  }

  lemma OtherSteps(s: State, op: Op)
    requires s.core.Consistent()
    ensures !op.Feed? && !op.ClearAll? ==> Step(s, op).buffer == s.buffer
  {
    hide Fed;
    hide FinalizedAll;
    hide Core.Consistent;
  }

  /** The buffer starts further and further on in what has been fed. */
  lemma NextAdvances(ops: seq<Op>, op: Op)
    requires !op.ClearAll?
    ensures Next(ops) <= Next(ops + [op])
  {
    var s := Run(ops);
    RunSnoc(ops, op);
    BufferWithinFed(ops);
    if op.Feed? {
      FedSinceFeed(ops, op.chunk);
      FedBuffer(s, op.chunk);
    } else {
      FedSinceOther(ops, op);
      OtherSteps(s, op);
    }
    hide Run;
    hide Fed;
    hide FedSince;
    hide Flushed;
    hide Core.Consistent;
  }

  lemma {:induction false} NextAdvancesAll(ops: seq<Op>, later: seq<Op>)
    requires NoClear(later)
    ensures Next(ops) <= Next(ops + later)
    decreases |later|
  {
    hide Next;
    if later == [] {
      assert ops + later == ops;
    } else {
      var init, op := later[..|later| - 1], later[|later| - 1];
      NextAdvancesAll(ops, init);
      NextAdvances(ops + init, op);
      assert ops + init + [op] == ops + later;
    }
  }

  // ------------------------------------------------------------------------------------------
  // Overflow
  // ------------------------------------------------------------------------------------------

  /** The number of octets by which a call overflows the buffer. */
  ghost function Overflow(ops: seq<Op>, chunk: seq<Byte>): nat {
    var size := |Run(ops).buffer| + |chunk|;
    if size > 18800 then size - 18800 else 0
  }

  /** The position of the first octet that a call does not drop at once. */
  ghost function FirstKept(ops: seq<Op>, chunk: seq<Byte>): int {
    |FedSince(ops) + chunk| - |Clipped(Run(ops).buffer + chunk)|
  }

  /** Exactly the overflowing number of oldest octets is dropped; none exactly if all fit. */
  lemma OverflowDropsExactly(ops: seq<Op>, chunk: seq<Byte>)
    ensures FirstKept(ops, chunk) == Next(ops) + Overflow(ops, chunk)
    ensures FirstKept(ops, chunk) == Next(ops) <==> |Run(ops).buffer| + |chunk| <= 18800
  {
    hide Run;
    hide FedSince;
  }

  lemma StretchInside(s: State, chunk: seq<Byte>)
    ensures DeliveryStart(s, chunk).Some? && DeliveredBy(s, chunk) != [] ==>
      DeliveryStart(s, chunk).value + 188 * |DeliveredBy(s, chunk)| <= |Clipped(s.buffer + chunk)|
  {
    hide DeliveryStart;
    hide Clipped;
  }

  /** A call delivers octets that it keeps. */
  lemma DeliversKept(ops: seq<Op>, chunk: seq<Byte>, pos: int)
    requires DeliversOctet(ops, chunk, pos)
    ensures FirstKept(ops, chunk) <= pos < |FedSince(ops) + chunk|
  {
    StretchInside(Run(ops), chunk);
    hide Run;
    hide FedSince;
    hide DeliveryStart;
    hide DeliveredBy;
    hide Clipped;
  }

  lemma DeliversFromNext(ops: seq<Op>, chunk: seq<Byte>, pos: int)
    requires DeliversOctet(ops, chunk, pos)
    ensures Next(ops) <= pos
  {
    hide *;
    DeliversKept(ops, chunk, pos);
    OverflowDropsExactly(ops, chunk);
  }

  /** What lies before the buffer is never delivered again, by whatever calls follow. */
  lemma PassedForGood(ops: seq<Op>, later: seq<Op>, chunk: seq<Byte>, pos: int)
    requires NoClear(later) && pos < Next(ops)
    ensures !DeliversOctet(ops + later, chunk, pos)
  {
    hide *;
    NextAdvancesAll(ops, later);
    if DeliversOctet(ops + later, chunk, pos) { DeliversFromNext(ops + later, chunk, pos); }
  }

  lemma KeptIsNext(ops: seq<Op>, chunk: seq<Byte>)
    requires chunk != []
    ensures FirstKept(ops, chunk) <= Next(ops + [Feed(chunk)])
  {
    var s := Run(ops);
    RunSnoc(ops, Feed(chunk));
    FedSinceFeed(ops, chunk);
    FedIs(s, chunk);
    ProcessedBuffer(s.(buffer := Clipped(s.buffer + chunk)));
    hide Run;
    hide Fed;
    hide Processed;
    hide FedSince;
    hide Clipped;
    hide Core.Consistent;
  }

  /** The octets an overflow drops are delivered neither by that call nor by any later one. */
  lemma DroppedForGood(ops: seq<Op>, chunk: seq<Byte>, later: seq<Op>, more: seq<Byte>, pos: int)
    requires NoClear(later) && Next(ops) <= pos < Next(ops) + Overflow(ops, chunk)
    ensures !DeliversOctet(ops, chunk, pos) && !DeliversOctet(ops + [Feed(chunk)] + later, more, pos)
  {
    OverflowNeedsData(ops, chunk);
    hide *;
    OverflowDropsExactly(ops, chunk);
    if DeliversOctet(ops, chunk, pos) { DeliversKept(ops, chunk, pos); }
    KeptIsNext(ops, chunk);
    PassedForGood(ops + [Feed(chunk)], later, more, pos);
  }

  lemma OverflowNeedsData(ops: seq<Op>, chunk: seq<Byte>)
    ensures Overflow(ops, chunk) > 0 ==> chunk != []
  {
    BufferWithinFed(ops);
    hide Run;
    hide FedSince;
  }

  /** While synchronised, a call delivers from the next block on, moved by the overflow: the stride
      of 188 octets goes on exactly when whole blocks are dropped. */
  lemma OverflowKeepsStrideExactly(ops: seq<Op>, chunk: seq<Byte>)
    requires Run(ops).synced && chunk != []
    ensures DeliveryStart(Run(ops), chunk) == Some(0)
    ensures var at := DeliveryPosition(Run(ops), chunk, |FedSince(ops) + chunk|);
      && at == Next(ops) + Overflow(ops, chunk)
      && ((at - Next(ops)) % 188 == 0 <==> Overflow(ops, chunk) % 188 == 0)
  {
    OverflowDropsExactly(ops, chunk);
    hide Run;
    hide FedSince;
    hide Overflow;
    hide Clipped;
    hide FirstSync;
  }

  // ------------------------------------------------------------------------------------------
  // At most once
  // ------------------------------------------------------------------------------------------

  /** No call loses synchronisation. */
  ghost predicate NeverLoses(ops: seq<Op>) {
    forall k | 0 <= k < |ops| && ops[k].Feed? :: !Loses(Run(ops[..k]), ops[k].chunk)
  }

  lemma DrainedDrops(s: State, off: nat)
    requires s.core.Consistent() && off <= |s.buffer| && Drained(s, off).synced
    ensures |Drained(s, off).buffer| + off + 188 * GoodBlocks(s.buffer, off) == |s.buffer|
  {
    hide GoodBlocks;
    hide Packets;
    hide PacketSteps;
    hide Core.Consistent;
  }

  /** A call that ends synchronised drops what it has delivered. */
  lemma DeliveredAreDropped(s: State, chunk: seq<Byte>)
    requires s.core.Consistent() && DeliveryStart(s, chunk).Some? && Fed(s, chunk).synced
    ensures |Fed(s, chunk).buffer| + DeliveryStart(s, chunk).value + 188 * |DeliveredBy(s, chunk)|
      == |Clipped(s.buffer + chunk)|
  {
    hide FirstFrom;
    hide Clipped;
    hide GoodBlocks;
    hide Drained;
    hide Core.Consistent;
    DrainedDrops(s.(buffer := Clipped(s.buffer + chunk)), DeliveryStart(s, chunk).value);
  }

  /** Without a loss, what a call delivers lies before the buffer that it leaves. */
  lemma DeliveredIsPassed(ops: seq<Op>, chunk: seq<Byte>, pos: int)
    requires !Loses(Run(ops), chunk) && DeliversOctet(ops, chunk, pos)
    ensures pos < Next(ops + [Feed(chunk)])
  {
    var s := Run(ops);
    RunSnoc(ops, Feed(chunk));
    FedSinceFeed(ops, chunk);
    hide Run;
    hide Fed;
    hide FedSince;
    hide DeliveryStart;
    hide DeliveredBy;
    hide Clipped;
    hide Core.Consistent;
    DeliveredAreDropped(s, chunk);
  }

  lemma SplitRun(ops: seq<Op>, k: nat)
    requires NoClear(ops) && k < |ops| && ops[k].Feed?
    ensures ops == ops[..k] + [Feed(ops[k].chunk)] + ops[k + 1..] && NoClear(ops[k + 1..])
  {}

  lemma NotLost(ops: seq<Op>, k: nat)
    requires NeverLoses(ops) && k < |ops| && ops[k].Feed?
    ensures !Loses(Run(ops[..k]), ops[k].chunk)
  {
    hide Loses;
    hide Run;
  }

  /** In a run that never loses synchronisation no octet is delivered by two calls, however the
      buffer overflows. */
  lemma DeliveredOnce(ops: seq<Op>, chunk: seq<Byte>, k: nat, pos: int)
    requires NoClear(ops) && NeverLoses(ops) && k < |ops| && ops[k].Feed?
    requires DeliversOctet(ops[..k], ops[k].chunk, pos)
    ensures !DeliversOctet(ops, chunk, pos)
  {
    hide *;
    SplitRun(ops, k);
    NotLost(ops, k);
    DeliveredIsPassed(ops[..k], ops[k].chunk, pos);
    PassedForGood(ops[..k] + [Feed(ops[k].chunk)], ops[k + 1..], chunk, pos);
  }

  // ------------------------------------------------------------------------------------------
  // Exactly when not
  // ------------------------------------------------------------------------------------------

  predicate FeedPair(ops: seq<Op>, k: nat, j: nat) {
    k < j < |ops| && ops[k].Feed? && ops[j].Feed?
  }

  /** Some octet is delivered by both calls of a run. */
  ghost predicate Twice(ops: seq<Op>, k: nat, j: nat)
    requires FeedPair(ops, k, j)
  {
    exists pos: int :: DeliversOctet(ops[..k], ops[k].chunk, pos) && DeliversOctet(ops[..j], ops[j].chunk, pos)
  }

  ghost predicate AtMostOnce(ops: seq<Op>) {
    forall k: nat, j: nat | FeedPair(ops, k, j) :: !Twice(ops, k, j)
  }

  /** A call that lost synchronisation, and a later one that finds blocks it delivered. */
  ghost predicate FindsLost(ops: seq<Op>, k: nat, j: nat)
    requires FeedPair(ops, k, j)
  {
    Loses(Run(ops[..k]), ops[k].chunk) && Meets(ops[..k], ops[k].chunk, ops[..j], ops[j].chunk)
  }

  lemma PrefixSplit(ops: seq<Op>, k: nat, j: nat)
    requires NoClear(ops) && FeedPair(ops, k, j)
    ensures ops[..j] == ops[..k] + [Feed(ops[k].chunk)] + ops[k + 1..j] && NoClear(ops[k + 1..j])
  {}

  /** Two calls of a run without clears deliver some octet both exactly if the first loses
      synchronisation and the second finds blocks that overlap those it delivered. */
  lemma TwiceExactly(ops: seq<Op>, k: nat, j: nat)
    requires NoClear(ops) && FeedPair(ops, k, j)
    ensures Twice(ops, k, j) <==> FindsLost(ops, k, j)
  {
    BothDeliverExactly(ops[..k], ops[k].chunk, ops[..j], ops[j].chunk);
    PrefixSplit(ops, k, j);
    hide Run;
    hide Loses;
    hide Meets;
    hide NoClear;
    hide DeliversOctet;
    if !Loses(Run(ops[..k]), ops[k].chunk) {
      forall pos: int | DeliversOctet(ops[..k], ops[k].chunk, pos)
        ensures !DeliversOctet(ops[..j], ops[j].chunk, pos)
      {
        DeliveredIsPassed(ops[..k], ops[k].chunk, pos);
        PassedForGood(ops[..k] + [Feed(ops[k].chunk)], ops[k + 1..j], ops[j].chunk, pos);
      }
    }
  }

  /** A run without clears delivers every octet at most once exactly if no call finds blocks that an
      earlier call delivered before losing synchronisation. */
  lemma AtMostOnceExactly(ops: seq<Op>)
    requires NoClear(ops)
    ensures AtMostOnce(ops) <==> forall k: nat, j: nat | FeedPair(ops, k, j) :: !FindsLost(ops, k, j)
  {
    hide FindsLost;
    hide Twice;
    hide FeedPair;
    hide NoClear;
    forall k: nat, j: nat | FeedPair(ops, k, j) ensures Twice(ops, k, j) <==> FindsLost(ops, k, j) {
      TwiceExactly(ops, k, j);
    }
  }
}
