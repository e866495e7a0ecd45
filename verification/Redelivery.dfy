/** Delivery after synchronisation is lost and after the buffer overflows. A loss keeps the whole
    buffer, so blocks that were delivered may be found and delivered again; an overflow drops octets
    for good. */
module Redelivery {
  import opened Bytes
  import opened TsPacket
  import opened DemuxSteps
  import opened DemuxModel
  import opened Chunking
  import opened Reachability
  import opened Synchronisation

  // ------------------------------------------------------------------------------------------
  // The search in a longer buffer
  // ------------------------------------------------------------------------------------------

  lemma PacketAtExtends(buf: seq<Byte>, more: seq<Byte>, pos: nat)
    requires pos + 188 <= |buf|
    ensures PacketAt(buf + more, pos) == PacketAt(buf, pos) && ParsedAt(buf + more, pos) == ParsedAt(buf, pos)
  {
    assert BlockAt(buf + more, pos) == BlockAt(buf, pos);
    hide Parse;
    hide TsPacket.Valid;
  }

  lemma FollowsExtends(buf: seq<Byte>, more: seq<Byte>, prev: nat, pos: nat)
    requires prev + 188 <= |buf| && pos + 188 <= |buf|
    ensures Follows(buf + more, prev, pos) == Follows(buf, prev, pos)
  {
    hide ParsedAt;
    hide PacketAt;
    hide BelongsTo;
    PacketAtExtends(buf, more, prev);
    PacketAtExtends(buf, more, pos);
    assert PacketAt(buf, pos) ==> pos + 188 <= |buf|;
  }

  /** A match inside the shorter buffer is a match in the longer one, and the other way round. */
  lemma NextMatchExtends(buf: seq<Byte>, more: seq<Byte>, prev: nat, from: nat, limit: nat, pos: nat)
    requires prev + 188 <= |buf| && pos + 188 <= limit && pos + 188 <= |buf|
    ensures NextMatch(buf + more, prev, from, limit, pos) <==> NextMatch(buf, prev, from, limit, pos)
  {
    hide Follows;
    forall r: nat | r <= pos ensures Follows(buf + more, prev, r) == Follows(buf, prev, r) {
      FollowsExtends(buf, more, prev, r);
    }
  }

  lemma NextMatchLimit(buf: seq<Byte>, prev: nat, from: nat, limit: nat, other: nat, pos: nat)
    requires prev + 188 <= |buf| && pos + 188 <= limit && pos + 188 <= other
    ensures NextMatch(buf, prev, from, limit, pos) <==> NextMatch(buf, prev, from, other, pos)
  {
    hide NoneFollows;
    hide Follows;
  }

  lemma ChainBounds(buf: seq<Byte>, start: nat, p1: nat, p2: nat)
    requires Chain(buf, start, p1, p2)
    ensures p1 + 188 <= p2 && p2 + 188 <= SearchLimit(buf, start) <= |buf| && start < p1
    ensures start + 188 <= |buf|
  {
    hide NoneFollows;
    hide Follows;
    hide PacketAt;
    assert PacketAt(buf, start) && start + 188 <= |buf| by { NoBlock(buf, start); }
  }

  lemma NoBlock(buf: seq<Byte>, pos: nat)
    ensures PacketAt(buf, pos) ==> pos + 188 <= |buf|
  {}

  /** Whether three packets are a chain does not depend on what follows them. */
  lemma ChainExtends(buf: seq<Byte>, more: seq<Byte>, start: nat, p1: nat, p2: nat)
    requires start < p1 && p1 + 188 <= p2 && p2 + 188 <= SearchLimit(buf, start)
    ensures Chain(buf + more, start, p1, p2) <==> Chain(buf, start, p1, p2)
  {
    hide NextMatch;
    hide PacketAt;
    var short, long := SearchLimit(buf, start), SearchLimit(buf + more, start);
    PacketAtExtends(buf, more, start);
    NextMatchExtends(buf, more, start, start + 1, long, p1);
    NextMatchExtends(buf, more, p1, p1 + 188, long, p2);
    NextMatchLimit(buf, start, start + 1, long, short, p1);
    NextMatchLimit(buf, p1, p1 + 188, long, short, p2);
  }

  /** A start that succeeds goes on to succeed as the buffer grows. */
  lemma AdmitsExtends(buf: seq<Byte>, more: seq<Byte>, start: nat)
    requires Admits(buf, start)
    ensures Admits(buf + more, start)
  {
    hide Chain;
    hide SearchLimit;
    var p1: nat, p2: nat :| Chain(buf, start, p1, p2);
    ChainBounds(buf, start, p1, p2);
    ChainExtends(buf, more, start, p1, p2);
  }

  /** A start whose whole search span is in the buffer succeeds now or never. */
  lemma AdmitsSettled(buf: seq<Byte>, more: seq<Byte>, start: nat)
    requires start + SEARCH_SPAN <= |buf|
    ensures Admits(buf + more, start) <==> Admits(buf, start)
  {
    if Admits(buf, start) { AdmitsExtends(buf, more, start); }
    assert SearchLimit(buf + more, start) == SearchLimit(buf, start);
    hide Chain;
    hide SearchLimit;
    if Admits(buf + more, start) {
      var p1: nat, p2: nat :| Chain(buf + more, start, p1, p2);
      ChainBounds(buf + more, start, p1, p2);
      ChainExtends(buf, more, start, p1, p2);
    }
  }

  /** As the buffer grows the offset found never grows. */
  lemma FirstSyncExtends(buf: seq<Byte>, more: seq<Byte>)
    requires FirstSync(buf).Some?
    ensures var a, b := FirstSync(buf).value, FirstSync(buf + more);
      && b.Some? && b.value <= a
      && (a == 0 || a + SEARCH_SPAN <= |buf| + 1 ==> b.value == a)
  {
    hide Admits;
    var a := FirstSync(buf).value;
    AdmitsExtends(buf, more, a);
    var b := FirstSync(buf + more);
    if b.value < a && a + SEARCH_SPAN <= |buf| + 1 { AdmitsSettled(buf, more, b.value); }
  }

  /** Blocks up to one that does not parse stay as they are. */
  lemma {:induction false} GoodBlocksExtends(buf: seq<Byte>, more: seq<Byte>, off: nat)
    requires off + 188 * GoodBlocks(buf, off) + 188 <= |buf|
    ensures GoodBlocks(buf + more, off) == GoodBlocks(buf, off)
    decreases |buf| - off
  {
    PacketAtExtends(buf, more, off);
    hide PacketAt;
    if PacketAt(buf, off) { GoodBlocksExtends(buf, more, off + 188); }
  }

  lemma PacketsExtends(buf: seq<Byte>, more: seq<Byte>, off: nat, n: nat)
    requires off + 188 * n <= |buf|
    ensures Packets(buf + more, off, n) == Packets(buf, off, n)
  {
    hide ParsedAt;
    forall i | 0 <= i < n ensures ParsedAt(buf + more, off + 188 * i) == ParsedAt(buf, off + 188 * i) {
      PacketAtExtends(buf, more, off + 188 * i);
    }
  }

  // ------------------------------------------------------------------------------------------
  // Losing synchronisation
  // ------------------------------------------------------------------------------------------

  /** The call delivers from some offset on, meets a block that does not parse, and ends without
      synchronisation. */
  ghost predicate Loses(s: State, chunk: seq<Byte>)
    requires s.core.Consistent()
  {
    DeliveryStart(s, chunk).Some? && !Fed(s, chunk).synced
  }

  /** Such a call keeps all octets, those of the blocks delivered and of the block that failed among
      them. */
  lemma LossKeeps(s: State, chunk: seq<Byte>)
    requires s.core.Consistent() && Loses(s, chunk)
    ensures var kept, a, n := Fed(s, chunk).buffer, DeliveryStart(s, chunk).value, |DeliveredBy(s, chunk)|;
      && kept == Clipped(s.buffer + chunk) && a + 188 * n + 188 <= |kept|
      && n == GoodBlocks(kept, a) && DeliveredBy(s, chunk) == Packets(kept, a, n)
      && !PacketAt(kept, a + 188 * n)
      && (if s.synced then a == 0 else FirstSync(kept) == Some(a))
  {
    hide FirstSync;
    hide Clipped;
    hide PacketSteps;
    hide PacketAt;
    hide Core.Consistent;
    var kept, a := Clipped(s.buffer + chunk), DeliveryStart(s, chunk).value;
    GoodBlocksEnd(kept, a);
    hide GoodBlocks;
  }

  lemma {:induction false} GoodBlocksEnd(buf: seq<Byte>, off: nat)
    ensures !PacketAt(buf, off + 188 * GoodBlocks(buf, off))
    decreases |buf| - off
  {
    NoBlock(buf, off);
    hide PacketAt;
    if PacketAt(buf, off) { GoodBlocksEnd(buf, off + 188); }
  }

  /** The state finds the offset a, and a block behind it does not parse, whatever is fed next. */
  ghost predicate Stuck(s: State, a: nat) {
    && !s.synced && FirstSync(s.buffer) == Some(a)
    && (a == 0 || a + SEARCH_SPAN <= |s.buffer| + 1)
    && a + 188 * GoodBlocks(s.buffer, a) + 188 <= |s.buffer|
  }

  /** A loss at an offset that the search finds again. */
  lemma LossSticks(s: State, chunk: seq<Byte>)
    requires s.core.Consistent() && Loses(s, chunk)
    requires var kept, a := Fed(s, chunk).buffer, DeliveryStart(s, chunk).value;
      (s.synced ==> Admits(kept, 0)) && (a == 0 || a + SEARCH_SPAN <= |kept| + 1)
    ensures Stuck(Fed(s, chunk), DeliveryStart(s, chunk).value)
  {
    hide Fed;
    hide DeliveryStart;
    hide DeliveredBy;
    hide Core.Consistent;
    LossKeeps(s, chunk);
    hide Admits;
    hide GoodBlocks;
  }

  lemma FullCall(s: State, more: seq<Byte>)
    requires s.core.Consistent() && !s.synced && more != [] && |s.buffer| + |more| <= MAX_BUFFER
    ensures DeliveryStart(s, more) == FirstSync(s.buffer + more)
    ensures var buf, a := s.buffer + more, FirstSync(s.buffer + more);
      a.Some? ==>
        && DeliveredBy(s, more) == Packets(buf, a.value, GoodBlocks(buf, a.value))
        && Fed(s, more) == Drained(s.(buffer := buf), a.value)
  {
    hide FirstFrom;
    hide GoodBlocks;
    hide Packets;
    hide Drained;
    hide Core.Consistent;
  }

  lemma DrainedStuck(s: State, a: nat, n: nat)
    requires s.core.Consistent() && GoodBlocks(s.buffer, a) == n && a + 188 * n + 188 <= |s.buffer|
    ensures Drained(s, a) == s.(core := PacketSteps(s.core, s.table, Packets(s.buffer, a, n)), synced := false)
  {
    hide GoodBlocks;
    hide Packets;
    hide PacketSteps;
    hide Core.Consistent;
  }

  /** A call that fits delivers the same packets as before, and leaves a state of the same kind. */
  lemma StuckCall(s: State, a: nat, more: seq<Byte>)
    requires s.core.Consistent() && Stuck(s, a) && more != [] && |s.buffer| + |more| <= MAX_BUFFER
    ensures var n, t := GoodBlocks(s.buffer, a), Fed(s, more);
      && DeliveryStart(s, more) == Some(a) && DeliveredBy(s, more) == Packets(s.buffer, a, n)
      && Stuck(t, a) && t.buffer == s.buffer + more && t.table == s.table && GoodBlocks(t.buffer, a) == n
      && t.core == PacketSteps(s.core, s.table, Packets(s.buffer, a, n))
  {
    hide FirstSync;
    hide GoodBlocks;
    hide Packets;
    hide Fed;
    hide DeliveryStart;
    hide DeliveredBy;
    hide Drained;
    hide PacketSteps;
    hide Core.Consistent;
    var n, buf := GoodBlocks(s.buffer, a), s.buffer + more;
    FirstSyncExtends(s.buffer, more);
    GoodBlocksExtends(s.buffer, more, a);
    PacketsExtends(s.buffer, more, a, n);
    FullCall(s, more);
    DrainedStuck(s.(buffer := buf), a, n);
  }

  lemma {:induction false} FedAllSnoc(s: State, chunks: seq<seq<Byte>>, last: seq<Byte>)
    requires s.core.Consistent()
    ensures FedAll(s, chunks + [last]) == Fed(FedAll(s, chunks), last)
    decreases |chunks|
  {
    hide Fed;
    hide Core.Consistent;
    if chunks == [] {
      assert [] + [last] == [last] && [last][1..] == [];
    } else {
      assert (chunks + [last])[1..] == chunks[1..] + [last] && (chunks + [last])[0] == chunks[0];
      FedAllSnoc(Fed(s, chunks[0]), chunks[1..], last);
    }
  }

  lemma StuckEnd(s: State, a: nat)
    requires Stuck(s, a)
    ensures a + 188 * GoodBlocks(s.buffer, a) <= |s.buffer|
  {}

  predicate NoneEmpty(chunks: seq<seq<Byte>>) {
    forall c | c in chunks :: c != []
  }

  lemma LastChunk(chunks: seq<seq<Byte>>)
    requires chunks != [] && NoneEmpty(chunks)
    ensures var init, last := chunks[..|chunks| - 1], chunks[|chunks| - 1];
      && chunks == init + [last] && NoneEmpty(init) && last != [] && Flatten(chunks) == Flatten(init) + last
  {
    var init, last := chunks[..|chunks| - 1], chunks[|chunks| - 1];
    assert chunks == init + [last] && last in chunks;
    assert forall c | c in init :: c in chunks;
    FlattenSnoc(init, last);
  }

  lemma OneMore(s: State, a: nat, more: seq<Byte>, n: nat)
    requires s.core.Consistent() && Stuck(s, a) && more != [] && |s.buffer| + |more| <= MAX_BUFFER
    requires GoodBlocks(s.buffer, a) == n
    ensures var t := Fed(s, more);
      && Stuck(t, a) && t.buffer == s.buffer + more && GoodBlocks(t.buffer, a) == n
      && t.core.packets == s.core.packets + n
  {
    hide Stuck;
    hide GoodBlocks;
    hide Fed;
    hide Packets;
    hide PacketSteps;
    hide Core.Consistent;
    StuckEnd(s, a);
    StuckCall(s, a, more);
    PacketsCounted(s.core, s.table, Packets(s.buffer, a, n));
  }

  lemma NoCalls(s: State)
    requires s.core.Consistent()
    ensures FedAll(s, []) == s && Flatten<Byte>([]) == []
  {}

  lemma OneMoreTime(k: nat, n: nat)
    ensures (k + 1) * n == k * n + n
  {}

  /** From there on, until the buffer overflows, every call finds the same offset and delivers the
      same number of packets once more. */
  lemma {:induction false} StuckCalls(s: State, a: nat, chunks: seq<seq<Byte>>, n: nat)
    requires s.core.Consistent() && Stuck(s, a) && GoodBlocks(s.buffer, a) == n
    requires |s.buffer| + |Flatten(chunks)| <= MAX_BUFFER && NoneEmpty(chunks)
    ensures var t := FedAll(s, chunks);
      && Stuck(t, a) && t.buffer == s.buffer + Flatten(chunks) && GoodBlocks(t.buffer, a) == n
      && t.core.packets == s.core.packets + |chunks| * n
    decreases |chunks|
  {
    hide *;
    if chunks == [] {
      NoCalls(s);
      assert s.buffer + [] == s.buffer;
    } else {
      var init, last := chunks[..|chunks| - 1], chunks[|chunks| - 1];
      LastChunk(chunks);
      FedAllSnoc(s, init, last);
      StuckCalls(s, a, init, n);
      OneMore(FedAll(s, init), a, last, n);
      OneMoreTime(|init|, n);
      assert s.buffer + Flatten(init) + last == s.buffer + (Flatten(init) + last);
    }
  }

  /** And they are the same packets. */
  lemma StuckRepeats(s: State, a: nat, chunks: seq<seq<Byte>>, more: seq<Byte>)
    requires s.core.Consistent() && Stuck(s, a) && NoneEmpty(chunks) && more != []
    requires |s.buffer| + |Flatten(chunks)| + |more| <= MAX_BUFFER
    ensures a + 188 * GoodBlocks(s.buffer, a) <= |s.buffer|
    ensures DeliveryStart(FedAll(s, chunks), more) == Some(a)
    ensures DeliveredBy(FedAll(s, chunks), more) == Packets(s.buffer, a, GoodBlocks(s.buffer, a))
  {
    hide Stuck;
    hide GoodBlocks;
    hide FedAll;
    hide Flatten;
    hide DeliveredBy;
    hide DeliveryStart;
    hide Packets;
    hide Core.Consistent;
    StuckEnd(s, a);
    StuckCalls(s, a, chunks, GoodBlocks(s.buffer, a));
    StuckCall(FedAll(s, chunks), a, more);
    PacketsExtends(s.buffer, Flatten(chunks), a, GoodBlocks(s.buffer, a));
  }

  // ------------------------------------------------------------------------------------------
  // Octets delivered twice
  // ------------------------------------------------------------------------------------------

  /** A position among n blocks from a on. */
  predicate In(pos: int, a: int, n: nat) {
    a <= pos < a + 188 * n
  }

  /** The next call delivers the octet at a position of what has been fed. */
  ghost predicate DeliversOctet(ops: seq<Op>, chunk: seq<Byte>, pos: int) {
    var s := Run(ops);
    DeliveryStart(s, chunk).Some? &&
    In(pos, DeliveryPosition(s, chunk, |FedSince(ops) + chunk|), |DeliveredBy(s, chunk)|)
  }

  lemma OverlapMeans(a: int, n: nat, b: int, m: nat)
    ensures (exists pos: int :: In(pos, a, n) && In(pos, b, m))
      <==> a < b + 188 * m && b < a + 188 * n && n > 0 && m > 0
  {
    if a < b + 188 * m && b < a + 188 * n && n > 0 && m > 0 {
      var pos := if a < b then b else a;
      assert In(pos, a, n) && In(pos, b, m);
    }
  }

  /** A call delivers one stretch. */
  lemma StretchIs(ops: seq<Op>, chunk: seq<Byte>, at: int, n: nat)
    requires DeliveryStart(Run(ops), chunk).Some? && n == |DeliveredBy(Run(ops), chunk)|
    requires at == DeliveryPosition(Run(ops), chunk, |FedSince(ops) + chunk|)
    ensures forall pos: int :: DeliversOctet(ops, chunk, pos) <==> In(pos, at, n)
  {
    hide Run;
    hide DeliveryStart;
    hide DeliveryPosition;
    hide DeliveredBy;
    hide FedSince;
    hide In;
  }

  lemma NoStretch(ops: seq<Op>, chunk: seq<Byte>)
    requires DeliveryStart(Run(ops), chunk).None?
    ensures forall pos: int :: !DeliversOctet(ops, chunk, pos)
  {
    hide Run;
    hide DeliveryStart;
  }

  lemma KeptOfRun(ops: seq<Op>, chunk: seq<Byte>)
    requires Loses(Run(ops), chunk)
    ensures var t := Run(ops + [Feed(chunk)]);
      && t == Fed(Run(ops), chunk) && !t.synced && t.buffer == Clipped(Run(ops).buffer + chunk)
      && FedSince(ops + [Feed(chunk)]) == FedSince(ops) + chunk
  {
    RunSnoc(ops, Feed(chunk));
    FedSinceFeed(ops, chunk);
    LossKeeps(Run(ops), chunk);
    hide Run;
    hide Fed;
    hide DeliveryStart;
    hide DeliveredBy;
    hide FedSince;
  }

  /** The number of octets that an overflow drops. */
  function Dropped(s: State, more: seq<Byte>): nat {
    |s.buffer + more| - |Clipped(s.buffer + more)|
  }

  lemma GoodStart(buf: seq<Byte>)
    requires FirstSync(buf).Some?
    ensures GoodBlocks(buf, FirstSync(buf).value) > 0
  {
    hide PacketAt;
    var a := FirstSync(buf).value;
    var p1: nat, p2: nat :| Chain(buf, a, p1, p2);
  }

  /** Where a call delivers from, as a position of what has been fed, and how much. */
  lemma DeliversFrom(ops: seq<Op>, chunk: seq<Byte>)
    requires DeliveryStart(Run(ops), chunk).Some?
    ensures var s, start := Run(ops), DeliveryStart(Run(ops), chunk).value;
      && |DeliveredBy(s, chunk)| == GoodBlocks(Clipped(s.buffer + chunk), start)
      && DeliveryPosition(s, chunk, |FedSince(ops) + chunk|) == Next(ops) + Dropped(s, chunk) + start
  {
    StartInside(Run(ops), chunk);
    hide Run;
    hide FedSince;
    hide DeliveryStart;
    hide GoodBlocks;
    hide Clipped;
  }

  lemma StartInside(s: State, chunk: seq<Byte>)
    requires DeliveryStart(s, chunk).Some?
    ensures DeliveryStart(s, chunk).value <= |Clipped(s.buffer + chunk)|
  {
    hide FirstFrom;
    hide Clipped;
  }

  /** Two calls find blocks that overlap: what each does is decided by its buffer, the data, and whether
      synchronisation holds. */
  ghost predicate Meets(ops: seq<Op>, chunk: seq<Byte>, ops1: seq<Op>, more: seq<Byte>) {
    var s, t := Run(ops), Run(ops1);
    var from, to := DeliveryStart(s, chunk), DeliveryStart(t, more);
    && from.Some? && to.Some?
    && var n, m := GoodBlocks(Clipped(s.buffer + chunk), from.value), GoodBlocks(Clipped(t.buffer + more), to.value);
       var a, b := Next(ops) + Dropped(s, chunk) + from.value, Next(ops1) + Dropped(t, more) + to.value;
       a < b + 188 * m && b < a + 188 * n && n > 0 && m > 0
  }

  /** Two calls, however far apart, deliver some octet both exactly if they find blocks that overlap. */
  lemma BothDeliverExactly(ops: seq<Op>, chunk: seq<Byte>, ops1: seq<Op>, more: seq<Byte>)
    ensures (exists pos: int :: DeliversOctet(ops, chunk, pos) && DeliversOctet(ops1, more, pos))
      <==> Meets(ops, chunk, ops1, more)
  {
    var s, t := Run(ops), Run(ops1);
    hide Run;
    hide FedSince;
    hide DeliveryStart;
    hide GoodBlocks;
    hide DeliveryPosition;
    hide DeliveredBy;
    hide DeliversOctet;
    hide Next;
    hide Dropped;
    hide Clipped;
    var from, to := DeliveryStart(s, chunk), DeliveryStart(t, more);
    if from.None? {
      NoOverlap(ops1, more, ops, chunk);
    } else if to.None? {
      NoOverlap(ops, chunk, ops1, more);
    } else {
      DeliversFrom(ops, chunk);
      DeliversFrom(ops1, more);
      TwoOverlap(ops, chunk, ops1, more, Next(ops) + Dropped(s, chunk) + from.value, |DeliveredBy(s, chunk)|,
                 Next(ops1) + Dropped(t, more) + to.value, |DeliveredBy(t, more)|);
    }
  }

  /** The kept buffer starts where the call that lost synchronisation searched from. */
  lemma LossBase(ops: seq<Op>, chunk: seq<Byte>)
    requires Loses(Run(ops), chunk)
    ensures Next(ops + [Feed(chunk)]) == Next(ops) + Dropped(Run(ops), chunk)
  {
    KeptOfRun(ops, chunk);
    hide Run;
    hide FedSince;
    hide Clipped;
  }

  lemma UnsynchronisedStart(t: State, more: seq<Byte>)
    requires !t.synced && more != []
    ensures DeliveryStart(t, more) == FirstSync(Clipped(t.buffer + more))
  {
    hide FirstSync;
    hide Clipped;
  }

  lemma MeetsAfterLoss(ops: seq<Op>, chunk: seq<Byte>, more: seq<Byte>)
    requires Loses(Run(ops), chunk) && more != []
    ensures DeliveryStart(Run(ops), chunk).Some?
    ensures var s, t := Run(ops), Fed(Run(ops), chunk);
      var a, n, buf := DeliveryStart(s, chunk).value, |DeliveredBy(s, chunk)|, Clipped(t.buffer + more);
      var start, moved := FirstSync(buf), Dropped(t, more);
      Meets(ops, chunk, ops + [Feed(chunk)], more)
      <==> start.Some? && moved + start.value < a + 188 * n
           && a < moved + start.value + 188 * GoodBlocks(buf, start.value)
  {
    var s, t := Run(ops), Fed(Run(ops), chunk);
    KeptOfRun(ops, chunk);
    LossBase(ops, chunk);
    LossCounts(s, chunk);
    DeliversFrom(ops, chunk);
    UnsynchronisedStart(t, more);
    if FirstSync(Clipped(t.buffer + more)).Some? { GoodStart(Clipped(t.buffer + more)); }
    hide Run;
    hide Fed;
    hide FedSince;
    hide DeliveryStart;
    hide GoodBlocks;
    hide DeliveryPosition;
    hide DeliveredBy;
    hide Loses;
    hide Next;
    hide Dropped;
    hide Clipped;
    hide FirstSync;
  }

  /** In particular, after a call that lost synchronisation at offset a of what it kept, with n packets
      delivered, the next call delivers octets again exactly when the search then finds an offset below
      a + 188 * n whose blocks reach past a; offsets are moved by what an overflow drops. */
  lemma RedeliversExactly(ops: seq<Op>, chunk: seq<Byte>, more: seq<Byte>)
    requires Loses(Run(ops), chunk) && more != []
    ensures var s, t := Run(ops), Fed(Run(ops), chunk);
      var a, n, buf := DeliveryStart(s, chunk).value, |DeliveredBy(s, chunk)|, Clipped(t.buffer + more);
      var start, moved := FirstSync(buf), Dropped(t, more);
      (exists pos: int :: DeliversOctet(ops, chunk, pos) && DeliversOctet(ops + [Feed(chunk)], more, pos))
      <==> start.Some? && moved + start.value < a + 188 * n
           && a < moved + start.value + 188 * GoodBlocks(buf, start.value)
  {
    hide *;
    BothDeliverExactly(ops, chunk, ops + [Feed(chunk)], more);
    MeetsAfterLoss(ops, chunk, more);
  }

  lemma NothingDropped(s: State, more: seq<Byte>)
    requires |s.buffer| + |more| <= MAX_BUFFER
    ensures Clipped(s.buffer + more) == s.buffer + more && Dropped(s, more) == 0
  {}

  lemma TwoOverlap(ops: seq<Op>, chunk: seq<Byte>, ops1: seq<Op>, more: seq<Byte>, a: int, n: nat, b: int, m: nat)
    requires DeliveryStart(Run(ops), chunk).Some? && DeliveryStart(Run(ops1), more).Some?
    requires n == |DeliveredBy(Run(ops), chunk)| && a == DeliveryPosition(Run(ops), chunk, |FedSince(ops) + chunk|)
    requires m == |DeliveredBy(Run(ops1), more)| && b == DeliveryPosition(Run(ops1), more, |FedSince(ops1) + more|)
    ensures (exists pos: int :: DeliversOctet(ops, chunk, pos) && DeliversOctet(ops1, more, pos))
      <==> a < b + 188 * m && b < a + 188 * n && n > 0 && m > 0
  {
    hide *;
    StretchIs(ops, chunk, a, n);
    StretchIs(ops1, more, b, m);
    OverlapMeans(a, n, b, m);
    if pos: int :| DeliversOctet(ops, chunk, pos) && DeliversOctet(ops1, more, pos) {
      assert In(pos, a, n) && In(pos, b, m);
    }
    if pos: int :| In(pos, a, n) && In(pos, b, m) {
      assert DeliversOctet(ops, chunk, pos) && DeliversOctet(ops1, more, pos);
    }
  }

  lemma NoOverlap(ops: seq<Op>, chunk: seq<Byte>, ops1: seq<Op>, more: seq<Byte>)
    requires DeliveryStart(Run(ops1), more).None?
    ensures !exists pos: int :: DeliversOctet(ops, chunk, pos) && DeliversOctet(ops1, more, pos)
  {
    hide *;
    NoStretch(ops1, more);
  }

  lemma LossCounts(s: State, chunk: seq<Byte>)
    requires s.core.Consistent() && Loses(s, chunk)
    ensures DeliveryStart(s, chunk).Some? && (DeliveryStart(s, chunk).value == 0 || |DeliveredBy(s, chunk)| > 0)
  {
    LossStarts(s, chunk);
    LossKeeps(s, chunk);
    if !s.synced { GoodStart(Fed(s, chunk).buffer); }
    hide Fed;
    hide DeliveryStart;
    hide DeliveredBy;
    hide FirstSync;
    hide GoodBlocks;
    hide Core.Consistent;
  }

  lemma LossStarts(s: State, chunk: seq<Byte>)
    requires s.core.Consistent()
    ensures Loses(s, chunk) ==> DeliveryStart(s, chunk).Some?
  {
    hide Fed;
    hide DeliveryStart;
  }

  /** After a loss in a call that had to search, the offset found next is a or a smaller one, so
      everything is delivered again unless a smaller one has come up. */
  lemma SearchedLossRedelivers(ops: seq<Op>, chunk: seq<Byte>, more: seq<Byte>)
    requires Loses(Run(ops), chunk) && more != [] && !Run(ops).synced
    requires |Fed(Run(ops), chunk).buffer| + |more| <= MAX_BUFFER
    ensures var s, kept := Run(ops), Fed(Run(ops), chunk).buffer;
      var a, start := DeliveryStart(s, chunk).value, FirstSync(kept + more);
      && start.Some? && start.value <= a
      && ((exists pos: int :: DeliversOctet(ops, chunk, pos) && DeliversOctet(ops + [Feed(chunk)], more, pos))
          <==> a < start.value + 188 * GoodBlocks(kept + more, start.value))
      && (a == 0 || a + SEARCH_SPAN <= |kept| + 1 ==>
            start.value == a
            && exists pos: int :: DeliversOctet(ops, chunk, pos) && DeliversOctet(ops + [Feed(chunk)], more, pos))
  {
    RedeliversExactly(ops, chunk, more);
    NothingDropped(Fed(Run(ops), chunk), more);
    hide Clipped;
    hide Dropped;
    hide Run;
    hide Fed;
    hide DeliveryStart;
    hide DeliveredBy;
    hide DeliversOctet;
    hide FirstSync;
    hide Core.Consistent;
    var s, kept := Run(ops), Fed(Run(ops), chunk).buffer;
    LossStarts(s, chunk);
    LossKeeps(s, chunk);
    hide Loses;
    FirstSyncExtends(kept, more);
    GoodStart(kept);
    GoodStart(kept + more);
    hide GoodBlocks;
  }

  /** After a loss while synchronised the blocks delivered are the first ones kept. They are delivered
      again exactly when the search succeeds from inside them. */
  lemma SynchronisedLossRedelivers(ops: seq<Op>, chunk: seq<Byte>, more: seq<Byte>)
    requires Loses(Run(ops), chunk) && more != [] && Run(ops).synced
    requires |Fed(Run(ops), chunk).buffer| + |more| <= MAX_BUFFER
    ensures var n, buf := |DeliveredBy(Run(ops), chunk)|, Fed(Run(ops), chunk).buffer + more;
      (exists pos: int :: DeliversOctet(ops, chunk, pos) && DeliversOctet(ops + [Feed(chunk)], more, pos))
      <==> exists from: nat :: from < 188 * n && Admits(buf, from)
  {
    RedeliversExactly(ops, chunk, more);
    NothingDropped(Fed(Run(ops), chunk), more);
    hide Clipped;
    hide Dropped;
    hide Run;
    hide Fed;
    hide DeliveryStart;
    hide DeliveredBy;
    hide DeliversOctet;
    hide Admits;
    hide Core.Consistent;
    var s, buf := Run(ops), Fed(Run(ops), chunk).buffer + more;
    LossStarts(s, chunk);
    LossKeeps(s, chunk);
    hide Loses;
    if FirstSync(buf).Some? { GoodStart(buf); }
    hide GoodBlocks;
  }
}
