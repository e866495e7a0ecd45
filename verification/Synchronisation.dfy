/** What the search for synchronisation finds, and what it cannot miss. */
module Synchronisation {
  import opened Bytes
  import opened TsPacket
  import opened DemuxSteps
  import opened DemuxModel

  lemma {:induction false} PacketsCounted(c: Core, table: Option<set<nat>>, ps: seq<Packet>)
    requires c.Consistent()
    ensures PacketSteps(c, table, ps).packets == c.packets + |ps|
    decreases |ps|
  {
    hide Stored;
    hide PsiStep;
    hide ClockStep;
    if ps != [] { PacketsCounted(c, table, ps[..|ps| - 1]); }
  }

  /** What a successful search has found: three packets in order, apart and close together. The counter
      of each goes on from the one before, or the packet announces that it does not, and after a packet
      with payload the PID is the same. */
  ghost predicate Found(buf: seq<Byte>, p0: nat, p1: nat, p2: nat) {
    && p0 + 564 <= |buf| && p0 < p1 && p1 + 188 <= p2 && p2 + 188 <= p0 + 1880 && p2 + 188 <= |buf|
    && PacketAt(buf, p0) && PacketAt(buf, p1) && PacketAt(buf, p2)
    && var p, q, r := ParsedAt(buf, p0), ParsedAt(buf, p1), ParsedAt(buf, p2);
       && (q.header.cc == (p.header.cc + 1) % 16 || (q.hasAdaptation && q.adaptation.discontinuity))
       && (r.header.cc == (q.header.cc + 1) % 16 || (r.hasAdaptation && r.adaptation.discontinuity))
       && (p.hasPayload ==> p.header.pid == q.header.pid) && (q.hasPayload ==> q.header.pid == r.header.pid)
  }

  lemma ChainFinds(buf: seq<Byte>, start: nat, p1: nat, p2: nat)
    requires Chain(buf, start, p1, p2) && start + MIN_SYNC <= |buf|
    ensures Found(buf, start, p1, p2) && GoodBlocks(buf, start) > 0
  {
    hide Parse;
  }

  lemma DrainedCounts(s: State, off: nat)
    requires s.core.Consistent() && off <= |s.buffer|
    ensures Drained(s, off).core.packets == s.core.packets + GoodBlocks(s.buffer, off)
  {
    PacketsCounted(s.core, s.table, Packets(s.buffer, off, GoodBlocks(s.buffer, off)));
    hide PacketSteps;
    hide GoodBlocks;
    hide Core.Consistent;
  }

  /** A search that succeeds has found three packets at its offset, and at least one packet is then
      delivered; one that fails changes nothing. */
  lemma SearchIsSound(s: State) returns (p1: nat, p2: nat)
    requires s.core.Consistent() && !s.synced
    ensures var start := FirstSync(s.buffer);
      if start.None? then Processed(s) == s && forall from: nat :: !Admits(s.buffer, from)
      else && Found(s.buffer, start.value, p1, p2)
           && (forall from: nat | from < start.value :: !Admits(s.buffer, from))
           && Processed(s).core.packets > s.core.packets
  {
    hide Chain;
    hide Found;
    hide Drained;
    hide GoodBlocks;
    hide Core.Consistent;
    p1, p2 := 0, 0;
    var start := FirstSync(s.buffer);
    if start.Some? {
      assert Admits(s.buffer, start.value);
      p1, p2 :| Chain(s.buffer, start.value, p1, p2);
      ChainFinds(s.buffer, start.value, p1, p2);
      DrainedCounts(s, start.value);
    }
    hide Admits;
  }

  // ------------------------------------------------------------------------------------------
  // Three packets and nothing else
  // ------------------------------------------------------------------------------------------

  /** The only offsets at which a packet parses. */
  ghost predicate OnlyThree(buf: seq<Byte>, p0: nat, p1: nat, p2: nat) {
    && p0 < p1 < p2 && PacketAt(buf, p0) && PacketAt(buf, p1) && PacketAt(buf, p2)
    && forall r: nat | PacketAt(buf, r) :: r == p0 || r == p1 || r == p2
  }

  lemma FoundChains(buf: seq<Byte>, p0: nat, p1: nat, p2: nat)
    requires OnlyThree(buf, p0, p1, p2) && Found(buf, p0, p1, p2)
    ensures Chain(buf, p0, p1, p2)
  {
    hide PacketAt;
    hide ParsedAt;
  }

  lemma AdmitsFound(buf: seq<Byte>, start: nat) returns (p1: nat, p2: nat)
    requires Admits(buf, start)
    ensures Found(buf, start, p1, p2)
  {
    hide Chain;
    hide Found;
    p1, p2 :| Chain(buf, start, p1, p2);
    ChainFinds(buf, start, p1, p2);
  }

  lemma FoundOrder(buf: seq<Byte>, p0: nat, p1: nat, p2: nat)
    requires Found(buf, p0, p1, p2)
    ensures p0 < p1 < p2 && PacketAt(buf, p0) && PacketAt(buf, p1) && PacketAt(buf, p2) && p0 + 564 <= |buf|
  {
    hide PacketAt;
    hide ParsedAt;
  }

  /** Where just three packets parse, the search finds the first of them exactly if they are apart, at
      most 1880 octets long together, and go on in counter and PID; otherwise it finds nothing. */
  lemma ThreePacketsExactly(buf: seq<Byte>, p0: nat, p1: nat, p2: nat)
    requires OnlyThree(buf, p0, p1, p2)
    ensures FirstSync(buf) == if Found(buf, p0, p1, p2) then Some(p0) else None
  {
    hide PacketAt;
    hide Found;
    hide Admits;
    if FirstSync(buf).Some? {
      var start := FirstSync(buf).value;
      var q1, q2 := AdmitsFound(buf, start);
      FoundOrder(buf, start, q1, q2);
      assert start == p0 && q1 == p1 && q2 == p2;
    }
    if Found(buf, p0, p1, p2) {
      FoundChains(buf, p0, p1, p2);
      FoundOrder(buf, p0, p1, p2);
      ChainAdmits(buf, p0, p1, p2);
    }
  }

  lemma ChainAdmits(buf: seq<Byte>, start: nat, p1: nat, p2: nat)
    requires Chain(buf, start, p1, p2) && start + 564 <= |buf|
    ensures Admits(buf, start)
  {
    hide Chain;
  }

  // ------------------------------------------------------------------------------------------
  // Completeness
  // ------------------------------------------------------------------------------------------

  /** Three packets of one PID, back to back from `at` on, with consecutive continuity counters, the
      first with payload. */
  predicate Trio(buf: seq<Byte>, at: nat) {
    && at + MIN_SYNC <= |buf|
    && PacketAt(buf, at) && PacketAt(buf, at + 188) && PacketAt(buf, at + 376)
    && var a, b, c := ParsedAt(buf, at), ParsedAt(buf, at + 188), ParsedAt(buf, at + 376);
       && a.hasPayload && a.header.pid == b.header.pid == c.header.pid
       && b.header.cc == (a.header.cc + 1) % 16 && c.header.cc == (b.header.cc + 1) % 16
  }

  /** No offset inside the first packet parses as a packet with `discontinuity_indicator`. */
  predicate NoFalseJump(buf: seq<Byte>, at: nat)
    requires at + MIN_SYNC <= |buf|
  {
    forall r: nat | at < r < at + 188 && PacketAt(buf, r) :: !ParsedAt(buf, r).Discontinuity()
  }

  /** The first position in a range that follows a packet, if any does. */
  lemma FirstFollower(buf: seq<Byte>, prev: nat, from: nat, limit: nat, pos: nat) returns (first: nat)
    requires prev + 188 <= |buf| && from <= pos && pos + 188 <= limit && Follows(buf, prev, pos)
    ensures first <= pos && NextMatch(buf, prev, from, limit, first)
    decreases pos - from
  {
    hide Follows;
    if Follows(buf, prev, from) {
      first := from;
    } else {
      assert from < pos;
      first := FirstFollower(buf, prev, from + 1, limit, pos);
    }
  }

  /** Whatever the greedy search takes for the second packet, a third follows it. */
  lemma TrioAdmits(buf: seq<Byte>, at: nat)
    requires Trio(buf, at) && NoFalseJump(buf, at)
    ensures Admits(buf, at)
  {
    hide Parse;
    hide BlockAt;
    var limit := SearchLimit(buf, at);
    var p1 := FirstFollower(buf, at, at + 1, limit, at + 188);
    assert BelongsTo(ParsedAt(buf, p1), ParsedAt(buf, at + 376));
    var p2 := FirstFollower(buf, p1, p1 + 188, limit, at + 376);
    assert Chain(buf, at, p1, p2);
  }

  /** The search stops at such packets exactly when it succeeds nowhere before them. */
  lemma SearchFindsExactly(buf: seq<Byte>, at: nat)
    requires Trio(buf, at) && NoFalseJump(buf, at)
    ensures FirstSync(buf) == Some(at) <==> forall from: nat | from < at :: !Admits(buf, from)
  {
    TrioAdmits(buf, at);
    hide Admits;
    hide Trio;
    hide NoFalseJump;
  }

  lemma NoSyncByte(buf: seq<Byte>, from: nat)
    requires from < |buf| && buf[from] != SYNC_BYTE
    ensures !Admits(buf, from)
  {}

  lemma GoodTrio(buf: seq<Byte>, at: nat)
    requires Trio(buf, at)
    ensures GoodBlocks(buf, at) == 3 + GoodBlocks(buf, at + MIN_SYNC)
  {
    hide PacketAt;
    assert GoodBlocks(buf, at) == 1 + GoodBlocks(buf, at + 188);
    assert GoodBlocks(buf, at + 188) == 1 + GoodBlocks(buf, at + 188 + 188);
    assert GoodBlocks(buf, at + 376) == 1 + GoodBlocks(buf, at + 376 + 188);
  }

  lemma {:induction false} PacketsFrom(buf: seq<Byte>, off: nat, m: nat, n: nat)
    requires off + 188 * (m + n) <= |buf|
    ensures Packets(buf, off, m + n) == Packets(buf, off, m) + Packets(buf, off + 188 * m, n)
  {
    hide ParsedAt;
    var ps, qs, rs := Packets(buf, off, m + n), Packets(buf, off, m), Packets(buf, off + 188 * m, n);
    forall i | 0 <= i < n
      ensures ps[m + i] == rs[i]
    {
      assert off + 188 * (m + i) == off + 188 * m + 188 * i;
    }
  }

  /** After octets without a sync byte, three such packets are found, even if their payloads hold
      sync bytes, and all three are delivered, followed by what comes after them. */
  lemma SearchIsComplete(s: State, at: nat)
    requires s.core.Consistent() && !s.synced && Trio(s.buffer, at) && NoFalseJump(s.buffer, at)
    requires forall from: nat | from < at :: s.buffer[from] != SYNC_BYTE
    ensures FirstSync(s.buffer) == Some(at)
    ensures var buf := s.buffer; var next := at + MIN_SYNC; var n := GoodBlocks(buf, next);
      Processed(s).core == PacketSteps(s.core, s.table,
        [ParsedAt(buf, at), ParsedAt(buf, at + 188), ParsedAt(buf, at + 376)] + Packets(buf, next, n))
    ensures |s.buffer| < at + MIN_SYNC + 188 ==>
      Processed(s).synced && Processed(s).buffer == s.buffer[at + MIN_SYNC..]
  {
    hide Parse;
    hide BlockAt;
    hide PacketSteps;
    forall from: nat | from < at ensures !Admits(s.buffer, from) { NoSyncByte(s.buffer, from); }
    SearchFindsExactly(s.buffer, at);
    GoodTrio(s.buffer, at);
    hide Admits;
    hide FirstSync;
    hide NoFalseJump;
    var n := GoodBlocks(s.buffer, at + MIN_SYNC);
    PacketsFrom(s.buffer, at, 3, n);
    assert Packets(s.buffer, at, 3)
      == [ParsedAt(s.buffer, at), ParsedAt(s.buffer, at + 188), ParsedAt(s.buffer, at + 376)];
  }
}
