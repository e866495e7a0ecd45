/** The 32-bit ids of iterations, in runs without clears. */
module IterationIds {
  import opened Bytes
  import opened TsPacket
  import opened Storage
  import opened DemuxSteps
  import opened DemuxModel
  import opened Grouping

  function StoredIds(entries: seq<Entry>): (r: seq<nat>)
    ensures |r| == |entries|
    ensures forall i | 0 <= i < |r| :: r[i] == entries[i].id
  {
    seq(|entries|, i requires 0 <= i < |entries| => entries[i].id)
  }

  /** The ids of a PID's stored iterations, then of the open one. */
  function Ids(s: Store, pid: nat): seq<nat> {
    StoredIds(s.streams.Of(pid)) + if pid in s.openIds then [s.openIds[pid]] else []
  }

  predicate Begins(s: Store, table: Option<set<nat>>, e: Event) {
    e.Delivered? && Accepts(table, e.packet.header.pid) && Opens(s, e.packet)
  }

  /** The number of iterations that events begin. */
  function BegunCount(table: Option<set<nat>>, events: seq<Event>): nat
    decreases |events|
  {
    if events == [] then 0 else
    var init := events[..|events| - 1];
    BegunCount(table, init) + if Begins(After(table, init), table, events[|events| - 1]) then 1 else 0
  }

  /** Numbers the iterations of a PID by the order in which iterations of any PID begin, from 1 on. */
  function Ordinals(table: Option<set<nat>>, pid: nat, events: seq<Event>): seq<nat>
    decreases |events|
  {
    if events == [] then [] else
    var init, e := events[..|events| - 1], events[|events| - 1];
    Ordinals(table, pid, init) +
    if Begins(After(table, init), table, e) && e.packet.header.pid == pid then [BegunCount(table, init) + 1] else []
  }

  /** Ids are the ordinals, taken modulo 2^32. */
  predicate Numbered(ids: seq<nat>, ordinals: seq<nat>) {
    |ids| == |ordinals| && forall i | 0 <= i < |ids| :: ids[i] == ordinals[i] % ID_LIMIT
  }

  lemma IdsFinalized(s: Store, pid: nat, other: nat)
    requires s.Consistent()
    ensures Ids(Finalized(s, other), pid) == Ids(s, pid)
    ensures Finalized(s, other).streams.nextId == s.streams.nextId && other !in Finalized(s, other).openIds
  {}

  lemma IdsFinalizedAll(s: Store, pid: nat)
    requires s.Consistent()
    ensures Ids(FinalizedAll(s), pid) == Ids(s, pid) && FinalizedAll(s).streams.nextId == s.streams.nextId
  {}

  lemma IdsBegun(s: Store, pid: nat, p: Packet)
    requires p.header.pid !in s.openIds
    ensures Ids(Begun(s, p), pid) == Ids(s, pid) + if p.header.pid == pid then [s.streams.nextId] else []
    ensures Begun(s, p).streams.nextId == (s.streams.nextId + 1) % ID_LIMIT
  {}

  lemma IdsStored(s: Store, table: Option<set<nat>>, pid: nat, p: Packet)
    requires s.Consistent()
    ensures var t, begins := Stored(s, table, p), Begins(s, table, Delivered(p));
      && Ids(t, pid) == Ids(s, pid) + (if begins && p.header.pid == pid then [s.streams.nextId] else [])
      && t.streams.nextId == if begins then (s.streams.nextId + 1) % ID_LIMIT else s.streams.nextId
  {
    IdsFinalized(s, pid, p.header.pid);
    IdsBegun(Finalized(s, p.header.pid), pid, p);
    SameIds(s, table, p);
    hide WithPacket;
    hide Finalized;
    hide Accepts;
    hide Begun;
    hide Stored;
    hide StoredIds;
  }

  /** Storing a packet changes ids by opening an iteration only. */
  lemma SameIds(s: Store, table: Option<set<nat>>, p: Packet)
    requires s.Consistent()
    ensures var t := Stored(s, table, p);
      var u := if Begins(s, table, Delivered(p)) then Opened(s, p) else s;
      t.streams == u.streams && t.openIds == u.openIds
  {
    hide WithPacket;
    hide Opened;
    hide Accepts;
  }

  lemma NextModulo(n: nat)
    ensures (n % ID_LIMIT + 1) % ID_LIMIT == (n + 1) % ID_LIMIT
  {}

  lemma NewHasNoIds(pid: nat)
    ensures Ids(NEW_CORE.store, pid) == []
  {}

  lemma {:induction false} IdsAreOrdinals(table: Option<set<nat>>, pid: nat, events: seq<Event>)
    ensures Numbered(Ids(After(table, events), pid), Ordinals(table, pid, events))
    ensures After(table, events).streams.nextId == (BegunCount(table, events) + 1) % ID_LIMIT
    decreases |events|
  {
    hide Ids;
    hide Stored;
    hide FinalizedAll;
    if events == [] {
      NewHasNoIds(pid);
    } else {
      var init, e := events[..|events| - 1], events[|events| - 1];
      IdsAreOrdinals(table, pid, init);
      NextModulo(BegunCount(table, init) + 1);
      var s := After(table, init);
      if e.Finalize? {
        IdsFinalizedAll(s, pid);
      } else {
        IdsStored(s, table, pid, e.packet);
        hide Begins;
      }
    }
  }

  /** The last event begins nothing, or one iteration of one PID. */
  lemma OrdinalsStep(table: Option<set<nat>>, pid: nat, events: seq<Event>)
    requires events != []
    ensures var init := events[..|events| - 1];
      var n, m, os := BegunCount(table, init), BegunCount(table, events), Ordinals(table, pid, init);
      && (m == n || m == n + 1)
      && (Ordinals(table, pid, events) == os
          || (m == n + 1 && events[|events| - 1].Delivered? && events[|events| - 1].packet.header.pid == pid
              && Ordinals(table, pid, events) == os + [m]))
  {
    hide Accepts;
    hide Opens;
    hide After;
  }

  lemma {:induction false} OrdinalsInRange(table: Option<set<nat>>, pid: nat, events: seq<Event>)
    ensures var os := Ordinals(table, pid, events);
      && (forall i | 0 <= i < |os| :: 1 <= os[i] <= BegunCount(table, events))
      && (forall i, j | 0 <= i < j < |os| :: os[i] < os[j])
    decreases |events|
  {
    if events != [] {
      OrdinalsInRange(table, pid, events[..|events| - 1]);
      OrdinalsStep(table, pid, events);
      hide Ordinals;
      hide BegunCount;
    }
  }

  lemma {:induction false} OrdinalsDisjoint(table: Option<set<nat>>, p: nat, q: nat, events: seq<Event>)
    requires p != q
    ensures var os, us := Ordinals(table, p, events), Ordinals(table, q, events);
      forall i, j | 0 <= i < |os| && 0 <= j < |us| :: os[i] != us[j]
    decreases |events|
  {
    if events != [] {
      var init := events[..|events| - 1];
      OrdinalsStep(table, p, events);
      OrdinalsStep(table, q, events);
      hide Ordinals;
      hide BegunCount;
      OrdinalsDisjoint(table, p, q, init);
      OrdinalsInRange(table, p, init);
      OrdinalsInRange(table, q, init);
    }
  }

  /** Every number up to the count is the ordinal of some iteration. */
  lemma {:induction false} OrdinalGiven(table: Option<set<nat>>, events: seq<Event>, k: nat) returns (pid: nat, i: nat)
    requires 1 <= k <= BegunCount(table, events)
    ensures i < |Ordinals(table, pid, events)| && Ordinals(table, pid, events)[i] == k
    decreases |events|
  {
    var init, e := events[..|events| - 1], events[|events| - 1];
    hide Begins;
    if k <= BegunCount(table, init) {
      pid, i := OrdinalGiven(table, init, k);
    } else {
      pid := e.packet.header.pid;
      i := |Ordinals(table, pid, init)|;
    }
  }

  /** No two iterations, stored or open, of any PIDs share an id. */
  ghost predicate Distinct(s: Store) {
    forall p: nat, q: nat, i: nat, j: nat | i < |Ids(s, p)| && j < |Ids(s, q)| && (p != q || i != j) ::
      Ids(s, p)[i] != Ids(s, q)[j]
  }

  lemma SameOrdinal(table: Option<set<nat>>, events: seq<Event>, p: nat, i: nat, q: nat, j: nat)
    requires i < |Ordinals(table, p, events)| && j < |Ordinals(table, q, events)|
    requires Ordinals(table, p, events)[i] == Ordinals(table, q, events)[j]
    ensures p == q && i == j
  {
    if p != q { OrdinalsDisjoint(table, p, q, events); }
    OrdinalsInRange(table, p, events);
  }

  /** Ids are distinct exactly as long as at most 2^32 iterations have begun. */
  lemma IdsDistinctExactly(table: Option<set<nat>>, events: seq<Event>)
    ensures Distinct(After(table, events)) <==> BegunCount(table, events) <= 0x1_0000_0000
  {
    hide After;
    hide Ids;
    hide BegunCount;
    hide Ordinals;
    var s := After(table, events);
    forall pid: nat ensures Numbered(Ids(s, pid), Ordinals(table, pid, events)) {
      IdsAreOrdinals(table, pid, events);
    }
    if BegunCount(table, events) <= ID_LIMIT {
      forall p: nat, q: nat, i: nat, j: nat | i < |Ids(s, p)| && j < |Ids(s, q)| && (p != q || i != j)
        ensures Ids(s, p)[i] != Ids(s, q)[j]
      {
        OrdinalsInRange(table, p, events);
        OrdinalsInRange(table, q, events);
        var o, u := Ordinals(table, p, events)[i], Ordinals(table, q, events)[j];
        if o == u { SameOrdinal(table, events, p, i, q, j); }
      }
    } else {
      var p, i := OrdinalGiven(table, events, 1);
      var q, j := OrdinalGiven(table, events, ID_LIMIT + 1);
      assert Ids(s, p)[i] == Ids(s, q)[j];
    }
  }

  /** While fewer than 2^32 iterations have begun, ids grow along every stream. */
  lemma IdsIncrease(table: Option<set<nat>>, events: seq<Event>, pid: nat)
    requires BegunCount(table, events) < 0x1_0000_0000
    ensures var ids := Ids(After(table, events), pid);
      forall i, j | 0 <= i < j < |ids| :: ids[i] < ids[j]
  {
    IdsAreOrdinals(table, pid, events);
    OrdinalsInRange(table, pid, events);
    hide Ids;
    hide After;
  }

  ghost predicate BelowNext(s: Store) {
    forall pid: nat, i: nat | i < |Ids(s, pid)| :: Ids(s, pid)[i] < s.streams.nextId
  }

  /** All ids are below the next one exactly until the counter wraps around. */
  lemma IdsBelowNextExactly(table: Option<set<nat>>, events: seq<Event>)
    ensures BelowNext(After(table, events)) <==> BegunCount(table, events) + 1 < 0x1_0000_0000
  {
    hide After;
    hide Ids;
    hide BegunCount;
    hide Ordinals;
    var s := After(table, events);
    forall pid: nat ensures Numbered(Ids(s, pid), Ordinals(table, pid, events)) {
      IdsAreOrdinals(table, pid, events);
    }
    IdsAreOrdinals(table, 0, events);
    if BegunCount(table, events) + 1 < ID_LIMIT {
      forall pid: nat, i: nat | i < |Ids(s, pid)| ensures Ids(s, pid)[i] < s.streams.nextId {
        OrdinalsInRange(table, pid, events);
        assert Numbered(Ids(s, pid), Ordinals(table, pid, events));
        assert Ordinals(table, pid, events)[i] % ID_LIMIT == Ordinals(table, pid, events)[i];
      }
    } else {
      var p, i := OrdinalGiven(table, events, ID_LIMIT - 1);
      assert Ids(s, p)[i] == ID_LIMIT - 1;
    }
  }

  /** While ids are distinct, asking a stream for an id yields the iteration that has it, and
      removing the id removes that iteration only. */
  lemma LookupFinds(s: Store, pid: nat, i: nat)
    requires Distinct(s) && i < |s.streams.Of(pid)|
    ensures var entries := s.streams.Of(pid);
      && Lookup(entries, entries[i].id) == Some(entries[i].iteration)
      && Without(entries, entries[i].id) == entries[..i] + entries[i + 1..]
  {
    var entries := s.streams.Of(pid);
    assert forall k | 0 <= k < |entries| :: Ids(s, pid)[k] == entries[k].id;
  }

  /** In every run without clears and with a fixed program table that begins at most 2^32
      iterations, looking up an id yields the iteration that has it. */
  lemma RunLookup(ops: seq<Op>, pid: nat, i: nat)
    requires KeepsAll(ops) && BegunCount(Run(ops).table, Events(ops)) <= 0x1_0000_0000
    requires i < |Run(ops).core.store.streams.Of(pid)|
    ensures var entries := Run(ops).core.store.streams.Of(pid);
      && Lookup(entries, entries[i].id) == Some(entries[i].iteration)
      && Without(entries, entries[i].id) == entries[..i] + entries[i + 1..]
  {
    RunStore(ops);
    IdsDistinctExactly(Run(ops).table, Events(ops));
    hide Run;
    LookupFinds(Run(ops).core.store, pid, i);
  }

  /** And the buffers handed out for that id are exactly what the packets of one group carry: private
      data and payload, packet by packet. */
  lemma RunBuffers(ops: seq<Op>, pid: nat, k: nat)
    requires KeepsAll(ops) && BegunCount(Run(ops).table, Events(ops)) <= 0x1_0000_0000
    requires k < |Run(ops).core.store.streams.Of(pid)|
    ensures var groups := GroupsOf(Run(ops).table, pid, Events(ops)).closed;
      var entries := Run(ops).core.store.streams.Of(pid);
      var found := Lookup(entries, entries[k].id);
      k < |groups| && found.Some?
      && var buffers, pieces := Buffers(found.value), AllPieces(groups[k].packets);
         && |buffers| == |pieces|
         && forall i | 0 <= i < |pieces| ::
              buffers[i] == PayloadBuffer(Some(pieces[i].bytes), |pieces[i].bytes|, pieces[i].kind)
  {
    RunHoldsGroups(ops, pid);
    RunLookup(ops, pid, k);
    hide Run;
    hide Iteration;
    hide Partitions;
    hide Lookup;
    BuffersAreThePieces(GroupsOf(Run(ops).table, pid, Events(ops)).closed[k]);
  }

  /** And the k-th summary of a PID describes its k-th closed group, under the id by which the lookup
      finds that group's iteration. */
  lemma RunSummaries(ops: seq<Op>, pid: nat, k: nat)
    requires KeepsAll(ops) && BegunCount(Run(ops).table, Events(ops)) <= 0x1_0000_0000
    requires k < |Run(ops).core.store.streams.Of(pid)|
    ensures var groups := GroupsOf(Run(ops).table, pid, Events(ops)).closed;
      var entries := Run(ops).core.store.streams.Of(pid);
      && k < |groups| && groups[k].packets != []
      && var info, g := Summaries(entries)[k], groups[k];
         && info.id == entries[k].id && Lookup(entries, info.id) == Some(Iteration(g))
         && info.normalSize == NormalSize(g.packets) && info.privateSize == PrivateSize(g.packets)
         && info.packetCount == |g.packets| && (info.hasDiscontinuity <==> HasJump(g))
         && info.ccStart == g.packets[0].header.cc && info.ccEnd == g.packets[|g.packets| - 1].header.cc
  {
    RunHoldsGroups(ops, pid);
    RunLookup(ops, pid, k);
    hide Run;
    hide Iteration;
    hide Partitions;
    hide Lookup;
    hide Summary;
    var entries, g := Run(ops).core.store.streams.Of(pid), GroupsOf(Run(ops).table, pid, Events(ops)).closed[k];
    SummaryCounts(entries[k].id, g);
    assert entries[k] == Entry(entries[k].id, Iteration(g));
  }
}
