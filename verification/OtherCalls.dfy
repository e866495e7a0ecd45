/** What the clearing calls and the program table do to what a caller sees. */
module OtherCalls {
  import opened Bytes
  import opened TsPacket
  import opened Storage
  import opened DemuxSteps
  import opened DemuxModel
  import opened Feeding

  /** After `clearAll` nothing is stored, open or counted for any PID, ids start at 1, and the buffer is
      empty; PSI state, trackers, packet count and table stay. */
  lemma ClearAllClears(ops: seq<Op>, pid: nat)
    ensures var s, t := Run(ops), Run(ops + [ClearAll]);
      && t.core.store.streams.entries == map[] && t.core.store.streams.Of(pid) == [] && t.core.store.streams.nextId == 1
      && pid !in t.core.store.open && pid !in t.core.store.openIds && pid !in t.core.store.lastCc
      && t.buffer == [] && !t.synced
      && t.core.psi == s.core.psi && t.core.trackers == s.core.trackers && t.core.packets == s.core.packets
      && t.table == s.table
  {
    RunSnoc(ops, ClearAll);
    hide Run;
    hide Fed;
    hide FinalizedAll;
    hide Core.Consistent;
  }

  /** Everything but the stored streams of a run is as it was. */
  predicate OnlyStreams(s: State, t: State) {
    && t.core.store.open == s.core.store.open && t.core.store.openIds == s.core.store.openIds
    && t.core.store.lastCc == s.core.store.lastCc && t.core.psi == s.core.psi
    && t.core.trackers == s.core.trackers && t.core.packets == s.core.packets
    && t.buffer == s.buffer && t.synced == s.synced
  }

  lemma LookupCons(e: Entry, rest: seq<Entry>, id: nat)
    ensures Lookup([e] + rest, id) == if e.id == id then Some(e.iteration) else Lookup(rest, id)
  {
    assert ([e] + rest)[1..] == rest;
    assert forall k | 0 < k <= |rest| :: ([e] + rest)[k] == rest[k - 1];
  }

  lemma PositionCons(e: Entry, rest: seq<Entry>, id: nat)
    ensures Position([e] + rest, id) == if e.id == id then 0 else 1 + Position(rest, id)
  {
    assert ([e] + rest)[1..] == rest;
  }

  lemma WithoutCons(e: Entry, rest: seq<Entry>, id: nat)
    ensures Without([e] + rest, id) == if e.id == id then rest else [e] + Without(rest, id)
  {
    PositionCons(e, rest, id);
    hide Position;
    var k := Position(rest, id);
    assert ([e] + rest)[..1 + k] == [e] + rest[..k];
    if k < |rest| { assert ([e] + rest)[1 + k + 1..] == rest[k + 1..]; }
  }

  lemma {:induction false} LookupWithout(entries: seq<Entry>, id: nat, other: nat)
    requires other != id
    ensures Lookup(Without(entries, id), other) == Lookup(entries, other)
    decreases |entries|
  {
    if entries == [] {
      NothingWithout(id);
    } else {
      hide Lookup;
      hide Without;
      var e, rest := entries[0], entries[1..];
      assert [e] + rest == entries;
      LookupCons(e, rest, other);
      WithoutCons(e, rest, id);
      LookupWithout(rest, id, other);
      LookupCons(e, Without(rest, id), other);
    }
  }

  lemma NothingWithout(id: nat)
    ensures Without([], id) == []
  {}

  /** One entry fewer with the id, if there was one, and all others in their order. */
  lemma {:induction false} CountWithout(entries: seq<Entry>, id: nat)
    ensures |Without(entries, id)| == if exists e | e in entries :: e.id == id then |entries| - 1 else |entries|
    decreases |entries|
  {
    var k := Position(entries, id);
    if k < |entries| { assert entries[k] in entries; }
  }

  /** `clearIteration` keeps every other id of the PID, every other PID, and everything else. */
  lemma ClearIterationKeeps(ops: seq<Op>, pid: nat, id: nat, q: nat, other: nat)
    requires q != pid || other != id
    ensures var s, t := Run(ops), Run(ops + [ClearIteration(pid, id)]);
      && Lookup(t.core.store.streams.Of(q), other) == Lookup(s.core.store.streams.Of(q), other)
      && t.core.store.streams.nextId == s.core.store.streams.nextId && OnlyStreams(s, t) && t.table == s.table
      && (q != pid ==> t.core.store.streams.Of(q) == s.core.store.streams.Of(q))
  {
    RunSnoc(ops, ClearIteration(pid, id));
    if q == pid { LookupWithout(Run(ops).core.store.streams.Of(pid), id, other); }
    hide Run;
    hide Fed;
    hide FinalizedAll;
    hide Lookup;
    hide Without;
    hide Core.Consistent;
  }

  /** And if the PID has one iteration with the id, it is gone. */
  lemma ClearIterationRemoves(ops: seq<Op>, pid: nat, id: nat)
    requires var es := Run(ops).core.store.streams.Of(pid);
      forall i, j | 0 <= i < |es| && 0 <= j < |es| && es[i].id == es[j].id == id :: i == j
    ensures Lookup(Run(ops + [ClearIteration(pid, id)]).core.store.streams.Of(pid), id) == None
  {
    RunSnoc(ops, ClearIteration(pid, id));
    ClearedStreams(Run(ops), pid, id);
    GoneWithout(Run(ops).core.store.streams.Of(pid), id);
    hide Run;
    hide Step;
    hide Lookup;
    hide Without;
  }

  lemma ClearedStreams(s: State, pid: nat, id: nat)
    requires s.core.Consistent()
    ensures Step(s, ClearIteration(pid, id)).core.store.streams.Of(pid) == Without(s.core.store.streams.Of(pid), id)
  {
    hide Fed;
    hide FinalizedAll;
    hide Without;
    hide Core.Consistent;
  }

  lemma GoneWithout(es: seq<Entry>, id: nat)
    requires forall i, j | 0 <= i < |es| && 0 <= j < |es| && es[i].id == es[j].id == id :: i == j
    ensures Lookup(Without(es, id), id) == None
  {
    var now := Without(es, id);
    var k := Position(es, id);
    forall i | 0 <= i < |now| ensures now[i].id != id {
      assert now[i] == es[if i < k then i else i + 1];
    }
    var j := Position(now, id);
  }

  /** `clearStream` empties the stream of one PID, and changes nothing else. */
  lemma ClearStreamEmpties(ops: seq<Op>, pid: nat, q: nat)
    ensures var s, t := Run(ops), Run(ops + [ClearStream(pid)]);
      && t.core.store.streams.Of(pid) == []
      && (q != pid ==> t.core.store.streams.Of(q) == s.core.store.streams.Of(q))
      && t.core.store.streams.entries.Keys == s.core.store.streams.entries.Keys
      && t.core.store.streams.nextId == s.core.store.streams.nextId && OnlyStreams(s, t) && t.table == s.table
  {
    RunSnoc(ops, ClearStream(pid));
    hide Run;
    hide Fed;
    hide FinalizedAll;
    hide Core.Consistent;
  }

  /** `setProgramsTable` sets the filter and empties the storage, ids from 1 again; open iterations keep
      their ids. */
  lemma SetTableEmpties(ops: seq<Op>, pids: set<nat>, q: nat)
    ensures var s, t := Run(ops), Run(ops + [SetTable(pids)]);
      && t.table == Some(pids) && t.core.store.streams.Of(q) == [] && t.core.store.streams.entries == map[]
      && t.core.store.streams.nextId == 1 && OnlyStreams(s, t)
  {
    RunSnoc(ops, SetTable(pids));
    hide Run;
    hide Fed;
    hide FinalizedAll;
    hide Core.Consistent;
  }

  /** The getters that finalize add the open iteration of each PID, under its id, at the end of its
      stream, and change nothing else. */
  lemma FlushCloses(ops: seq<Op>, q: nat)
    ensures var s, t := Run(ops), Run(ops + [Flush]);
      && t.core.store.open == map[] && t.core.store.openIds == map[]
      && t.core.store.streams.Of(q) == s.core.store.streams.Of(q) +
           (if q in s.core.store.open && q in s.core.store.openIds
            then [Entry(s.core.store.openIds[q], s.core.store.open[q])] else [])
      && t.core.store.streams.nextId == s.core.store.streams.nextId && t.core.store.lastCc == s.core.store.lastCc
      && t.core.psi == s.core.psi && t.core.trackers == s.core.trackers && t.core.packets == s.core.packets
      && t.buffer == s.buffer && t.synced == s.synced && t.table == s.table
  {
    RunSnoc(ops, Flush);
    StoreOf(Run(ops));
    hide Run;
    hide Fed;
    hide PsiState.Consistent;
    hide Bounded;
  }

  lemma StoreOf(s: State)
    requires s.core.Consistent()
    ensures s.core.store.Consistent()
  {}

  /** A call without data changes nothing. */
  lemma NothingFed(ops: seq<Op>)
    ensures Run(ops + [Feed([])]) == Run(ops)
  {
    RunSnoc(ops, Feed([]));
    hide Run;
    hide Processed;
    hide Core.Consistent;
  }
}
