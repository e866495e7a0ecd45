/** The demultiplexer as a function of the octets it is fed (src/mpegts_demuxer.cpp): the bounded
    buffer, the search for synchronisation, and the packets delivered by each call. */
module DemuxModel {
  import opened Bytes
  import opened TsPacket
  import opened DemuxSteps
  import opened Storage

  const MAX_BUFFER: nat := 18800
  const SEARCH_SPAN: nat := 1880
  const MIN_SYNC: nat := 564

  // ------------------------------------------------------------------------------------------
  // The search for synchronisation
  // ------------------------------------------------------------------------------------------

  function BlockAt(buf: seq<Byte>, pos: nat): Block
    requires pos + 188 <= |buf|
  {
    buf[pos..pos + 188]
  }

  predicate PacketAt(buf: seq<Byte>, pos: nat) {
    pos + 188 <= |buf| && Valid(BlockAt(buf, pos))
  }

  function ParsedAt(buf: seq<Byte>, pos: nat): Packet
    requires pos + 188 <= |buf|
  {
    Parse(BlockAt(buf, pos))
  }

  /** The continuity counter goes on, or announces that it does not, and a packet with payload is
      followed by one of its own PID. */
  predicate BelongsTo(p: Packet, q: Packet) {
    && (q.header.cc == (p.header.cc + 1) % 16 || q.Discontinuity())
    && (p.hasPayload ==> p.header.pid == q.header.pid)
  }

  predicate Follows(buf: seq<Byte>, prev: nat, pos: nat)
    requires prev + 188 <= |buf|
  {
    PacketAt(buf, pos) && BelongsTo(ParsedAt(buf, prev), ParsedAt(buf, pos))
  }

  /** The first position from `from` on, wholly before `limit`, that follows the packet at `prev`. */
  predicate NextMatch(buf: seq<Byte>, prev: nat, from: nat, limit: nat, pos: nat)
    requires prev + 188 <= |buf|
  {
    && from <= pos && pos + 188 <= limit && Follows(buf, prev, pos)
    && NoneFollows(buf, prev, from, pos)
  }

  predicate NoneFollows(buf: seq<Byte>, prev: nat, from: nat, to: nat)
    requires prev + 188 <= |buf|
  {
    forall r: nat | from <= r < to :: !Follows(buf, prev, r)
  }

  function SearchLimit(buf: seq<Byte>, start: nat): nat {
    if start + SEARCH_SPAN < |buf| then start + SEARCH_SPAN else |buf|
  }

  /** The greedy search from `start` finds its second and third packet at p1 and p2. */
  predicate Chain(buf: seq<Byte>, start: nat, p1: nat, p2: nat) {
    && PacketAt(buf, start) && start < p1
    && NextMatch(buf, start, start + 1, SearchLimit(buf, start), p1)
    && NextMatch(buf, p1, p1 + 188, SearchLimit(buf, start), p2)
  }

  ghost predicate Admits(buf: seq<Byte>, start: nat) {
    start + MIN_SYNC <= |buf| && exists p1: nat, p2: nat :: Chain(buf, start, p1, p2)
  }

  ghost function FirstFrom(buf: seq<Byte>, start: nat): (r: Option<nat>)
    ensures r.Some? ==> start <= r.value && Admits(buf, r.value) && forall s | start <= s < r.value :: !Admits(buf, s)
    ensures r.Some? ==> r.value + MIN_SYNC <= |buf|
    ensures r.None? ==> forall s | start <= s :: !Admits(buf, s)
    decreases |buf| - start
  {
    if start + MIN_SYNC > |buf| then None else if Admits(buf, start) then Some(start) else FirstFrom(buf, start + 1)
  }

  /** The least start whose greedy search succeeds. */
  ghost function FirstSync(buf: seq<Byte>): Option<nat> {
    FirstFrom(buf, 0)
  }

  // ------------------------------------------------------------------------------------------
  // Feeding
  // ------------------------------------------------------------------------------------------

  datatype State = State(core: Core, table: Option<set<nat>>, buffer: seq<Byte>, synced: bool)

  /** The number of back-to-back packets from `off` on, up to the first block that does not parse. */
  function GoodBlocks(buf: seq<Byte>, off: nat): (n: nat)
    ensures off <= |buf| ==> off + 188 * n <= |buf|
    decreases |buf| - off
  {
    if PacketAt(buf, off) then 1 + GoodBlocks(buf, off + 188) else 0
  }

  function Packets(buf: seq<Byte>, off: nat, n: nat): (ps: seq<Packet>)
    requires off + 188 * n <= |buf|
    ensures |ps| == n
    ensures forall i | 0 <= i < n :: ps[i] == ParsedAt(buf, off + 188 * i)
  {
    if n == 0 then [] else Packets(buf, off, n - 1) + [ParsedAt(buf, off + 188 * (n - 1))]
  }

  /** Only the most recent octets are kept. */
  function Clipped(buf: seq<Byte>): (r: seq<Byte>)
    ensures |r| == if |buf| > MAX_BUFFER then MAX_BUFFER else |buf|
    ensures r == buf[|buf| - |r|..]
  {
    if |buf| > MAX_BUFFER then buf[|buf| - MAX_BUFFER..] else buf
  }

  /** Delivers the packets from `off` on. If a block does not parse, synchronisation is lost and the
      whole buffer is kept; otherwise what was delivered is dropped. */
  function Drained(s: State, off: nat): (t: State)
    requires s.core.Consistent() && off <= |s.buffer|
    ensures t.core.Consistent()
  {
    var n := GoodBlocks(s.buffer, off);
    var core := PacketSteps(s.core, s.table, Packets(s.buffer, off, n));
    var end := off + 188 * n;
    if end + 188 <= |s.buffer| then s.(core := core, synced := false)
    else s.(core := core, buffer := s.buffer[end..], synced := true)
  }

  /** `processBuffer` */
  ghost function Processed(s: State): (t: State)
    requires s.core.Consistent()
    ensures t.core.Consistent()
  {
    if s.synced then Drained(s, 0) else
    var start := FirstSync(s.buffer);
    if start.None? then s else Drained(s, start.value)
  }

  /** `feedData` */
  ghost function Fed(s: State, chunk: seq<Byte>): (t: State)
    requires s.core.Consistent()
    ensures t.core.Consistent()
  {
    if chunk == [] then s else Processed(s.(buffer := Clipped(s.buffer + chunk)))
  }

  /** Where the packets of a call are delivered from: nowhere, or the offset in the new buffer. */
  ghost function DeliveryStart(s: State, chunk: seq<Byte>): Option<nat> {
    if chunk == [] then None else if s.synced then Some(0) else FirstSync(Clipped(s.buffer + chunk))
  }

  // ------------------------------------------------------------------------------------------
  // The other operations
  // ------------------------------------------------------------------------------------------

  /** What the getters do first. */
  function Flushed(s: State): State
    requires s.core.Consistent()
  {
    s.(core := s.core.(store := FinalizedAll(s.core.store)))
  }

  /** `clearAll`: PSI, trackers and the packet count are kept. */
  function ClearedAll(s: State): State {
    s.(core := s.core.(store := NEW_CORE.store), buffer := [], synced := false)
  }

  /** `setProgramsTable`: storage and id counter start again, open iterations stay. */
  function WithTable(s: State, pids: set<nat>): State {
    s.(table := Some(pids), core := s.core.(store := s.core.store.(streams := NEW_CORE.store.streams)))
  }

  /** `clearIteration` */
  function WithoutIteration(s: State, pid: nat, id: nat): State {
    var streams := s.core.store.streams;
    s.(core := s.core.(store := s.core.store.(
         streams := streams.(entries := streams.entries[pid := Without(streams.Of(pid), id)]))))
  }

  /** `clearStream` */
  function WithoutStream(s: State, pid: nat): State {
    var streams := s.core.store.streams;
    if pid !in streams.entries then s else
    s.(core := s.core.(store := s.core.store.(streams := streams.(entries := streams.entries[pid := []]))))
  }

  const NEW_STATE := State(NEW_CORE, None, [], false)

  // ------------------------------------------------------------------------------------------
  // Runs
  // ------------------------------------------------------------------------------------------

  /** A public call. The getters that finalize are `Flush`. */
  datatype Op =
    | Feed(chunk: seq<Byte>)
    | Flush
    | ClearIteration(pid: nat, id: nat)
    | ClearStream(pid: nat)
    | ClearAll
    | SetTable(pids: set<nat>)

  ghost function Step(s: State, op: Op): (t: State)
    requires s.core.Consistent()
    ensures t.core.Consistent()
  {
    match op
    case Feed(chunk) => Fed(s, chunk)
    case Flush => Flushed(s)
    case ClearIteration(pid, id) => WithoutIteration(s, pid, id)
    case ClearStream(pid) => WithoutStream(s, pid)
    case ClearAll => ClearedAll(s)
    case SetTable(pids) => WithTable(s, pids)
  }

  /** The state after a run from construction. */
  ghost function Run(ops: seq<Op>): (s: State)
    ensures s.core.Consistent()
    decreases |ops|
  {
    if ops == [] then NEW_STATE else Step(Run(ops[..|ops| - 1]), ops[|ops| - 1])
  }

  lemma RunSnoc(ops: seq<Op>, op: Op)
    ensures Run(ops + [op]) == Step(Run(ops), op)
  {
    hide Step;
    assert (ops + [op])[..|ops + [op]| - 1] == ops;
  }
}
