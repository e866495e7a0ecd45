/** What the demultiplexer does with one accepted packet (src/mpegts_demuxer.cpp), as functions on
    values: iterations and storage, PSI state, and PCR trackers. */
module DemuxSteps {
  import opened Bytes
  import opened TsPacket
  import opened Storage
  import Psi
  import Acc = PsiAccumulation
  import opened PcrTracking

  // ------------------------------------------------------------------------------------------
  // Iterations
  // ------------------------------------------------------------------------------------------

  /** Stored and open iterations. `openIds` has the keys of `open`. */
  datatype Store = Store(streams: Streams, openIds: map<nat, nat>, open: map<nat, IterationData>, lastCc: map<nat, nat>)
  {
    predicate Consistent() { openIds.Keys == open.Keys }
  }

  predicate IsSystemPid(pid: nat) {
    pid == 0x0000 || pid == 0x0001 || pid == 0x0002 || pid == 0x1FFF
  }

  /** PIDs that are demultiplexed, given the program table if one is set. */
  predicate Accepts(table: Option<set<nat>>, pid: nat) {
    !IsSystemPid(pid) && (table.Some? ==> pid in table.value)
  }

  function Get<V>(m: map<nat, V>, k: nat): Option<V> {
    if k in m then Some(m[k]) else None
  }

  /** A jump of the continuity counter that the packet itself announces. */
  predicate AnnouncedJump(previous: Option<nat>, p: Packet) {
    previous.Some? && p.header.cc != (previous.value + 1) % 16 && p.Discontinuity()
  }

  function NewIteration(p: Packet): IterationData {
    IterationData([], [], false, p.header.payloadUnitStart, p.header.cc, 0, 0)
  }

  function WithPiece(it: IterationData, kind: PayloadType, bytes: seq<Byte>): IterationData {
    if bytes == [] then it else
    it.(data := it.data + bytes, payloads := it.payloads + [Segment(kind, |bytes|, |it.data|)])
  }

  function PayloadOf(p: Packet): seq<Byte> {
    if p.hasPayload then p.payload else []
  }

  /** The iteration with one more packet: private data first, then payload. */
  function WithPacket(it: IterationData, previous: Option<nat>, p: Packet): IterationData {
    WithPiece(WithPiece(Counted(it, previous, p), Private, p.PrivateData()), Normal, PayloadOf(p))
  }

  /** The metadata of the iteration after one more packet. */
  function Counted(it: IterationData, previous: Option<nat>, p: Packet): IterationData {
    it.(lastCc := p.header.cc, packetCount := it.packetCount + 1,
        discontinuity := it.discontinuity || AnnouncedJump(previous, p))
  }

  /** Moves the open iteration of a PID, if any, to the storage. */
  function Finalized(s: Store, pid: nat): Store
    requires s.Consistent()
  {
    if pid !in s.open then s else
    s.(streams := s.streams.(
         entries := s.streams.entries[pid := s.streams.Of(pid) + [Entry(s.openIds[pid], s.open[pid])]]),
       open := s.open - {pid}, openIds := s.openIds - {pid})
  }

  /** Moves every open iteration to the storage. */
  function FinalizedAll(s: Store): Store
    requires s.Consistent()
  {
    s.(streams := s.streams.(entries := map pid | pid in s.streams.entries.Keys + s.open.Keys ::
         if pid in s.open then s.streams.Of(pid) + [Entry(s.openIds[pid], s.open[pid])] else s.streams.Of(pid)),
       open := map[], openIds := map[])
  }

  predicate Opens(s: Store, p: Packet) {
    p.header.pid !in s.open || p.header.payloadUnitStart
  }

  /** A new iteration for the packet's PID, after finalizing the one that is open. */
  function Opened(s: Store, p: Packet): Store
    requires s.Consistent()
  {
    Begun(Finalized(s, p.header.pid), p)
  }

  function Begun(s: Store, p: Packet): Store {
    var pid := p.header.pid;
    s.(streams := s.streams.(nextId := (s.streams.nextId + 1) % ID_LIMIT),
       openIds := s.openIds[pid := s.streams.nextId], open := s.open[pid := NewIteration(p)])
  }

  /** `addPacketToStorage` */
  function Stored(s: Store, table: Option<set<nat>>, p: Packet): (r: Store)
    requires s.Consistent()
    ensures r.Consistent()
  {
    var pid := p.header.pid;
    if !Accepts(table, pid) then s else
    var t := if Opens(s, p) then Opened(s, p) else s;
    t.(open := t.open[pid := WithPacket(t.open[pid], Get(t.lastCc, pid), p)], lastCc := t.lastCc[pid := p.header.cc])
  }

  // ------------------------------------------------------------------------------------------
  // Program specific information
  // ------------------------------------------------------------------------------------------

  datatype PsiState = PsiState(pat: Acc.Acc, pmts: map<nat, Acc.Acc>, parsedPat: Option<Psi.Pat>,
                               parsedPmts: map<nat, Psi.Pmt>)
  {
    predicate Consistent() {
      pat.Consistent() && forall pid | pid in pmts :: pmts[pid].Consistent()
    }
  }

  /** Fresh accumulators for the PMT PIDs of a program list, the network entry excepted. */
  function WithPmts<V>(pmts: map<nat, V>, entries: seq<Psi.PatEntry>, empty: V): map<nat, V>
    decreases |entries|
  {
    if entries == [] then pmts else
    var e := entries[0];
    WithPmts(if e.programNumber != 0 then pmts[e.pid := empty] else pmts, entries[1..], empty)
  }

  /** The accumulator after a payload; a completed section is taken out at once. */
  function Kept(a: Acc.Acc, payload: seq<Byte>, start: bool): Acc.Acc {
    if Acc.Completes(a, payload, start) then Acc.EMPTY else Acc.Added(a, payload, start)
  }

  /** The section a payload completes, if it does. */
  function Delivered(a: Acc.Acc, payload: seq<Byte>, start: bool): Option<seq<Byte>> {
    var b := Acc.Added(a, payload, start);
    if Acc.Completes(a, payload, start) then Some(b.buffer[..b.expectedLength]) else None
  }

  function DecodedPat(section: Option<seq<Byte>>): Option<Psi.Pat> {
    if section.None? then None else Psi.DecodePat(section.value)
  }

  function DecodedPmt(section: Option<seq<Byte>>): Option<Psi.Pmt> {
    if section.None? then None else Psi.DecodePmt(section.value)
  }

  /** A payload on the PAT PID. */
  function PatStep(s: PsiState, payload: seq<Byte>, start: bool): PsiState {
    var t := s.(pat := Kept(s.pat, payload, start));
    var table := DecodedPat(Delivered(s.pat, payload, start));
    if table.None? then t else
    t.(parsedPat := table, pmts := WithPmts(s.pmts, table.value.programs, Acc.EMPTY))
  }

  /** A payload on a PMT PID. */
  function PmtStep(s: PsiState, pid: nat, payload: seq<Byte>, start: bool): PsiState
    requires pid in s.pmts
  {
    var t := s.(pmts := s.pmts[pid := Kept(s.pmts[pid], payload, start)]);
    var table := DecodedPmt(Delivered(s.pmts[pid], payload, start));
    if table.None? then t else t.(parsedPmts := t.parsedPmts[table.value.programNumber := table.value])
  }

  /** `processPSIPacket` */
  function PsiStep(s: PsiState, p: Packet): PsiState {
    if !p.hasPayload then s else
    if p.header.pid == 0 then PatStep(s, p.payload, p.header.payloadUnitStart) else
    if p.header.pid in s.pmts then PmtStep(s, p.header.pid, p.payload, p.header.payloadUnitStart)
    else s
  }

  // ------------------------------------------------------------------------------------------
  // Clock references
  // ------------------------------------------------------------------------------------------

  /** Every tracker keeps a bounded window. */
  predicate Bounded(trackers: map<nat, TrackerState>) {
    forall pid | pid in trackers :: |trackers[pid].samples| <= MAX_SAMPLES
  }

  /** `processPCR`: the sample carries the values of the parsed adaptation field. */
  function ClockStep(trackers: map<nat, TrackerState>, p: Packet, packetNumber: nat): map<nat, TrackerState> {
    if !p.hasAdaptation || !p.adaptation.pcrFlag then trackers else
    var pcr := Pcr(p.adaptation.pcrBase, p.adaptation.pcrExtension);
    if !pcr.IsValid() then trackers else
    var pid := p.header.pid;
    var t := if pid in trackers then trackers[pid] else EMPTY_TRACKER;
    trackers[pid := Tracked(t, Sample(pcr, packetNumber, p.header.cc))]
  }

  // ------------------------------------------------------------------------------------------
  // One packet
  // ------------------------------------------------------------------------------------------

  /** Everything that packets change. */
  datatype Core = Core(store: Store, psi: PsiState, trackers: map<nat, TrackerState>, packets: nat)
  {
    predicate Consistent() {
      store.Consistent() && psi.Consistent() && Bounded(trackers)
    }
  }

  const NEW_CORE := Core(Store(Streams(map[], 1), map[], map[], map[]),
                         PsiState(Acc.EMPTY, map[], None, map[]), map[], 0)

  lemma {:induction false} WithPmtsConsistent(pmts: map<nat, Acc.Acc>, entries: seq<Psi.PatEntry>)
    requires forall pid | pid in pmts :: pmts[pid].Consistent()
    ensures forall pid | pid in WithPmts(pmts, entries, Acc.EMPTY) ::
      WithPmts(pmts, entries, Acc.EMPTY)[pid].Consistent()
    decreases |entries|
  {
    if entries != [] {
      var e := entries[0];
      WithPmtsConsistent(if e.programNumber != 0 then pmts[e.pid := Acc.EMPTY] else pmts, entries[1..]);
    }
  }

  lemma PsiStepConsistent(s: PsiState, p: Packet)
    requires s.Consistent()
    ensures PsiStep(s, p).Consistent()
  {
    forall entries: seq<Psi.PatEntry> { WithPmtsConsistent(s.pmts, entries); }
    forall a: Acc.Acc, payload, start | a.Consistent() ensures Kept(a, payload, start).Consistent() {
      KeptConsistent(a, payload, start);
    }
    hide DecodedPat;
    hide DecodedPmt;
    hide Delivered;
    hide Kept;
    hide WithPmts;
  }

  lemma KeptConsistent(a: Acc.Acc, payload: seq<Byte>, start: bool)
    requires a.Consistent()
    ensures Kept(a, payload, start).Consistent()
  {}

  /** The state after one accepted packet. */
  function PacketStep(c: Core, table: Option<set<nat>>, p: Packet): (d: Core)
    requires c.Consistent()
    ensures d.Consistent()
  {
    PsiStepConsistent(c.psi, p);
    Core(Stored(c.store, table, p), PsiStep(c.psi, p), ClockStep(c.trackers, p, c.packets), c.packets + 1)
  }

  /** The state after a sequence of accepted packets. */
  function PacketSteps(c: Core, table: Option<set<nat>>, ps: seq<Packet>): (d: Core)
    requires c.Consistent()
    ensures d.Consistent()
    decreases |ps|
  {
    if ps == [] then c else
    PacketStep(PacketSteps(c, table, ps[..|ps| - 1]), table, ps[|ps| - 1])
  }

  lemma {:induction false} PacketStepsAppend(c: Core, table: Option<set<nat>>, ps: seq<Packet>, qs: seq<Packet>)
    requires c.Consistent()
    ensures PacketSteps(c, table, ps + qs) == PacketSteps(PacketSteps(c, table, ps), table, qs)
    decreases |qs|
  {
    hide PacketStep;
    if qs == [] {
      assert ps + qs == ps;
    } else {
      var init := qs[..|qs| - 1];
      assert (ps + qs)[..|ps + qs| - 1] == ps + init;
      PacketStepsAppend(c, table, ps, init);
    }
  }
}
