/** The demultiplexer object (include/mpegts_demuxer.hpp, src/mpegts_demuxer.cpp). Each method is
    proved against the function of DemuxSteps or DemuxModel that says what it does to the state. */
module Demuxer {
  import opened Bytes
  import opened TsPacket
  import opened Storage
  import opened PcrTracking
  import opened DemuxSteps
  import opened DemuxModel
  import Psi
  import Acc = PsiAccumulation

  class MPEGTSDemuxer {
    const storage: DemuxerStreamStorage
    var rawBuffer: seq<Byte>
    var isSynchronized: bool
    var syncOffset: nat

    var programsTableAvailable: bool
    var knownProgramPids: set<nat>

    var currentIterationIds: map<nat, nat>
    var currentIterations: map<nat, IterationData>
    var lastCc: map<nat, nat>

    const patAccumulator: Acc.PSIAccumulator
    var pmtAccumulators: map<nat, Acc.PSIAccumulator>
    var parsedPat: Option<Psi.Pat>
    var parsedPmts: map<nat, Psi.Pmt>

    var pcrTrackers: map<nat, PCRTracker>
    var totalPacketsProcessed: nat

    // ----------------------------------------------------------------------------------------
    // The abstract state
    // ----------------------------------------------------------------------------------------

    ghost function StoreView(): Store
      reads this`currentIterationIds, this`currentIterations, this`lastCc, storage, storage.streams.Values
    {
      Store(storage.View(), currentIterationIds, currentIterations, lastCc)
    }

    ghost function PmtViews(): map<nat, Acc.Acc>
      reads this`pmtAccumulators, pmtAccumulators.Values
    {
      map pid | pid in pmtAccumulators :: pmtAccumulators[pid].View()
    }

    ghost function PsiView(): PsiState
      reads this`pmtAccumulators, this`parsedPat, this`parsedPmts, patAccumulator, pmtAccumulators.Values
    {
      PsiState(patAccumulator.View(), PmtViews(), parsedPat, parsedPmts)
    }

    ghost function TrackerViews(): map<nat, TrackerState>
      reads this`pcrTrackers, pcrTrackers.Values
    {
      map pid | pid in pcrTrackers :: pcrTrackers[pid].View()
    }

    /** Every PID has its own accumulator object. */
    ghost predicate PsiObjectsDistinct()
      reads this`pmtAccumulators
    {
      && (forall p | p in pmtAccumulators :: pmtAccumulators[p] != patAccumulator)
      && (forall p, q | p in pmtAccumulators && q in pmtAccumulators && p != q ::
            pmtAccumulators[p] != pmtAccumulators[q])
    }

    ghost predicate TrackersDistinct()
      reads this`pcrTrackers
    {
      forall p, q | p in pcrTrackers && q in pcrTrackers && p != q :: pcrTrackers[p] != pcrTrackers[q]
    }

    /** The table filter, if one is set. */
    ghost function Table(): Option<set<nat>>
      reads this`programsTableAvailable, this`knownProgramPids
    {
      if programsTableAvailable then Some(knownProgramPids) else None
    }

    /** The objects this one owns are in its representation. */
    ghost var repr: set<object>

    ghost predicate Owned()
      reads this`repr, this`pmtAccumulators, this`pcrTrackers, storage`streams
    {
      && storage in repr && patAccumulator in repr && storage.streams.Values <= repr
      && pmtAccumulators.Values <= repr && pcrTrackers.Values <= repr
    }

    ghost predicate ObjectsDistinct()
      reads this`pmtAccumulators, this`pcrTrackers, storage
    {
      storage.Valid() && PsiObjectsDistinct() && TrackersDistinct()
    }

    ghost function CoreView(): Core
      requires Owned()
      reads this`currentIterationIds, this`currentIterations, this`lastCc, this`pmtAccumulators, this`parsedPat,
        this`parsedPmts, this`pcrTrackers, this`totalPacketsProcessed,
        this`repr, storage`streams, repr
    {
      Core(StoreView(), PsiView(), TrackerViews(), totalPacketsProcessed)
    }

    ghost function View(): State
      requires Owned()
      reads this, storage`streams, repr
    {
      State(CoreView(), Table(), rawBuffer, isSynchronized)
    }

    /** The owned objects are distinct and the accumulators and trackers are in order. */
    ghost predicate Sound()
      reads this`currentIterationIds, this`currentIterations, this`lastCc, this`pmtAccumulators, this`parsedPat,
        this`parsedPmts, this`pcrTrackers, this`totalPacketsProcessed,
        this`repr, storage, repr
    {
      this !in repr && Owned() && ObjectsDistinct() && CoreView().Consistent()
    }

    /** The public calls made so far. */
    ghost var history: seq<Op>

    /** Between calls the state is that of the calls made so far. */
    ghost predicate Valid()
      reads this, storage, repr
    {
      Sound() && syncOffset == 0 && View() == Run(history)
    }

    constructor ()
      ensures Valid() && history == []
      ensures fresh(repr)
    {
      NewRun();
      hide Run;
      hide Core.Consistent;
      storage := new DemuxerStreamStorage();
      rawBuffer, isSynchronized, syncOffset := [], false, 0;
      programsTableAvailable, knownProgramPids := false, {};
      currentIterationIds, currentIterations, lastCc := map[], map[], map[];
      patAccumulator := new Acc.PSIAccumulator();
      pmtAccumulators, parsedPat, parsedPmts := map[], None, map[];
      pcrTrackers, totalPacketsProcessed := map[], 0;
      history := [];
      new;
      repr := {storage, patAccumulator};
      assert StoreView() == NEW_CORE.store && PsiView() == NEW_CORE.psi && TrackerViews() == map[];
      assert CoreView() == NEW_CORE;
    }

    static lemma NewRun()
      ensures Run([]) == NEW_STATE && NEW_CORE.Consistent()
    {}

    // ----------------------------------------------------------------------------------------
    // One packet
    // ----------------------------------------------------------------------------------------

    method FinalizeIteration(pid: nat)
      requires storage.Valid() && StoreView().Consistent()
      modifies this`currentIterationIds, this`currentIterations, storage`streams, storage.streams.Values
      ensures storage.Valid() && fresh(storage.streams.Values - old(storage.streams.Values))
      ensures StoreView() == Finalized(old(StoreView()), pid)
    {
      if pid !in currentIterations {
        return;
      }
      storage.Store(pid, currentIterationIds[pid], currentIterations[pid]);
      currentIterations := currentIterations - {pid};
      currentIterationIds := currentIterationIds - {pid};
    }

    /** Appends a segment and its octets, if any, to an iteration. */
    static method AppendPiece(iteration: IterationData, kind: PayloadType, bytes: seq<Byte>)
      returns (it: IterationData)
      ensures it == WithPiece(iteration, kind, bytes)
    {
      it := iteration;
      if |bytes| > 0 {
        var offset := |it.data|;
        it := it.(data := it.data + bytes);
        var segment := Segment(kind, |bytes|, offset);
        it := it.(payloads := it.payloads + [segment]);
      }
    }

    method AddPacketToStorage(packet: TSPacket)
      requires storage.Valid() && StoreView().Consistent()
      modifies this`currentIterationIds, this`currentIterations, this`lastCc, storage, storage.streams.Values
      ensures storage.Valid() && fresh(storage.streams.Values - old(storage.streams.Values))
      ensures StoreView() == Stored(old(StoreView()), Table(), packet.View())
    {
      var pid := packet.header.pid;
      if IsSystemPid(pid) {
        return;
      }
      if programsTableAvailable {
        if pid !in knownProgramPids {
          return;
        }
      }
      OpenIfNeeded(packet);
      hide WithPacket;
      hide Opened;
      ExtendIteration(packet);
    }

    /** Metadata of an iteration: last counter, packet count and announced jumps. */
    method UpdateMetadata(iteration: IterationData, packet: TSPacket) returns (it: IterationData)
      ensures it == Counted(iteration, Get(lastCc, packet.header.pid), packet.View())
    {
      var pid := packet.header.pid;
      it := iteration.(lastCc := packet.header.cc);
      it := it.(packetCount := it.packetCount + 1);
      if pid in lastCc {
        var expectedCc := (lastCc[pid] + 1) % 16;
        if packet.header.cc != expectedCc {
          if packet.hasAdaptation && packet.adaptationField.discontinuity {
            it := it.(discontinuity := true);
          }
        }
      }
    }

    /** The part of `addPacketToStorage` that updates the open iteration. */
    method ExtendIteration(packet: TSPacket)
      requires packet.header.pid in currentIterations
      modifies this`currentIterations, this`lastCc
      ensures var pid := packet.header.pid;
        && currentIterations == old(currentIterations)[
             pid := WithPacket(old(currentIterations)[pid], Get(old(lastCc), pid), packet.View())]
        && lastCc == old(lastCc)[pid := packet.header.cc]
    {
      hide WithPiece;
      hide Counted;
      var pid := packet.header.pid;
      var it := UpdateMetadata(currentIterations[pid], packet);
      lastCc := lastCc[pid := packet.header.cc];
      it := AppendPiece(it, Private, packet.GetPrivateData());
      it := AppendPiece(it, Normal, if packet.hasPayload then packet.payload else []);
      currentIterations := currentIterations[pid := it];
    }

    /** The part of `addPacketToStorage` that starts a new iteration. */
    method OpenIfNeeded(packet: TSPacket)
      requires storage.Valid() && StoreView().Consistent()
      modifies this`currentIterationIds, this`currentIterations, storage, storage.streams.Values
      ensures storage.Valid() && fresh(storage.streams.Values - old(storage.streams.Values))
      ensures StoreView() == if Opens(old(StoreView()), packet.View()) then Opened(old(StoreView()), packet.View())
                             else old(StoreView())
    {
      hide Finalized;
      hide Begun;
      hide StoreView;
      StoreFields();
      var pid := packet.header.pid;
      var startNewIteration := false;
      if pid !in currentIterations {
        NotOpen(pid);
        startNewIteration := true;
      } else if packet.header.payloadUnitStart {
        FinalizeIteration(pid);
        startNewIteration := true;
      }
      if startNewIteration {
        BeginIteration(packet);
      }
    }

    lemma StoreFields()
      ensures StoreView().open == currentIterations
    {}

    lemma NotOpen(pid: nat)
      requires StoreView().Consistent() && pid !in StoreView().open
      ensures Finalized(StoreView(), pid) == StoreView()
    {}

    method BeginIteration(packet: TSPacket)
      modifies this`currentIterationIds, this`currentIterations, storage`nextIterationId
      ensures StoreView() == Begun(old(StoreView()), packet.View())
      ensures storage.streams == old(storage.streams)
    {
      var pid := packet.header.pid;
      var id := storage.GenerateIterationID();
      currentIterationIds := currentIterationIds[pid := id];
      currentIterations := currentIterations[pid := NewIteration(packet.View())];
    }

    // ----------------------------------------------------------------------------------------
    // PSI and PCR
    // ----------------------------------------------------------------------------------------

    /** Adds a payload to an accumulator and takes out the section it completes. */
    static method Reassemble(accumulator: Acc.PSIAccumulator, payload: seq<Byte>, start: bool)
      returns (section: Option<seq<Byte>>)
      requires accumulator.View().Consistent()
      modifies accumulator
      ensures accumulator.View() == Kept(old(accumulator.View()), payload, start)
      ensures section == Delivered(old(accumulator.View()), payload, start)
    {
      hide Acc.Added;
      hide Acc.Completes;
      section := None;
      var done := accumulator.AddData(payload, start);
      if done {
        var taken := accumulator.GetSection();
        section := Some(taken);
      }
    }

    method ReassemblePat(payload: seq<Byte>, start: bool) returns (section: Option<seq<Byte>>)
      requires PsiObjectsDistinct() && patAccumulator.View().Consistent()
      modifies patAccumulator
      ensures patAccumulator.View() == Kept(old(patAccumulator.View()), payload, start)
      ensures section == Delivered(old(patAccumulator.View()), payload, start)
      ensures PmtViews() == old(PmtViews())
    {
      hide Kept;
      hide Delivered;
      section := Reassemble(patAccumulator, payload, start);
    }

    method ReassemblePmt(pid: nat, payload: seq<Byte>, start: bool) returns (section: Option<seq<Byte>>)
      requires PsiObjectsDistinct() && pid in pmtAccumulators && PmtViews()[pid].Consistent()
      modifies pmtAccumulators.Values
      ensures PmtViews() == old(PmtViews())[pid := Kept(old(PmtViews())[pid], payload, start)]
      ensures section == Delivered(old(PmtViews())[pid], payload, start)
      ensures patAccumulator.View() == old(patAccumulator.View())
    {
      hide Kept;
      hide Delivered;
      section := Reassemble(pmtAccumulators[pid], payload, start);
    }

    /** A payload on the PAT PID. */
    method ProcessPat(payload: seq<Byte>, start: bool)
      requires PsiObjectsDistinct() && PsiView().Consistent()
      modifies this`pmtAccumulators, this`parsedPat, patAccumulator
      ensures PsiObjectsDistinct() && fresh(pmtAccumulators.Values - old(pmtAccumulators.Values))
      ensures PsiView() == PatStep(old(PsiView()), payload, start)
    {
      hide WithPmts;
      hide Kept;
      hide Delivered;
      hide Psi.DecodePat;
      hide PmtViews;
      hide PsiObjectsDistinct;
      var section := ReassemblePat(payload, start);
      if section.Some? {
        var pat := Psi.ParsePAT(section.value);
        if pat.Some? {
          parsedPat := pat;
          CreatePmtAccumulators(pat.value.programs);
        }
      }
    }

    /** New accumulators for the PMT PIDs of a program list; the network entry is skipped. */
    method CreatePmtAccumulators(entries: seq<Psi.PatEntry>)
      requires PsiObjectsDistinct()
      modifies this`pmtAccumulators
      ensures PsiObjectsDistinct() && fresh(pmtAccumulators.Values - old(pmtAccumulators.Values))
      ensures PmtViews() == WithPmts(old(PmtViews()), entries, Acc.EMPTY)
    {
      for i := 0 to |entries|
        invariant PsiObjectsDistinct() && fresh(pmtAccumulators.Values - old(pmtAccumulators.Values))
        invariant WithPmts(PmtViews(), entries[i..], Acc.EMPTY) == WithPmts(old(PmtViews()), entries, Acc.EMPTY)
      {
        assert entries[i..][1..] == entries[i + 1..];
        if entries[i].programNumber != 0 {
          var _ := AddPmtAccumulator(entries[i].pid);
        }
      }
    }

    method AddPmtAccumulator(pid: nat) returns (a: Acc.PSIAccumulator)
      requires PsiObjectsDistinct()
      modifies this`pmtAccumulators
      ensures PsiObjectsDistinct() && fresh(a) && pmtAccumulators == old(pmtAccumulators)[pid := a]
      ensures PmtViews() == old(PmtViews())[pid := Acc.EMPTY]
    {
      a := new Acc.PSIAccumulator();
      pmtAccumulators := pmtAccumulators[pid := a];
    }

    lemma PmtKeys(pid: nat)
      ensures pid in PmtViews() <==> pid in pmtAccumulators
    {}

    /** A payload on a PMT PID. */
    method ProcessPmt(pid: nat, payload: seq<Byte>, start: bool)
      requires PsiObjectsDistinct() && PsiView().Consistent() && pid in pmtAccumulators
      modifies this`parsedPmts, pmtAccumulators.Values
      ensures PsiView() == PmtStep(old(PsiView()), pid, payload, start)
    {
      hide Kept;
      hide Delivered;
      hide Psi.DecodePmt;
      PmtKeys(pid);
      hide PmtViews;
      hide PsiObjectsDistinct;
      var section := ReassemblePmt(pid, payload, start);
      if section.Some? {
        var pmt := Psi.ParsePMT(section.value);
        if pmt.Some? {
          parsedPmts := parsedPmts[pmt.value.programNumber := pmt.value];
        }
      }
    }

    method ProcessPSIPacket(packet: TSPacket)
      requires PsiObjectsDistinct() && PsiView().Consistent()
      modifies this`pmtAccumulators, this`parsedPat, this`parsedPmts, patAccumulator, pmtAccumulators.Values
      ensures PsiObjectsDistinct() && fresh(pmtAccumulators.Values - old(pmtAccumulators.Values))
      ensures PsiView() == PsiStep(old(PsiView()), packet.View())
    {
      hide PatStep;
      hide PmtStep;
      if packet.header.pid == 0x0000 && packet.hasPayload {
        ProcessPat(packet.payload, packet.header.payloadUnitStart);
      } else if packet.header.pid in pmtAccumulators && packet.hasPayload {
        ProcessPmt(packet.header.pid, packet.payload, packet.header.payloadUnitStart);
      }
    }

    method GetOrCreateTracker(pid: nat) returns (tracker: PCRTracker)
      requires TrackersDistinct() && Bounded(TrackerViews())
      modifies this`pcrTrackers
      ensures TrackersDistinct() && fresh(pcrTrackers.Values - old(pcrTrackers.Values))
      ensures pid in pcrTrackers && tracker == pcrTrackers[pid]
      ensures TrackerViews() ==
        if pid in old(TrackerViews()) then old(TrackerViews()) else old(TrackerViews())[pid := EMPTY_TRACKER]
    {
      assert pid in pcrTrackers <==> pid in TrackerViews();
      if pid !in pcrTrackers {
        tracker := new PCRTracker();
        pcrTrackers := pcrTrackers[pid := tracker];
      }
      tracker := pcrTrackers[pid];
    }

    method UpdateTracker(pid: nat, pcr: Pcr, cc: nat)
      requires TrackersDistinct() && Bounded(TrackerViews()) && pid in TrackerViews()
      modifies pcrTrackers.Values
      ensures TrackerViews() ==
        old(TrackerViews())[pid := Tracked(old(TrackerViews())[pid], Sample(pcr, totalPacketsProcessed, cc))]
    {
      hide Tracked;
      assert TrackerViews()[pid] == pcrTrackers[pid].View();
      pcrTrackers[pid].AddPCR(pcr, totalPacketsProcessed, cc);
    }

    lemma NoTracker(pid: nat)
      requires Bounded(TrackerViews())
      ensures Bounded(TrackerViews()[pid := EMPTY_TRACKER])
    {}

    method AddToTracker(pid: nat, pcr: Pcr, cc: nat)
      requires TrackersDistinct() && Bounded(TrackerViews())
      modifies this`pcrTrackers, pcrTrackers.Values
      ensures TrackersDistinct() && fresh(pcrTrackers.Values - old(pcrTrackers.Values))
      ensures var t := if pid in old(TrackerViews()) then old(TrackerViews())[pid] else EMPTY_TRACKER;
        TrackerViews() == old(TrackerViews())[pid := Tracked(t, Sample(pcr, totalPacketsProcessed, cc))]
    {
      hide Tracked;
      hide TrackerViews;
      hide Bounded;
      hide TrackersDistinct;
      NoTracker(pid);
      var _ := GetOrCreateTracker(pid);
      UpdateTracker(pid, pcr, cc);
    }

    method ProcessPCR(packet: TSPacket)
      requires TrackersDistinct() && Bounded(TrackerViews())
      modifies this`pcrTrackers, pcrTrackers.Values
      ensures TrackersDistinct() && fresh(pcrTrackers.Values - old(pcrTrackers.Values))
      ensures TrackerViews() == ClockStep(old(TrackerViews()), packet.View(), totalPacketsProcessed)
    {
      hide Tracked;
      hide TrackerViews;
      hide TrackersDistinct;
      hide Bounded;
      if !packet.hasAdaptation || !packet.adaptationField.pcrFlag {
        return;
      }
      var pcr := Pcr(packet.adaptationField.pcrBase, packet.adaptationField.pcrExtension);
      if pcr.IsValid() {
        AddToTracker(packet.header.pid, pcr, packet.header.cc);
      }
    }

    // ----------------------------------------------------------------------------------------
    // The buffer
    // ----------------------------------------------------------------------------------------

    /** The part of a packet's processing that touches the PSI state only. */
    method ProcessSections(packet: TSPacket)
      requires PsiObjectsDistinct() && PsiView().Consistent()
      modifies this`pmtAccumulators, this`parsedPat, this`parsedPmts, patAccumulator, pmtAccumulators.Values
      ensures PsiObjectsDistinct() && fresh(pmtAccumulators.Values - old(pmtAccumulators.Values))
      ensures PsiView() == PsiStep(old(PsiView()), packet.View())
      ensures StoreView() == old(StoreView()) && TrackerViews() == old(TrackerViews())
    {
      hide PsiStep;
      hide StoreView;
      hide PsiView;
      hide TrackerViews;
      hide PmtViews;
      hide PsiObjectsDistinct;
      hide PsiState.Consistent;
      ProcessPSIPacket(packet);
    }

    /** The part of a packet's processing that touches the trackers only. */
    method ProcessClock(packet: TSPacket)
      requires TrackersDistinct() && Bounded(TrackerViews())
      modifies this`pcrTrackers, pcrTrackers.Values
      ensures TrackersDistinct() && fresh(pcrTrackers.Values - old(pcrTrackers.Values))
      ensures TrackerViews() == ClockStep(old(TrackerViews()), packet.View(), totalPacketsProcessed)
      ensures StoreView() == old(StoreView()) && PsiView() == old(PsiView())
    {
      hide ClockStep;
      hide Bounded;
      hide StoreView;
      hide PsiView;
      hide TrackerViews;
      hide TrackersDistinct;
      ProcessPCR(packet);
    }

    /** The part of a packet's processing that touches the storage only. */
    method ProcessPayload(packet: TSPacket)
      requires storage.Valid() && StoreView().Consistent()
      modifies this`currentIterationIds, this`currentIterations, this`lastCc, storage, storage.streams.Values
      ensures storage.Valid() && fresh(storage.streams.Values - old(storage.streams.Values))
      ensures StoreView() == Stored(old(StoreView()), Table(), packet.View())
      ensures PsiView() == old(PsiView()) && TrackerViews() == old(TrackerViews())
    {
      hide Stored;
      hide StoreView;
      hide PsiView;
      hide TrackerViews;
      hide PmtViews;
      AddPacketToStorage(packet);
    }

    /** Everything but the storage. */
    method ProcessControl(packet: TSPacket)
      requires PsiObjectsDistinct() && PsiView().Consistent() && TrackersDistinct() && Bounded(TrackerViews())
      modifies this`pmtAccumulators, this`parsedPat, this`parsedPmts, this`pcrTrackers,
        patAccumulator, pmtAccumulators.Values, pcrTrackers.Values
      ensures PsiObjectsDistinct() && TrackersDistinct()
      ensures fresh(pmtAccumulators.Values - old(pmtAccumulators.Values))
      ensures fresh(pcrTrackers.Values - old(pcrTrackers.Values))
      ensures PsiView() == PsiStep(old(PsiView()), packet.View())
      ensures TrackerViews() == ClockStep(old(TrackerViews()), packet.View(), totalPacketsProcessed)
      ensures StoreView() == old(StoreView())
    {
      hide *;
      ProcessSections(packet);
      ProcessClock(packet);
    }

    /** What the loop of `processBuffer` does with a packet that parsed. */
    method ProcessPacket(packet: TSPacket)
      requires storage.Valid() && PsiObjectsDistinct() && TrackersDistinct()
      requires StoreView().Consistent() && PsiView().Consistent() && Bounded(TrackerViews())
      modifies this`currentIterationIds, this`currentIterations, this`lastCc, this`pmtAccumulators, this`parsedPat,
        this`parsedPmts, this`pcrTrackers, this`totalPacketsProcessed,
        storage, storage.streams.Values, patAccumulator, pmtAccumulators.Values, pcrTrackers.Values
      ensures storage.Valid() && PsiObjectsDistinct() && TrackersDistinct()
      ensures fresh(storage.streams.Values - old(storage.streams.Values))
      ensures fresh(pmtAccumulators.Values - old(pmtAccumulators.Values))
      ensures fresh(pcrTrackers.Values - old(pcrTrackers.Values))
      ensures StoreView() == Stored(old(StoreView()), Table(), packet.View())
      ensures PsiView() == PsiStep(old(PsiView()), packet.View())
      ensures TrackerViews() == ClockStep(old(TrackerViews()), packet.View(), old(totalPacketsProcessed))
      ensures totalPacketsProcessed == old(totalPacketsProcessed) + 1
    {
      hide *;
      ProcessControl(packet);
      ProcessPayload(packet);
      totalPacketsProcessed := totalPacketsProcessed + 1;
    }

    // ----------------------------------------------------------------------------------------
    // Synchronisation
    // ----------------------------------------------------------------------------------------

    /** A new packet object, parsed from the block at a position. */
    static method ParseAt(buf: seq<Byte>, pos: nat) returns (packet: TSPacket, ok: bool)
      requires pos + 188 <= |buf|
      ensures fresh(packet) && packet.View() == ParsedAt(buf, pos) && ok == packet.valid == PacketAt(buf, pos)
    {
      hide ParseInto;
      packet := new TSPacket();
      ok := packet.Parse(BlockAt(buf, pos));
    }

    /** The greedy search of `tryFindValidIteration` for two packets that follow the one at `start`. */
    static method SearchFrom(buf: seq<Byte>, start: nat) returns (found: bool)
      requires start + MIN_SYNC <= |buf|
      ensures found <==> Admits(buf, start)
    {
      hide Parse;
      hide BelongsTo;
      hide BlockAt;
      ValidSync(buf, start);
      if buf[start] != SYNC_BYTE {
        return false;
      }
      var packet1, ok := ParseAt(buf, start);
      if !ok || !packet1.valid {
        return false;
      }
      var candidates := [packet1.View()];
      ghost var at: seq<nat> := [start];
      var searchPos := start + 1;
      var maxSearch := SearchLimit(buf, start);
      ghost var from := start + 1;
      while |candidates| < 3 && searchPos + PACKET_SIZE <= maxSearch
        invariant 1 <= |at| == |candidates| <= 3 && at[0] == start && start < from <= searchPos
        invariant forall i | 0 <= i < |at| :: at[i] + 188 <= |buf| && candidates[i] == ParsedAt(buf, at[i])
        invariant |at| == 1 ==> from == start + 1
        invariant |at| == 2 ==> from == at[1] + 188
        invariant |at| >= 2 ==> start < at[1] && NextMatch(buf, start, start + 1, maxSearch, at[1])
        invariant |at| == 3 ==> NextMatch(buf, at[1], at[1] + 188, maxSearch, at[2])
        invariant |at| < 3 ==> NoneFollows(buf, at[|at| - 1], from, searchPos)
        decreases maxSearch - searchPos
      {
        ValidSync(buf, searchPos);
        if buf[searchPos] == SYNC_BYTE {
          var candidate, parsed := ParseAt(buf, searchPos);
          if parsed && candidate.valid {
            if BelongsTo(candidates[|candidates| - 1], candidate.View()) {
              candidates := candidates + [candidate.View()];
              at := at + [searchPos];
              searchPos := searchPos + PACKET_SIZE;
              from := searchPos;
              continue;
            }
          }
        }
        searchPos := searchPos + 1;
      }
      if |candidates| < 3 {
        NoChain(buf, start, at, from, searchPos);
        return false;
      }
      assert Chain(buf, start, at[1], at[2]);
      for i := 1 to |candidates| {
        if !BelongsTo(candidates[i - 1], candidates[i]) {
          return false;
        }
      }
      return true;
    }

    static lemma ValidSync(buf: seq<Byte>, pos: nat)
      requires pos + 188 <= |buf|
      ensures PacketAt(buf, pos) ==> buf[pos] == SYNC_BYTE
    {
      hide HeaderFields;
      hide HeaderOk;
      hide AdaptationInto;
      hide AdaptationOk;
    }

    /** If the search ends with fewer than three packets, no chain starts there. */
    static lemma NoChain(buf: seq<Byte>, start: nat, at: seq<nat>, from: nat, to: nat)
      requires start + MIN_SYNC <= |buf| && 1 <= |at| <= 2 && at[0] == start && at[|at| - 1] + 188 <= |buf|
      requires |at| == 1 ==> from == start + 1
      requires |at| == 2 ==> from == at[1] + 188 && NextMatch(buf, start, start + 1, SearchLimit(buf, start), at[1])
      requires to + 188 > SearchLimit(buf, start) && NoneFollows(buf, at[|at| - 1], from, to)
      ensures !Admits(buf, start)
    {
      hide Parse;
      hide BelongsTo;
      hide BlockAt;
      hide Follows;
    }

    /** Finds the least start whose greedy search succeeds. */
    method TryFindValidIteration() returns (found: bool)
      modifies this`syncOffset
      ensures found == FirstSync(rawBuffer).Some?
      ensures syncOffset == if found then FirstSync(rawBuffer).value else old(syncOffset)
    {
      hide Admits;
      if |rawBuffer| < MIN_SYNC {
        return false;
      }
      var maxStartPos := |rawBuffer| - MIN_SYNC;
      for startPos := 0 to maxStartPos + 1
        invariant syncOffset == old(syncOffset)
        invariant forall s | 0 <= s < startPos :: !Admits(rawBuffer, s)
      {
        var admitted := SearchFrom(rawBuffer, startPos);
        if admitted {
          syncOffset := startPos;
          return true;
        }
      }
      return false;
    }

    // ----------------------------------------------------------------------------------------
    // Feeding
    // ----------------------------------------------------------------------------------------

    /** One round of the loop of `processBuffer`, for a packet that parsed. */
    method DeliverPacket(packet: TSPacket)
      requires Sound() && packet !in repr
      modifies this`currentIterationIds, this`currentIterations, this`lastCc, this`pmtAccumulators, this`parsedPat,
        this`parsedPmts, this`pcrTrackers, this`totalPacketsProcessed, this`repr, repr
      ensures Sound()
      ensures fresh(repr - old(repr))
      ensures CoreView() == PacketStep(old(CoreView()), Table(), old(packet.View()))
    {
      hide PsiStep;
      hide ClockStep;
      hide Stored;
      hide Bounded;
      hide PsiState.Consistent;
      hide StoreView;
      hide PsiView;
      hide TrackerViews;
      hide PsiObjectsDistinct;
      hide TrackersDistinct;
      hide DemuxerStreamStorage.Valid;
      ghost var step := PacketStep(CoreView(), Table(), packet.View());
      ProcessPacket(packet);
      repr := repr + storage.streams.Values + pmtAccumulators.Values + pcrTrackers.Values;
    }

    /** Delivers the packet at the current offset and moves past it, unless it does not parse. */
    method DeliverNext() returns (delivered: bool)
      requires Sound() && syncOffset + 188 <= |rawBuffer|
      modifies this`currentIterationIds, this`currentIterations, this`lastCc, this`pmtAccumulators, this`parsedPat,
        this`parsedPmts, this`pcrTrackers, this`totalPacketsProcessed, this`syncOffset, this`repr, repr
      ensures Sound()
      ensures fresh(repr - old(repr))
      ensures delivered == PacketAt(rawBuffer, old(syncOffset))
      ensures syncOffset == old(syncOffset) + if delivered then 188 else 0
      ensures CoreView() == if delivered then PacketStep(old(CoreView()), Table(), ParsedAt(rawBuffer, old(syncOffset)))
                            else old(CoreView())
    {
      hide PacketStep;
      hide Parse;
      hide BlockAt;
      hide CoreView;
      hide Owned;
      hide ObjectsDistinct;
      hide Core.Consistent;
      ValidSync(rawBuffer, syncOffset);
      if rawBuffer[syncOffset] != SYNC_BYTE {
        return false;
      }
      var packet, parsed := ParseAt(rawBuffer, syncOffset);
      if !parsed || !packet.valid {
        return false;
      }
      DeliverPacket(packet);
      syncOffset := syncOffset + PACKET_SIZE;
      return true;
    }

    /** The loop of `processBuffer`: delivers packets until the buffer runs short of a block or a
        block does not parse. */
    method DeliverPackets() returns (lost: bool)
      requires Sound() && syncOffset <= |rawBuffer|
      modifies this`currentIterationIds, this`currentIterations, this`lastCc, this`pmtAccumulators, this`parsedPat,
        this`parsedPmts, this`pcrTrackers, this`totalPacketsProcessed, this`syncOffset, this`repr, repr
      ensures Sound()
      ensures fresh(repr - old(repr))
      ensures Progress(old(CoreView()), Table(), rawBuffer, old(syncOffset), syncOffset, CoreView())
      ensures lost == (syncOffset + 188 <= |rawBuffer|)
      ensures !PacketAt(rawBuffer, syncOffset)
    {
      hide PacketStep;
      hide Progress;
      hide PacketAt;
      hide CoreView;
      hide Owned;
      hide ObjectsDistinct;
      hide Core.Consistent;
      ghost var core, table, buf, start := CoreView(), Table(), rawBuffer, syncOffset;
      NoProgress(core, table, buf, start);
      while syncOffset + PACKET_SIZE <= |rawBuffer|
        invariant Sound() && fresh(repr - old(repr))
        invariant Progress(core, table, buf, start, syncOffset, CoreView())
        decreases |rawBuffer| - syncOffset
      {
        MoreProgress(core, table, buf, start, syncOffset, CoreView());
        var delivered := DeliverNext();
        if !delivered {
          return true;
        }
      }
      NoBlockLeft(buf, syncOffset);
      return false;
    }

    /** Delivering every packet from `start` up to `pos` leads from one core state to another. */
    static ghost predicate Progress(from: Core, table: Option<set<nat>>, buf: seq<Byte>, start: nat, pos: nat,
      to: Core) {
      && from.Consistent() && start <= pos <= |buf| && (pos - start) % 188 == 0
      && var n := (pos - start) / 188;
         GoodBlocks(buf, start) == n + GoodBlocks(buf, pos) && to == PacketSteps(from, table, Packets(buf, start, n))
    }

    static lemma NoProgress(core: Core, table: Option<set<nat>>, buf: seq<Byte>, start: nat)
      requires core.Consistent() && start <= |buf|
      ensures Progress(core, table, buf, start, start, core)
    {
      hide GoodBlocks;
      hide PacketStep;
    }

    static lemma NoBlockLeft(buf: seq<Byte>, pos: nat)
      requires pos + 188 > |buf|
      ensures !PacketAt(buf, pos)
    {}

    static lemma MoreProgress(from: Core, table: Option<set<nat>>, buf: seq<Byte>, start: nat, pos: nat, to: Core)
      requires Progress(from, table, buf, start, pos, to) && to.Consistent()
      ensures pos + 188 <= |buf| && PacketAt(buf, pos) ==>
        Progress(from, table, buf, start, pos + 188, PacketStep(to, table, ParsedAt(buf, pos)))
      ensures pos + 188 > |buf| || !PacketAt(buf, pos) ==> (pos - start) / 188 == GoodBlocks(buf, start)
    {
      hide PacketStep;
      hide ParsedAt;
      hide TsPacket.Valid;
      var n := (pos - start) / 188;
      assert pos == start + 188 * n;
      assert GoodBlocks(buf, pos) == if PacketAt(buf, pos) then 1 + GoodBlocks(buf, pos + 188) else 0;
      hide GoodBlocks;
      if PacketAt(buf, pos) {
        hide PacketAt;
        assert (pos + 188 - start) / 188 == n + 1;
        var ps := Packets(buf, start, n + 1);
        assert ps[..|ps| - 1] == Packets(buf, start, n);
      }
    }

    method ProcessBuffer()
      requires Sound() && syncOffset == 0
      modifies this`currentIterationIds, this`currentIterations, this`lastCc, this`pmtAccumulators, this`parsedPat,
        this`parsedPmts, this`pcrTrackers, this`totalPacketsProcessed, this`syncOffset, this`rawBuffer,
        this`isSynchronized, this`repr, repr
      ensures Sound() && syncOffset == 0
      ensures fresh(repr - old(repr))
      ensures View() == Processed(old(View()))
    {
      hide PacketAt;
      hide Processed;
      hide Progress;
      hide FirstSync;
      hide CoreView;
      hide Owned;
      hide ObjectsDistinct;
      hide Core.Consistent;
      ghost var s := View();
      FirstSyncInside(rawBuffer);
      if !isSynchronized {
        var found := TryFindValidIteration();
        if found {
          isSynchronized := true;
        } else {
          SearchFailed(s);
          return;
        }
      }
      ghost var start := syncOffset;
      var lost := DeliverPackets();
      Outcome(s, start, syncOffset, CoreView());
      if lost {
        isSynchronized := false;
        syncOffset := 0;
        return;
      }
      if syncOffset > 0 {
        rawBuffer := rawBuffer[syncOffset..];
        syncOffset := 0;
      }
    }

    static lemma FirstSyncInside(buf: seq<Byte>)
      ensures FirstSync(buf).Some? ==> FirstSync(buf).value <= |buf|
    {
      hide Admits;
    }

    static lemma SearchFailed(s: State)
      requires s.core.Consistent() && !s.synced && FirstSync(s.buffer).None?
      ensures Processed(s) == s
    {}

    /** What processing a buffer amounts to once its packets have been delivered. */
    static lemma Outcome(s: State, start: nat, pos: nat, core: Core)
      requires Progress(s.core, s.table, s.buffer, start, pos, core) && !PacketAt(s.buffer, pos)
      requires if s.synced then start == 0 else FirstSync(s.buffer) == Some(start)
      ensures pos <= |s.buffer|
      ensures Processed(s) == if pos + 188 <= |s.buffer| then State(core, s.table, s.buffer, false)
                              else State(core, s.table, s.buffer[pos..], true)
    {
      hide PacketSteps;
      hide Packets;
      hide FirstSync;
      hide TsPacket.Valid;
    }

    /** Adds data to the buffer, which keeps the most recent octets. */
    method AppendData(data: seq<Byte>)
      requires Sound()
      modifies this`rawBuffer
      ensures Sound() && CoreView() == old(CoreView())
      ensures rawBuffer == Clipped(old(rawBuffer) + data)
    {
      hide CoreView;
      hide Owned;
      hide ObjectsDistinct;
      hide Core.Consistent;
      rawBuffer := rawBuffer + data;
      if |rawBuffer| > MAX_BUFFER {
        var overflow := |rawBuffer| - MAX_BUFFER;
        rawBuffer := rawBuffer[overflow..];
      }
    }

    method FeedData(data: seq<Byte>)
      requires Valid()
      modifies this, this`repr, repr
      ensures Valid() && history == old(history) + [Feed(data)]
      ensures fresh(repr - old(repr))
      ensures View() == Fed(old(View()), data)
    {
      hide CoreView;
      hide Owned;
      hide ObjectsDistinct;
      hide Core.Consistent;
      hide Processed;
      hide Clipped;
      hide Run;
      RunSnoc(history, Feed(data));
      history := history + [Feed(data)];
      if |data| == 0 {
        return;
      }
      AppendData(data);
      ProcessBuffer();
    }

    // ----------------------------------------------------------------------------------------
    // Getters and clearing
    // ----------------------------------------------------------------------------------------

    /** Finalizes the open iterations, PID by PID in any order. */
    method FinalizeAllIterations()
      requires storage.Valid() && StoreView().Consistent()
      modifies this`currentIterationIds, this`currentIterations, storage`streams, storage.streams.Values
      ensures storage.Valid() && fresh(storage.streams.Values - old(storage.streams.Values))
      ensures StoreView() == FinalizedAll(old(StoreView()))
    {
      hide Finalized;
      hide StoreView;
      StoreFields();
      var pids := currentIterations.Keys;
      while pids != {}
        invariant storage.Valid() && fresh(storage.streams.Values - old(storage.streams.Values))
        invariant StoreView().Consistent() && StoreView().open.Keys == pids
        invariant FinalizedAll(StoreView()) == FinalizedAll(old(StoreView()))
        decreases pids
      {
        var pid :| pid in pids;
        FinalizedFirst(StoreView(), pid);
        FinalizeIteration(pid);
        pids := pids - {pid};
      }
      NothingOpen(StoreView());
    }

    static lemma FinalizedFirst(s: Store, pid: nat)
      requires s.Consistent() && pid in s.open
      ensures var t := Finalized(s, pid); t.Consistent() && t.open.Keys == s.open.Keys - {pid}
      ensures FinalizedAll(Finalized(s, pid)) == FinalizedAll(s)
    {
      var t := Finalized(s, pid);
      assert FinalizedAll(t).streams.entries.Keys == FinalizedAll(s).streams.entries.Keys;
      assert forall p | p in FinalizedAll(s).streams.entries ::
        FinalizedAll(t).streams.entries[p] == FinalizedAll(s).streams.entries[p];
    }

    static lemma NothingOpen(s: Store)
      requires s.Consistent() && s.open.Keys == {}
      ensures FinalizedAll(s) == s
    {
      assert s.open == map[] && s.openIds == map[];
    }

    /** Finalizing leaves PSI state and trackers alone. */
    method FlushStore()
      requires storage.Valid() && StoreView().Consistent()
      modifies this`currentIterationIds, this`currentIterations, storage`streams, storage.streams.Values
      ensures storage.Valid() && fresh(storage.streams.Values - old(storage.streams.Values))
      ensures StoreView() == FinalizedAll(old(StoreView()))
      ensures PsiView() == old(PsiView()) && TrackerViews() == old(TrackerViews())
    {
      hide PsiView;
      hide TrackerViews;
      hide StoreView;
      FinalizeAllIterations();
    }

    method RemoveStored(pid: nat, id: nat)
      requires storage.Valid()
      modifies storage`streams, storage.streams.Values
      ensures storage.Valid() && fresh(storage.streams.Values - old(storage.streams.Values))
      ensures StoreView() == old(StoreView()).(streams := old(StoreView()).streams.(
        entries := old(StoreView()).streams.entries[pid := Without(old(StoreView()).streams.Of(pid), id)]))
      ensures PsiView() == old(PsiView()) && TrackerViews() == old(TrackerViews())
    {
      hide PsiView;
      hide TrackerViews;
      hide Without;
      storage.Remove(pid, id);
    }

    method ClearStored(pid: nat)
      requires storage.Valid()
      modifies storage.streams.Values
      ensures StoreView() == if pid !in old(StoreView()).streams.entries then old(StoreView()) else
        old(StoreView()).(streams := old(StoreView()).streams.(entries := old(StoreView()).streams.entries[pid := []]))
      ensures PsiView() == old(PsiView()) && TrackerViews() == old(TrackerViews())
    {
      hide PsiView;
      hide TrackerViews;
      storage.ClearStream(pid);
    }

    method EmptyStorage()
      requires storage.Valid()
      modifies storage
      ensures storage.Valid() && storage.streams == map[]
      ensures StoreView() == old(StoreView()).(streams := NEW_CORE.store.streams)
      ensures PsiView() == old(PsiView()) && TrackerViews() == old(TrackerViews())
    {
      hide PsiView;
      hide TrackerViews;
      storage.Clear();
    }

    method EmptyOpen()
      modifies this`currentIterations, this`currentIterationIds, this`lastCc
      ensures StoreView() == Store(old(StoreView()).streams, map[], map[], map[])
      ensures PsiView() == old(PsiView()) && TrackerViews() == old(TrackerViews())
    {
      currentIterations, currentIterationIds, lastCc := map[], map[], map[];
    }

    /** Moves the open iterations to the storage. */
    method FlushAll()
      requires Sound()
      modifies this`currentIterationIds, this`currentIterations, this`lastCc, this`repr, repr
      ensures Sound() && fresh(repr - old(repr))
      ensures CoreView() == old(CoreView()).(store := FinalizedAll(old(CoreView()).store))
    {
      hide PsiView;
      hide TrackerViews;
      hide StoreView;
      hide PsiState.Consistent;
      hide Bounded;
      hide PsiObjectsDistinct;
      hide TrackersDistinct;
      hide DemuxerStreamStorage.Valid;
      hide FinalizedAll;
      FlushKeepsConsistency(StoreView());
      FlushStore();
      repr := repr + storage.streams.Values;
    }

    /** What the getters do first. */
    method FinalizeForGetter()
      requires Valid()
      modifies this, repr
      ensures Valid() && history == old(history) + [Flush] && fresh(repr - old(repr))
      ensures View() == Flushed(old(View()))
    {
      hide CoreView;
      hide Owned;
      hide ObjectsDistinct;
      hide Core.Consistent;
      hide Run;
      RunSnoc(history, Flush);
      hide FinalizedAll;
      FlushAll();
      history := history + [Flush];
    }

    static lemma FlushKeepsConsistency(s: Store)
      requires s.Consistent()
      ensures FinalizedAll(s).Consistent()
    {}

    method GetIterationsSummary(pid: nat) returns (result: seq<IterationInfo>)
      requires Valid()
      modifies this, repr
      ensures Valid() && history == old(history) + [Flush] && fresh(repr - old(repr))
      ensures View() == Flushed(old(View()))
      ensures result == Summaries(View().core.store.streams.Of(pid))
    {
      FinalizeForGetter();
      hide PsiView;
      hide TrackerViews;
      hide Run;
      hide Flushed;
      if pid !in storage.streams {
        return [];
      }
      result := storage.streams[pid].Summarize();
    }

    method GetDiscoveredPIDs() returns (pids: set<nat>)
      requires Valid()
      modifies this, repr
      ensures Valid() && history == old(history) + [Flush] && fresh(repr - old(repr))
      ensures View() == Flushed(old(View()))
      ensures pids == View().core.store.streams.entries.Keys
    {
      FinalizeForGetter();
      hide PsiView;
      hide TrackerViews;
      hide Run;
      hide Flushed;
      pids := storage.streams.Keys;
    }

    /** The first payload of a kind of a stored iteration; open iterations are not visible. */
    method GetPayload(pid: nat, id: nat, kind: PayloadType) returns (buffer: Option<PayloadBuffer>)
      requires Valid()
      ensures buffer ==
        var it := Lookup(View().core.store.streams.Of(pid), id);
        if it.None? then None else
        var k := FirstOfKind(it.value.payloads, kind);
        if k < |it.value.payloads| then Some(BufferOf(it.value, it.value.payloads[k])) else None
    {
      hide PsiView;
      hide TrackerViews;
      hide Run;
      if pid !in storage.streams {
        return None;
      }
      var found := storage.streams[pid].GetIteration(id);
      if found.None? {
        return None;
      }
      var payloads := found.value.payloads;
      var k := 0;
      while k < |payloads| && payloads[k].kind != kind
        invariant k <= FirstOfKind(payloads, kind)
      {
        k := k + 1;
      }
      if k < |payloads| {
        return Some(BufferOf(found.value, payloads[k]));
      }
      return None;
    }

    method GetAllPayloads(pid: nat, id: nat) returns (result: seq<PayloadBuffer>)
      requires Valid()
      ensures result ==
        var it := Lookup(View().core.store.streams.Of(pid), id);
        if it.None? then [] else Buffers(it.value)
    {
      hide PsiView;
      hide TrackerViews;
      hide Run;
      if pid !in storage.streams {
        return [];
      }
      var found := storage.streams[pid].GetIteration(id);
      if found.None? {
        return [];
      }
      result := [];
      for i := 0 to |found.value.payloads|
        invariant result == Buffers(found.value)[..i]
      {
        result := result + [BufferOf(found.value, found.value.payloads[i])];
      }
    }

    /** Removes a stored iteration. */
    method RemoveIteration(pid: nat, id: nat)
      requires Sound()
      modifies this`currentIterationIds, this`currentIterations, this`lastCc, this`repr, repr
      ensures Sound() && fresh(repr - old(repr))
      ensures CoreView() == old(CoreView()).(store := old(CoreView()).store.(
        streams := old(CoreView()).store.streams.(entries :=
          old(CoreView()).store.streams.entries[pid := Without(old(CoreView()).store.streams.Of(pid), id)])))
    {
      hide PsiView;
      hide TrackerViews;
      hide StoreView;
      hide PsiState.Consistent;
      hide Bounded;
      hide PsiObjectsDistinct;
      hide TrackersDistinct;
      hide DemuxerStreamStorage.Valid;
      hide Without;
      RemoveStored(pid, id);
      repr := repr + storage.streams.Values;
    }

    /** Empties a stream. */
    method RemoveStream(pid: nat)
      requires Sound()
      modifies this`currentIterationIds, this`currentIterations, this`lastCc, this`repr, repr
      ensures Sound() && fresh(repr - old(repr))
      ensures CoreView() == old(CoreView()).(store :=
        if pid !in old(CoreView()).store.streams.entries then old(CoreView()).store else
        old(CoreView()).store.(streams := old(CoreView()).store.streams.(entries :=
          old(CoreView()).store.streams.entries[pid := []])))
    {
      hide PsiView;
      hide TrackerViews;
      hide StoreView;
      hide PsiState.Consistent;
      hide Bounded;
      hide PsiObjectsDistinct;
      hide TrackersDistinct;
      hide DemuxerStreamStorage.Valid;
      ClearStored(pid);
    }

    /** Empties the storage. */
    method RemoveStreams()
      requires Sound()
      modifies this`currentIterationIds, this`currentIterations, this`lastCc, this`repr, repr
      ensures Sound() && fresh(repr - old(repr))
      ensures CoreView() == old(CoreView()).(store := old(CoreView()).store.(streams := NEW_CORE.store.streams))
    {
      hide PsiView;
      hide TrackerViews;
      hide StoreView;
      hide PsiState.Consistent;
      hide Bounded;
      hide PsiObjectsDistinct;
      hide TrackersDistinct;
      hide DemuxerStreamStorage.Valid;
      EmptyStorage();
    }

    /** Drops the open iterations and the counters. */
    method RemoveOpen()
      requires Sound()
      modifies this`currentIterationIds, this`currentIterations, this`lastCc, this`repr, repr
      ensures Sound() && fresh(repr - old(repr))
      ensures CoreView() == old(CoreView()).(store := Store(old(CoreView()).store.streams, map[], map[], map[]))
    {
      hide PsiView;
      hide TrackerViews;
      hide StoreView;
      hide PsiState.Consistent;
      hide Bounded;
      hide PsiObjectsDistinct;
      hide TrackersDistinct;
      hide DemuxerStreamStorage.Valid;
      EmptyOpen();
    }

    method ClearIteration(pid: nat, id: nat)
      requires Valid()
      modifies this, repr
      ensures Valid() && history == old(history) + [Op.ClearIteration(pid, id)] && fresh(repr - old(repr))
      ensures View() == WithoutIteration(old(View()), pid, id)
    {
      hide CoreView;
      hide Owned;
      hide ObjectsDistinct;
      hide Core.Consistent;
      hide Run;
      RunSnoc(history, Op.ClearIteration(pid, id));
      RemoveIteration(pid, id);
      history := history + [Op.ClearIteration(pid, id)];
    }

    method ClearStream(pid: nat)
      requires Valid()
      modifies this, repr
      ensures Valid() && history == old(history) + [Op.ClearStream(pid)] && fresh(repr - old(repr))
      ensures View() == WithoutStream(old(View()), pid)
    {
      hide CoreView;
      hide Owned;
      hide ObjectsDistinct;
      hide Core.Consistent;
      hide Run;
      RunSnoc(history, Op.ClearStream(pid));
      RemoveStream(pid);
      history := history + [Op.ClearStream(pid)];
    }

    /** The part of `clearAll` that touches the storage and the open iterations. */
    method ClearIterations()
      requires Sound()
      modifies this`currentIterationIds, this`currentIterations, this`lastCc, this`repr, repr
      ensures Sound() && fresh(repr - old(repr))
      ensures CoreView() == old(CoreView()).(store := NEW_CORE.store)
    {
      hide CoreView;
      hide Owned;
      hide ObjectsDistinct;
      hide Core.Consistent;
      hide FinalizedAll;
      FlushAll();
      RemoveStreams();
      RemoveOpen();
    }

    method ClearAll()
      requires Valid()
      modifies this, repr
      ensures Valid() && history == old(history) + [Op.ClearAll] && fresh(repr - old(repr))
      ensures View() == ClearedAll(old(View()))
    {
      hide CoreView;
      hide Owned;
      hide ObjectsDistinct;
      hide Core.Consistent;
      hide Run;
      RunSnoc(history, Op.ClearAll);
      ClearIterations();
      rawBuffer := [];
      isSynchronized := false;
      history := history + [Op.ClearAll];
    }

    /** Sets the PIDs of all programs of a table as the filter, and empties the storage. */
    method SetProgramsTable(programs: map<nat, seq<nat>>)
      requires Valid()
      modifies this, repr
      ensures var pids := set n, pid | n in programs && pid in programs[n] :: pid;
        Valid() && history == old(history) + [SetTable(pids)] && fresh(repr - old(repr))
        && View() == WithTable(old(View()), pids)
    {
      hide CoreView;
      hide Owned;
      hide ObjectsDistinct;
      hide Core.Consistent;
      hide Run;
      var pids := set n, pid | n in programs && pid in programs[n] :: pid;
      RunSnoc(history, SetTable(pids));
      programsTableAvailable := true;
      knownProgramPids := pids;
      RemoveStreams();
      history := history + [SetTable(pids)];
    }
  }
}
