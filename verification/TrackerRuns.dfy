/** What the PCR trackers of a demultiplexer hold. The packet parser skips the six octets of a PCR, so
    in every run every sample is zero, and the statistics never move. */
module TrackerRuns {
  import opened Bytes
  import opened TsPacket
  import opened PcrTracking
  import opened DemuxSteps
  import opened DemuxModel
  import opened Chunking
  import opened Reachability
  import opened Feeding

  /** A packet with the PCR flag and a valid PCR adds one sample to the tracker of its PID, which keeps
      the last 1000, and touches no other; any other packet touches none. */
  lemma OneSample(trackers: map<nat, TrackerState>, p: Packet, number: nat, pid: nat)
    ensures var now := ClockStep(trackers, p, number);
      var counts := p.hasAdaptation && p.adaptation.pcrFlag && p.adaptation.pcrBase < 0x2_0000_0000
        && p.adaptation.pcrExtension < 300;
      if counts && pid == p.header.pid then
        var had := if pid in trackers then trackers[pid].samples else [];
        var all := had + [Sample(Pcr(p.adaptation.pcrBase, p.adaptation.pcrExtension), number, p.header.cc)];
        pid in now && now[pid].samples == if |all| <= 1000 then all else all[|all| - 1000..]
      else Get(now, pid) == Get(trackers, pid)
  {
    hide Average;
    hide Interval;
    hide Usable;
    hide Jumps;
    hide Jitter;
  }

  predicate AllZero(s: seq<Sample>) {
    forall i | 0 <= i < |s| :: s[i].pcr == Pcr(0, 0)
  }

  /** All samples are zero, and the statistics have their initial values. */
  predicate Quiet(t: TrackerState) {
    AllZero(t.samples) && t.averageIntervalMs == 0.0 && t.maxJitterMs == 0.0 && !t.discontinuity
  }

  predicate AllQuiet(trackers: map<nat, TrackerState>) {
    forall pid | pid in trackers :: Quiet(trackers[pid])
  }

  lemma {:induction false} NothingUsable(s: seq<Sample>)
    requires AllZero(s)
    ensures UsableCount(s) == 0
    decreases |s|
  {
    hide Interval;
    if |s| >= 2 {
      SameClock(s[|s| - 2], s[|s| - 1]);
      NothingUsable(s[..|s| - 1]);
    }
  }

  lemma TrackedQuiet(t: TrackerState, x: Sample)
    requires Quiet(t) && x.pcr == Pcr(0, 0)
    ensures Quiet(Tracked(t, x))
  {
    hide Interval;
    hide UsableCount;
    hide UsableSum;
    var samples := Last(t.samples + [x], MAX_SAMPLES);
    assert AllZero(samples) && AllZero(Last(samples, RECENT_SAMPLES));
    NothingUsable(Last(samples, RECENT_SAMPLES));
    if t.samples != [] { SameClock(t.samples[|t.samples| - 1], x); }
  }

  predicate NoPcr(p: Packet) {
    p.adaptation.pcrBase == 0 && p.adaptation.pcrExtension == 0
  }

  /** No block is parsed into a packet with a PCR. */
  lemma ParsedWithoutPcr(data: Block)
    ensures NoPcr(TsPacket.Parse(data))
  {}

  lemma ClockQuiet(trackers: map<nat, TrackerState>, p: Packet, number: nat)
    requires AllQuiet(trackers) && NoPcr(p)
    ensures AllQuiet(ClockStep(trackers, p, number))
  {
    var pid := p.header.pid;
    var t := if pid in trackers then trackers[pid] else EMPTY_TRACKER;
    TrackedQuiet(t, Sample(Pcr(0, 0), number, p.header.cc));
    hide Tracked;
    hide Quiet;
  }

  lemma {:induction false} StepsQuiet(c: Core, table: Option<set<nat>>, ps: seq<Packet>)
    requires c.Consistent() && AllQuiet(c.trackers) && forall p | p in ps :: NoPcr(p)
    ensures AllQuiet(PacketSteps(c, table, ps).trackers)
    decreases |ps|
  {
    hide Stored;
    hide PsiStep;
    hide AllQuiet;
    hide NoPcr;
    if ps != [] {
      var init, p := ps[..|ps| - 1], ps[|ps| - 1];
      assert p in ps && forall q | q in init :: q in ps;
      StepsQuiet(c, table, init);
      var d := PacketSteps(c, table, init);
      ClockQuiet(d.trackers, p, d.packets);
      hide ClockStep;
      hide Core.Consistent;
    }
  }

  lemma DeliveredWithoutPcr(s: State, chunk: seq<Byte>)
    ensures forall p | p in DeliveredBy(s, chunk) :: NoPcr(p)
  {
    hide DeliveryStart;
    hide GoodBlocks;
    hide Clipped;
    hide NoPcr;
    forall data: Block ensures NoPcr(TsPacket.Parse(data)) { ParsedWithoutPcr(data); }
    hide TsPacket.Parse;
  }

  lemma OtherStepsKeepTrackers(s: State, op: Op)
    requires s.core.Consistent()
    ensures !op.Feed? ==> Step(s, op).core.trackers == s.core.trackers
  {
    hide Fed;
    hide FinalizedAll;
    hide Core.Consistent;
  }

  lemma NewIsQuiet()
    ensures AllQuiet(Run([]).core.trackers)
  {}

  /** After every run, whatever is fed. */
  lemma {:induction false} RunTrackersQuiet(ops: seq<Op>)
    ensures AllQuiet(Run(ops).core.trackers)
    decreases |ops|
  {
    hide *;
    if ops == [] {
      NewIsQuiet();
    } else {
      var s, op := Run(ops[..|ops| - 1]), ops[|ops| - 1];
      LastCall(ops);
      RunTrackersQuiet(ops[..|ops| - 1]);
      if op.Feed? {
        FeedIsFed(s, op.chunk);
        FeedingDelivers(s, op.chunk);
        DeliveredWithoutPcr(s, op.chunk);
        StepsQuiet(s.core, s.table, DeliveredBy(s, op.chunk));
      } else {
        OtherStepsKeepTrackers(s, op);
      }
    }
  }

  // ------------------------------------------------------------------------------------------
  // Which samples
  // ------------------------------------------------------------------------------------------

  /** All packets a run has delivered, in order. */
  ghost function AllDelivered(ops: seq<Op>): seq<Packet>
    decreases |ops|
  {
    if ops == [] then [] else
    var init, op := ops[..|ops| - 1], ops[|ops| - 1];
    AllDelivered(init) + if op.Feed? then DeliveredBy(Run(init), op.chunk) else []
  }

  /** One sample for every packet of the PID with the PCR flag: its place among all packets, and its
      counter. */
  function SamplesOf(pid: nat, ps: seq<Packet>): seq<Sample> {
    if ps == [] then [] else
    var n := |ps| - 1;
    SamplesOf(pid, ps[..n]) +
      if ps[n].header.pid == pid && ps[n].hasAdaptation && ps[n].adaptation.pcrFlag
      then [Sample(Pcr(0, 0), n, ps[n].header.cc)] else []
  }

  function Recent(s: seq<Sample>): seq<Sample> {
    if |s| <= 1000 then s else s[|s| - 1000..]
  }

  /** The tracker of a PID after those packets: none if there is no sample. */
  predicate Holds(trackers: map<nat, TrackerState>, pid: nat, samples: seq<Sample>) {
    && (pid in trackers <==> samples != [])
    && (pid in trackers ==> trackers[pid].samples == Recent(samples))
  }

  lemma RecentAppended(s: seq<Sample>, x: Sample)
    ensures Recent(Recent(s) + [x]) == Recent(s + [x])
  {}

  lemma SamplesAppended(pid: nat, ps: seq<Packet>, p: Packet)
    ensures SamplesOf(pid, ps + [p]) == SamplesOf(pid, ps) +
      if p.header.pid == pid && p.hasAdaptation && p.adaptation.pcrFlag
      then [Sample(Pcr(0, 0), |ps|, p.header.cc)] else []
  {
    assert (ps + [p])[..|ps|] == ps;
  }

  lemma ClockHolds(trackers: map<nat, TrackerState>, p: Packet, pid: nat, ps: seq<Packet>)
    requires NoPcr(p) && Holds(trackers, pid, SamplesOf(pid, ps))
    ensures Holds(ClockStep(trackers, p, |ps|), pid, SamplesOf(pid, ps + [p]))
  {
    OneSample(trackers, p, |ps|, pid);
    SamplesAppended(pid, ps, p);
    RecentAppended(SamplesOf(pid, ps), Sample(Pcr(0, 0), |ps|, p.header.cc));
    assert [Sample(Pcr(0, 0), |ps|, p.header.cc)] == [] + [Sample(Pcr(0, 0), |ps|, p.header.cc)];
    hide ClockStep;
    hide SamplesOf;
  }

  lemma {:induction false} StepsHold(c: Core, table: Option<set<nat>>, before: seq<Packet>, ps: seq<Packet>, pid: nat)
    requires c.Consistent() && c.packets == |before| && Holds(c.trackers, pid, SamplesOf(pid, before))
    requires forall p | p in ps :: NoPcr(p)
    ensures var d := PacketSteps(c, table, ps);
      d.packets == |before + ps| && Holds(d.trackers, pid, SamplesOf(pid, before + ps))
    decreases |ps|
  {
    hide Stored;
    hide PsiStep;
    hide NoPcr;
    hide Holds;
    hide SamplesOf;
    hide Core.Consistent;
    if ps == [] {
      assert before + ps == before;
    } else {
      var init, p := ps[..|ps| - 1], ps[|ps| - 1];
      assert p in ps && forall q | q in init :: q in ps;
      StepsHold(c, table, before, init, pid);
      ClockHolds(PacketSteps(c, table, init).trackers, p, pid, before + init);
      assert before + init + [p] == before + ps;
      hide ClockStep;
    }
  }

  lemma NewHolds(pid: nat)
    ensures Run([]).core.packets == 0 && AllDelivered([]) == []
    ensures Holds(Run([]).core.trackers, pid, SamplesOf(pid, []))
  {}

  lemma OtherStepsKeepCount(s: State, op: Op)
    requires s.core.Consistent()
    ensures !op.Feed? ==> Step(s, op).core.packets == s.core.packets
  {
    hide Fed;
    hide FinalizedAll;
    hide Core.Consistent;
  }

  lemma LastDelivered(ops: seq<Op>)
    requires ops != []
    ensures var init, op := ops[..|ops| - 1], ops[|ops| - 1];
      AllDelivered(ops) ==
        if op.Feed? then AllDelivered(init) + DeliveredBy(Run(init), op.chunk) else AllDelivered(init)
  {
    hide Run;
    hide DeliveredBy;
  }

  /** After every run, clears and all, the packet count is the number of packets delivered, and the
      tracker of a PID holds the last 1000 of its packets with the PCR flag, each with its place among
      all packets delivered; there is a tracker exactly for the PIDs that had one. */
  lemma {:induction false} RunSamplesExactly(ops: seq<Op>, pid: nat)
    ensures Run(ops).core.packets == |AllDelivered(ops)|
    ensures Holds(Run(ops).core.trackers, pid, SamplesOf(pid, AllDelivered(ops)))
    decreases |ops|
  {
    hide *;
    if ops == [] {
      NewHolds(pid);
    } else {
      var s, op := Run(ops[..|ops| - 1]), ops[|ops| - 1];
      LastCall(ops);
      LastDelivered(ops);
      RunSamplesExactly(ops[..|ops| - 1], pid);
      if op.Feed? {
        FeedIsFed(s, op.chunk);
        FeedingDelivers(s, op.chunk);
        DeliveredWithoutPcr(s, op.chunk);
        StepsHold(s.core, s.table, AllDelivered(ops[..|ops| - 1]), DeliveredBy(s, op.chunk), pid);
      } else {
        OtherStepsKeepTrackers(s, op);
        OtherStepsKeepCount(s, op);
      }
    }
  }
}
