/** PAT and PMT delivery in runs: the packets are those that calls deliver. */
module PsiRuns {
  import opened Bytes
  import opened TsPacket
  import opened Psi
  import opened DemuxSteps
  import opened DemuxModel
  import opened Reachability
  import opened Feeding
  import opened PsiDelivery

  lemma {:induction false} PsiStepsAppend(s: PsiState, ps: seq<Packet>, qs: seq<Packet>)
    ensures PsiSteps(s, ps + qs) == PsiSteps(PsiSteps(s, ps), qs)
    decreases |qs|
  {
    hide PsiStep;
    if qs == [] {
      assert ps + qs == ps;
    } else {
      var init := qs[..|qs| - 1];
      assert (ps + qs)[..|ps + qs| - 1] == ps + init;
      PsiStepsAppend(s, ps, init);
    }
  }

  lemma PsiOne(s: PsiState, p: Packet)
    ensures PsiSteps(s, [p]) == PsiStep(s, p)
  {
    assert [p][..0] == [];
    hide PsiStep;
  }

  /** What calls do to the PSI state. */
  lemma PsiOfFeeds(ops: seq<Op>, chunks: seq<seq<Byte>>)
    ensures Run(ops + Feeds(chunks)).core.psi == PsiSteps(Run(ops).core.psi, Deliveries(Run(ops), chunks))
  {
    hide *;
    RunFeeds(ops, chunks);
    FedAllDelivers(Run(ops), chunks);
    PsiOfPacketSteps(Run(ops).core, Run(ops).table, Deliveries(Run(ops), chunks));
  }

  lemma PsiOfParts(s: PsiState, before: seq<Packet>, first: Packet, ps: seq<Packet>)
    ensures PsiSteps(s, before + [first] + ps) == PsiSteps(PsiStep(PsiSteps(s, before), first), ps)
  {
    hide *;
    PsiStepsAppend(s, before + [first], ps);
    PsiStepsAppend(s, before, [first]);
    PsiOne(PsiSteps(s, before), first);
  }

  /** After any run, calls of any cut that deliver a PAT, among other packets, make it the parsed PAT
      exactly when its last octet is among what they have delivered. */
  lemma RunPatArrives(ops: seq<Op>, chunks: seq<seq<Byte>>, before: seq<Packet>, first: Packet, ps: seq<Packet>, t: Pat,
    skipped: seq<Byte>, fragment: seq<Byte>)
    requires Deliveries(Run(ops), chunks) == before + [first] + ps
    requires WellFormedPat(t) && StartsWith(0, first, skipped, fragment) && OnlyContinuations(0, ps)
    requires Arrives(EncodePat(t), fragment + JoinedPayloads(0, ps))
    ensures var received, now := fragment + JoinedPayloads(0, ps), Run(ops + Feeds(chunks)).core.psi;
      && now.parsedPat ==
           (if |received| >= |EncodePat(t)| then Some(t) else PsiSteps(Run(ops).core.psi, before).parsedPat)
      && (|received| >= |EncodePat(t)| ==> AllListed(now, t))
  {
    hide *;
    PsiOfFeeds(ops, chunks);
    PsiOfParts(Run(ops).core.psi, before, first, ps);
    PatArrives(PsiSteps(Run(ops).core.psi, before), first, ps, t, skipped, fragment);
  }

  /** The same for a PMT whose PID has an accumulator when its first packet is delivered: the last
      packet delivered changes the parsed PMTs exactly if it brings the last octet. */
  lemma RunPmtArrives(ops: seq<Op>, chunks: seq<seq<Byte>>, before: seq<Packet>, first: Packet, ps: seq<Packet>,
    p: Packet, pid: nat, t: Pmt, skipped: seq<Byte>, fragment: seq<Byte>)
    requires Deliveries(Run(ops), chunks) == before + [first] + ps + [p]
    requires WellFormedPmt(t) && pid != 0 && pid in PsiSteps(Run(ops).core.psi, before).pmts
    requires StartsWith(pid, first, skipped, fragment) && OnlyContinuations(pid, ps)
    requires On(pid, p) && !p.header.payloadUnitStart
    requires Arrives(EncodePmt(t), fragment + JoinedPayloads(pid, ps) + p.payload)
    requires NeverRelists(PsiSteps(Run(ops).core.psi, before + [first]), ps, pid)
    ensures var received := fragment + JoinedPayloads(pid, ps);
      var was := PsiSteps(Run(ops).core.psi, before + [first] + ps).parsedPmts;
      Run(ops + Feeds(chunks)).core.psi.parsedPmts ==
        if |received| < |EncodePmt(t)| <= |received + p.payload| then was[t.programNumber := t] else was
  {
    hide *;
    var s := Run(ops).core.psi;
    PsiOfFeeds(ops, chunks);
    PsiOfParts(s, before, first, ps);
    PsiOfParts(s, before + [first] + ps, p, []);
    NothingMore(PsiStep(PsiSteps(s, before + [first] + ps), p));
    assert before + [first] + ps + [p] + [] == before + [first] + ps + [p];
    PsiOfParts(s, before, first, []);
    NothingMore(PsiStep(PsiSteps(s, before), first));
    assert before + [first] + [] == before + [first];
    PmtArrives(PsiSteps(s, before), first, ps, p, pid, t, skipped, fragment);
  }

  lemma NothingMore(s: PsiState)
    ensures PsiSteps(s, []) == s
  {}

  // ------------------------------------------------------------------------------------------
  // Every run
  // ------------------------------------------------------------------------------------------

  lemma OtherCallsKeepPsi(s: State, op: Op)
    requires s.core.Consistent()
    ensures !op.Feed? ==> Step(s, op).core.psi == s.core.psi
  {
    hide Fed;
    hide FinalizedAll;
    hide Core.Consistent;
  }

  lemma NewIsGenuine()
    ensures Genuine(Run([]).core.psi) && AllRegular(Run([]).core.psi)
  {}

  /** After every run, whatever is fed, the parsed PAT and every parsed PMT come from sections whose
      CRC verified, and every accumulator expects what its section announces. */
  lemma {:induction false} RunIsGenuine(ops: seq<Op>)
    ensures Genuine(Run(ops).core.psi) && AllRegular(Run(ops).core.psi)
    decreases |ops|
  {
    hide *;
    if ops == [] {
      NewIsGenuine();
    } else {
      var s, op := Run(ops[..|ops| - 1]), ops[|ops| - 1];
      LastCall(ops);
      RunIsGenuine(ops[..|ops| - 1]);
      if op.Feed? {
        FeedIsFed(s, op.chunk);
        FeedingDelivers(s, op.chunk);
        PsiOfPacketSteps(s.core, s.table, DeliveredBy(s, op.chunk));
        PsiStepsGenuine(s.core.psi, DeliveredBy(s, op.chunk));
      } else {
        OtherCallsKeepPsi(s, op);
      }
    }
  }
}
