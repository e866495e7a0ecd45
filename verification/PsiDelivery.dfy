/** PAT and PMT sections from packets to tables: what arrives in pieces, among packets of other PIDs,
    is the table that was sent, at the moment its last octet arrives. */
module PsiDelivery {
  import opened Bytes
  import opened TsPacket
  import opened Psi
  import Crc32
  import Acc = PsiAccumulation
  import opened PsiAccumulation
  import opened DemuxSteps

  /** The PSI state after a sequence of packets. */
  function PsiSteps(s: PsiState, ps: seq<Packet>): PsiState
    decreases |ps|
  {
    if ps == [] then s else PsiStep(PsiSteps(s, ps[..|ps| - 1]), ps[|ps| - 1])
  }

  /** It is part of what the demultiplexer keeps. */
  lemma {:induction false} PsiOfPacketSteps(c: Core, table: Option<set<nat>>, ps: seq<Packet>)
    requires c.Consistent()
    ensures PacketSteps(c, table, ps).psi == PsiSteps(c.psi, ps)
    decreases |ps|
  {
    hide PsiStep;
    hide ClockStep;
    hide Stored;
    if ps != [] { PsiOfPacketSteps(c, table, ps[..|ps| - 1]); }
  }

  // ------------------------------------------------------------------------------------------
  // One accumulator
  // ------------------------------------------------------------------------------------------

  /** What arrives is a section, or the start of one, or a section and any stuffing. */
  predicate Arrives(section: seq<Byte>, received: seq<Byte>) {
    received <= section || section <= received
  }

  /** The accumulator of a section of which `received` has arrived so far. */
  predicate Receiving(a: Acc.Acc, section: seq<Byte>, received: seq<Byte>) {
    if |received| < |section| then Holds(a, section, received) else a == EMPTY
  }

  lemma Starts(a: Acc.Acc, section: seq<Byte>, skipped: seq<Byte>, fragment: seq<Byte>)
    requires IsSection(section) && |skipped| < 256 && fragment != [] && Arrives(section, fragment)
    ensures var payload := [|skipped|] + skipped + fragment;
      && Receiving(Kept(a, payload, true), section, fragment)
      && Delivered(a, payload, true) == if |fragment| >= |section| then Some(section) else None
  {
    assert [] + fragment == fragment;
    SectionStarts(a, section, skipped, fragment);
    hide Added;
    hide Completes;
    hide AnnouncedSize;
  }

  lemma Continued(a: Acc.Acc, section: seq<Byte>, received: seq<Byte>, piece: seq<Byte>)
    requires IsSection(section) && Receiving(a, section, received) && Arrives(section, received + piece)
    ensures var total := received + piece;
      && Receiving(Kept(a, piece, false), section, total)
      && Delivered(a, piece, false) ==
           if |received| < |section| <= |total| then Some(section) else None
  {
    if |received| < |section| {
      SectionContinues(a, section, received, piece);
      hide Added;
      hide Completes;
      hide AnnouncedSize;
    }
  }

  // ------------------------------------------------------------------------------------------
  // Packets
  // ------------------------------------------------------------------------------------------

  predicate On(pid: nat, p: Packet) {
    p.hasPayload && p.header.pid == pid
  }

  /** The payloads of a PID, joined. */
  function JoinedPayloads(pid: nat, ps: seq<Packet>): seq<Byte> {
    if ps == [] then [] else
    var p := ps[|ps| - 1];
    JoinedPayloads(pid, ps[..|ps| - 1]) + if On(pid, p) then p.payload else []
  }

  /** No unit starts on the PID. */
  predicate OnlyContinuations(pid: nat, ps: seq<Packet>) {
    forall i | 0 <= i < |ps| && On(pid, ps[i]) :: !ps[i].header.payloadUnitStart
  }

  /** A packet that starts a unit with a pointer field, skipped octets and a first fragment. */
  predicate StartsWith(pid: nat, p: Packet, skipped: seq<Byte>, fragment: seq<Byte>) {
    && On(pid, p) && p.header.payloadUnitStart
    && |skipped| < 256 && fragment != [] && p.payload == [|skipped|] + skipped + fragment
  }

  lemma PrefixArrives(section: seq<Byte>, received: seq<Byte>, piece: seq<Byte>)
    requires Arrives(section, received + piece)
    ensures Arrives(section, received)
  {}

  // ------------------------------------------------------------------------------------------
  // The PAT
  // ------------------------------------------------------------------------------------------

  /** The table lists the PID as one of a PMT. */
  predicate Lists(t: Pat, pid: nat) {
    exists i | 0 <= i < |t.programs| :: t.programs[i].programNumber != 0 && t.programs[i].pid == pid
  }

  lemma {:induction false} WithPmtsListed(pmts: map<nat, Acc.Acc>, entries: seq<PatEntry>, pid: nat)
    ensures var listed := exists i | 0 <= i < |entries| :: entries[i].programNumber != 0 && entries[i].pid == pid;
      Get(WithPmts(pmts, entries, EMPTY), pid) == if listed then Some(EMPTY) else Get(pmts, pid)
    decreases |entries|
  {
    if entries != [] {
      var e, rest := entries[0], entries[1..];
      WithPmtsListed(if e.programNumber != 0 then pmts[e.pid := EMPTY] else pmts, rest, pid);
      assert forall i | 1 <= i < |entries| :: entries[i] == rest[i - 1];
    }
  }

  /** The state while a PAT is received. */
  predicate PatPhase(s: PsiState, before: Option<Pat>, section: seq<Byte>, t: Pat, received: seq<Byte>) {
    && Receiving(s.pat, section, received)
    && s.parsedPat == (if |received| >= |section| then Some(t) else before)
    && (|received| >= |section| ==> AllListed(s, t))
  }

  /** Every PMT PID of the table has an accumulator. */
  predicate AllListed(s: PsiState, t: Pat) {
    forall i | 0 <= i < |t.programs| && t.programs[i].programNumber != 0 :: t.programs[i].pid in s.pmts
  }

  lemma PatCompleted(s: PsiState, payload: seq<Byte>, start: bool, section: seq<Byte>, t: Pat)
    requires DecodePat(section) == Some(t) && Delivered(s.pat, payload, start) == Some(section)
    ensures var u := PatStep(s, payload, start);
      u.parsedPat == Some(t) && AllListed(u, t)
  {
    hide DecodePat;
    hide Kept;
    hide Delivered;
    forall i | 0 <= i < |t.programs| && t.programs[i].programNumber != 0
      ensures t.programs[i].pid in PatStep(s, payload, start).pmts
    {
      WithPmtsListed(s.pmts, t.programs, t.programs[i].pid);
    }
  }

  lemma PatPhaseStarts(s: PsiState, p: Packet, section: seq<Byte>, t: Pat, skipped: seq<Byte>, fragment: seq<Byte>)
    requires IsSection(section) && DecodePat(section) == Some(t)
    requires StartsWith(0, p, skipped, fragment) && Arrives(section, fragment)
    ensures PatPhase(PsiStep(s, p), s.parsedPat, section, t, fragment)
  {
    hide IsSection;
    hide Arrives;
    hide Receiving;
    hide DecodePat;
    hide Kept;
    hide Delivered;
    hide AllListed;
    Starts(s.pat, section, skipped, fragment);
    if |fragment| >= |section| { PatCompleted(s, p.payload, true, section, t); }
  }

  lemma OthersLeavePat(s: PsiState, p: Packet)
    requires !On(0, p)
    ensures var u := PsiStep(s, p);
      u.pat == s.pat && u.parsedPat == s.parsedPat && s.pmts.Keys <= u.pmts.Keys
  {
    hide DecodedPmt;
    hide Kept;
    hide Delivered;
  }

  lemma PatPhaseGoesOn(s: PsiState, before: Option<Pat>, p: Packet, section: seq<Byte>, t: Pat, received: seq<Byte>)
    requires IsSection(section) && DecodePat(section) == Some(t)
    requires PatPhase(s, before, section, t, received) && On(0, p) && !p.header.payloadUnitStart
    requires Arrives(section, received + p.payload)
    ensures PatPhase(PsiStep(s, p), before, section, t, received + p.payload)
  {
    hide IsSection;
    hide Arrives;
    hide Receiving;
    hide DecodePat;
    hide Kept;
    hide Delivered;
    Continued(s.pat, section, received, p.payload);
    if |received| < |section| <= |received + p.payload| {
      PatCompleted(s, p.payload, false, section, t);
    } else {
      hide WithPmts;
    }
  }

  lemma PatPhaseStays(s: PsiState, before: Option<Pat>, p: Packet, section: seq<Byte>, t: Pat, received: seq<Byte>)
    requires PatPhase(s, before, section, t, received) && !On(0, p)
    ensures PatPhase(PsiStep(s, p), before, section, t, received)
  {
    OthersLeavePat(s, p);
    hide PsiStep;
    hide Receiving;
  }

  lemma {:induction false} PatPhaseHolds(s: PsiState, first: Packet, ps: seq<Packet>, section: seq<Byte>, t: Pat,
    skipped: seq<Byte>, fragment: seq<Byte>)
    requires IsSection(section) && DecodePat(section) == Some(t)
    requires StartsWith(0, first, skipped, fragment) && OnlyContinuations(0, ps)
    requires Arrives(section, fragment + JoinedPayloads(0, ps))
    ensures PatPhase(PsiSteps(PsiStep(s, first), ps), s.parsedPat, section, t, fragment + JoinedPayloads(0, ps))
    decreases |ps|
  {
    hide IsSection;
    hide DecodePat;
    hide PsiStep;
    hide PatPhase;
    hide Arrives;
    hide On;
    if ps == [] {
      assert fragment + [] == fragment;
      PatPhaseStarts(s, first, section, t, skipped, fragment);
    } else {
      var init, p := ps[..|ps| - 1], ps[|ps| - 1];
      var received := fragment + JoinedPayloads(0, init);
      var piece := if On(0, p) then p.payload else [];
      assert fragment + JoinedPayloads(0, ps) == received + piece;
      PrefixArrives(section, received, piece);
      PatPhaseHolds(s, first, init, section, t, skipped, fragment);
      var u := PsiSteps(PsiStep(s, first), init);
      if On(0, p) {
        PatPhaseGoesOn(u, s.parsedPat, p, section, t, received);
      } else {
        assert received + [] == received;
        PatPhaseStays(u, s.parsedPat, p, section, t, received);
      }
    }
  }

  /** A PAT that arrives in a start packet and continuations, with packets of other PIDs anywhere
      among them and any stuffing after it, becomes the parsed PAT exactly when its last octet
      arrives: until then the parsed PAT is what it was. From then on every PMT PID it lists has an
      accumulator. */
  lemma PatArrives(s: PsiState, first: Packet, ps: seq<Packet>, t: Pat, skipped: seq<Byte>, fragment: seq<Byte>)
    requires WellFormedPat(t) && StartsWith(0, first, skipped, fragment) && OnlyContinuations(0, ps)
    requires Arrives(EncodePat(t), fragment + JoinedPayloads(0, ps))
    ensures var u, received := PsiSteps(PsiStep(s, first), ps), fragment + JoinedPayloads(0, ps);
      && u.parsedPat == (if |received| >= |EncodePat(t)| then Some(t) else s.parsedPat)
      && (|received| >= |EncodePat(t)| ==> AllListed(u, t))
  {
    hide WellFormedPat;
    hide EncodePat;
    PatIsSection(t);
    hide IsSection;
    hide DecodePat;
    hide Receiving;
    hide PsiStep;
    PatPhaseHolds(s, first, ps, EncodePat(t), t, skipped, fragment);
  }

  // ------------------------------------------------------------------------------------------
  // A PMT
  // ------------------------------------------------------------------------------------------

  /** The packet completes a PAT that lists the PID, which restarts its accumulator. */
  predicate Relists(s: PsiState, p: Packet, pid: nat) {
    On(0, p) &&
    var table := DecodedPat(Delivered(s.pat, p.payload, p.header.payloadUnitStart));
    table.Some? && Lists(table.value, pid)
  }

  predicate NeverRelists(s: PsiState, ps: seq<Packet>, pid: nat) {
    forall i | 0 <= i < |ps| :: !Relists(PsiSteps(s, ps[..i]), ps[i], pid)
  }

  lemma NoneBefore(s: PsiState, ps: seq<Packet>, pid: nat)
    requires ps != [] && NeverRelists(s, ps, pid)
    ensures var init := ps[..|ps| - 1];
      NeverRelists(s, init, pid) && !Relists(PsiSteps(s, init), ps[|ps| - 1], pid)
  {
    hide Relists;
    var init := ps[..|ps| - 1];
    assert forall i | 0 <= i < |init| :: ps[..i] == init[..i] && ps[i] == init[i];
  }

  /** Packets of other PIDs leave the accumulator of a PMT PID alone, unless they restart it. */
  lemma OthersLeaveAlone(s: PsiState, p: Packet, pid: nat)
    requires pid != 0 && !On(pid, p) && !Relists(s, p, pid)
    ensures Get(PsiStep(s, p).pmts, pid) == Get(s.pmts, pid)
  {
    hide DecodedPat;
    hide DecodedPmt;
    hide Kept;
    hide Delivered;
    if On(0, p) {
      var table := DecodedPat(Delivered(s.pat, p.payload, p.header.payloadUnitStart));
      if table.Some? { WithPmtsListed(s.pmts, table.value.programs, pid); }
    }
  }

  /** A packet on the PID changes the parsed PMTs by the table sent, or not at all. */
  lemma PmtPacket(s: PsiState, p: Packet, pid: nat, section: seq<Byte>, t: Pmt)
    requires pid != 0 && pid in s.pmts && On(pid, p) && DecodePmt(section) == Some(t)
    ensures var u, start := PsiStep(s, p), p.header.payloadUnitStart;
      && Get(u.pmts, pid) == Some(Kept(s.pmts[pid], p.payload, start))
      && (Delivered(s.pmts[pid], p.payload, start) == Some(section) ==>
            u.parsedPmts == s.parsedPmts[t.programNumber := t])
      && (Delivered(s.pmts[pid], p.payload, start) == None ==> u.parsedPmts == s.parsedPmts)
  {
    hide PatStep;
    hide DecodePmt;
    hide Kept;
    hide Delivered;
  }

  predicate PmtPhase(s: PsiState, pid: nat, section: seq<Byte>, received: seq<Byte>) {
    pid in s.pmts && Receiving(s.pmts[pid], section, received)
  }

  lemma PmtPhaseStarts(s: PsiState, p: Packet, pid: nat, section: seq<Byte>, t: Pmt, skipped: seq<Byte>,
    fragment: seq<Byte>)
    requires IsSection(section) && DecodePmt(section) == Some(t) && pid != 0 && pid in s.pmts
    requires StartsWith(pid, p, skipped, fragment) && Arrives(section, fragment)
    ensures PmtPhase(PsiStep(s, p), pid, section, fragment)
    ensures PsiStep(s, p).parsedPmts ==
      if |fragment| >= |section| then s.parsedPmts[t.programNumber := t] else s.parsedPmts
  {
    hide IsSection;
    hide DecodePmt;
    hide PsiStep;
    hide Kept;
    hide Delivered;
    hide Receiving;
    hide Arrives;
    Starts(s.pmts[pid], section, skipped, fragment);
    PmtPacket(s, p, pid, section, t);
  }

  lemma PmtPhaseGoesOn(s: PsiState, p: Packet, pid: nat, section: seq<Byte>, t: Pmt, received: seq<Byte>)
    requires IsSection(section) && DecodePmt(section) == Some(t) && pid != 0 && PmtPhase(s, pid, section, received)
    requires On(pid, p) && !p.header.payloadUnitStart && Arrives(section, received + p.payload)
    ensures PmtPhase(PsiStep(s, p), pid, section, received + p.payload)
    ensures PsiStep(s, p).parsedPmts ==
      if |received| < |section| <= |received + p.payload| then s.parsedPmts[t.programNumber := t] else s.parsedPmts
  {
    hide IsSection;
    hide DecodePmt;
    hide PsiStep;
    hide Kept;
    hide Delivered;
    hide Receiving;
    hide Arrives;
    Continued(s.pmts[pid], section, received, p.payload);
    PmtPacket(s, p, pid, section, t);
  }

  lemma {:induction false} PmtPhaseHolds(s: PsiState, first: Packet, ps: seq<Packet>, pid: nat, section: seq<Byte>,
    t: Pmt, skipped: seq<Byte>, fragment: seq<Byte>)
    requires IsSection(section) && DecodePmt(section) == Some(t) && pid != 0 && pid in s.pmts
    requires StartsWith(pid, first, skipped, fragment) && OnlyContinuations(pid, ps)
    requires Arrives(section, fragment + JoinedPayloads(pid, ps))
    requires NeverRelists(PsiStep(s, first), ps, pid)
    ensures PmtPhase(PsiSteps(PsiStep(s, first), ps), pid, section, fragment + JoinedPayloads(pid, ps))
    decreases |ps|
  {
    hide IsSection;
    hide DecodePmt;
    hide PsiStep;
    hide On;
    hide Arrives;
    hide Relists;
    hide Receiving;
    if ps == [] {
      assert fragment + [] == fragment;
      PmtPhaseStarts(s, first, pid, section, t, skipped, fragment);
    } else {
      var init, p := ps[..|ps| - 1], ps[|ps| - 1];
      var received := fragment + JoinedPayloads(pid, init);
      var piece := if On(pid, p) then p.payload else [];
      assert fragment + JoinedPayloads(pid, ps) == received + piece;
      PrefixArrives(section, received, piece);
      NoneBefore(PsiStep(s, first), ps, pid);
      hide NeverRelists;
      PmtPhaseHolds(s, first, init, pid, section, t, skipped, fragment);
      if On(pid, p) {
        PmtPhaseGoesOn(PsiSteps(PsiStep(s, first), init), p, pid, section, t, received);
      } else {
        assert received + [] == received;
        OthersLeaveAlone(PsiSteps(PsiStep(s, first), init), p, pid);
      }
    }
  }

  /** The same for a PMT on a PID that has an accumulator, as long as no PAT that lists the PID
      completes meanwhile: the packets of the PID change the parsed PMTs exactly when the last octet
      arrives, and then by the table that was sent. */
  lemma PmtArrives(s: PsiState, first: Packet, ps: seq<Packet>, p: Packet, pid: nat, t: Pmt,
    skipped: seq<Byte>, fragment: seq<Byte>)
    requires WellFormedPmt(t) && pid != 0 && pid in s.pmts
    requires StartsWith(pid, first, skipped, fragment) && OnlyContinuations(pid, ps)
    requires On(pid, p) && !p.header.payloadUnitStart
    requires Arrives(EncodePmt(t), fragment + JoinedPayloads(pid, ps) + p.payload)
    requires NeverRelists(PsiStep(s, first), ps, pid)
    ensures PsiStep(s, first).parsedPmts ==
      if |fragment| >= |EncodePmt(t)| then s.parsedPmts[t.programNumber := t] else s.parsedPmts
    ensures var u, received := PsiSteps(PsiStep(s, first), ps), fragment + JoinedPayloads(pid, ps);
      PsiStep(u, p).parsedPmts ==
        if |received| < |EncodePmt(t)| <= |received + p.payload| then u.parsedPmts[t.programNumber := t]
        else u.parsedPmts
  {
    hide *;
    PmtIsSection(t);
    var section, received := EncodePmt(t), fragment + JoinedPayloads(pid, ps);
    PrefixArrives(section, received, p.payload);
    PrefixArrives(section, fragment, JoinedPayloads(pid, ps));
    PmtPhaseStarts(s, first, pid, section, t, skipped, fragment);
    PmtPhaseHolds(s, first, ps, pid, section, t, skipped, fragment);
    PmtPhaseGoesOn(PsiSteps(PsiStep(s, first), ps), p, pid, section, t, received);
  }

  // ------------------------------------------------------------------------------------------
  // Damaged sections
  // ------------------------------------------------------------------------------------------

  /** Every accumulator expects what its section announces. */
  predicate AllRegular(s: PsiState) {
    Regular(s.pat) && forall pid | pid in s.pmts :: Regular(s.pmts[pid])
  }

  lemma KeptRegular(a: Acc.Acc, payload: seq<Byte>, start: bool)
    requires Regular(a)
    ensures Regular(Kept(a, payload, start))
  {
    AddedRegular(a, payload, start);
    hide Added;
    hide Completes;
  }

  lemma DeliveredRegular(a: Acc.Acc, payload: seq<Byte>, start: bool)
    requires Regular(a) && Delivered(a, payload, start).Some?
    ensures var section := Delivered(a, payload, start).value; |section| >= 3 && Announced(section) == |section|
    ensures Kept(a, payload, start) == EMPTY
  {
    CompletesRegular(a, payload, start);
    hide Added;
    hide Completes;
    hide Regular;
  }

  lemma WithPmtsRegular(pmts: map<nat, Acc.Acc>, entries: seq<PatEntry>)
    requires forall pid | pid in pmts :: Regular(pmts[pid])
    ensures forall pid | pid in WithPmts(pmts, entries, EMPTY) :: Regular(WithPmts(pmts, entries, EMPTY)[pid])
  {
    var now := WithPmts(pmts, entries, EMPTY);
    forall pid | pid in now ensures Regular(now[pid]) { WithPmtsListed(pmts, entries, pid); }
  }

  lemma PatStepRegular(s: PsiState, payload: seq<Byte>, start: bool)
    requires AllRegular(s)
    ensures AllRegular(PatStep(s, payload, start))
  {
    KeptRegular(s.pat, payload, start);
    var table := DecodedPat(Delivered(s.pat, payload, start));
    if table.Some? { WithPmtsRegular(s.pmts, table.value.programs); }
    hide Kept;
    hide Delivered;
    hide DecodedPat;
    hide Regular;
    hide WithPmts;
  }

  lemma PmtStepRegular(s: PsiState, pid: nat, payload: seq<Byte>, start: bool)
    requires AllRegular(s) && pid in s.pmts
    ensures AllRegular(PmtStep(s, pid, payload, start))
  {
    KeptRegular(s.pmts[pid], payload, start);
    hide Kept;
    hide Delivered;
    hide DecodedPmt;
    hide Regular;
  }

  lemma PsiStepRegular(s: PsiState, p: Packet)
    requires AllRegular(s)
    ensures AllRegular(PsiStep(s, p))
  {
    if On(0, p) {
      PatStepRegular(s, p.payload, p.header.payloadUnitStart);
    } else if p.header.pid in s.pmts && p.hasPayload {
      PmtStepRegular(s, p.header.pid, p.payload, p.header.payloadUnitStart);
    }
    hide AllRegular;
    hide PatStep;
    hide PmtStep;
  }

  /** A packet without payload, or on a PID that is neither 0 nor that of a PMT, leaves the PSI state
      alone. */
  lemma OtherPackets(s: PsiState, p: Packet)
    requires !p.hasPayload || (p.header.pid != 0 && p.header.pid !in s.pmts)
    ensures PsiStep(s, p) == s
  {
    hide PatStep;
    hide PmtStep;
  }

  lemma NotDecoded(section: seq<Byte>)
    requires |section| >= 3 && Announced(section) == |section| && Crc32.Crc(section) != 0
    ensures DecodePat(section) == None && DecodePmt(section) == None
  {
    assert section[..|section|] == section;
    PatParsesExactly(section);
    PmtParsesExactly(section);
    hide Crc32.Crc;
    hide DecodePat;
    hide DecodePmt;
    hide StreamsStart;
  }

  /** A completed PAT section whose CRC is not zero changes nothing but the accumulator, which is
      emptied: not the parsed PAT, nor the accumulators of PMTs. */
  lemma DamagedPatIgnored(s: PsiState, payload: seq<Byte>, start: bool)
    requires Regular(s.pat) && Delivered(s.pat, payload, start).Some?
    requires Crc32.Crc(Delivered(s.pat, payload, start).value) != 0
    ensures PatStep(s, payload, start) == s.(pat := EMPTY)
  {
    DeliveredRegular(s.pat, payload, start);
    NotDecoded(Delivered(s.pat, payload, start).value);
    hide Crc32.Crc;
    hide Delivered;
    hide Kept;
    hide DecodePat;
    hide Regular;
  }

  /** Nor does such a PMT section change the parsed PMTs. */
  lemma DamagedPmtIgnored(s: PsiState, pid: nat, payload: seq<Byte>, start: bool)
    requires pid in s.pmts && Regular(s.pmts[pid]) && Delivered(s.pmts[pid], payload, start).Some?
    requires Crc32.Crc(Delivered(s.pmts[pid], payload, start).value) != 0
    ensures PmtStep(s, pid, payload, start) == s.(pmts := s.pmts[pid := EMPTY])
  {
    DeliveredRegular(s.pmts[pid], payload, start);
    NotDecoded(Delivered(s.pmts[pid], payload, start).value);
    hide Crc32.Crc;
    hide Delivered;
    hide Kept;
    hide DecodePmt;
    hide Regular;
  }

  /** The table is what some intact section parses to. */
  ghost predicate GenuinePat(t: Pat) {
    exists d: seq<Byte> :: |d| >= 3 && Intact(d) && DecodePat(d) == Some(t)
  }

  ghost predicate GenuinePmt(t: Pmt) {
    exists d: seq<Byte> :: |d| >= 3 && Intact(d) && DecodePmt(d) == Some(t)
  }

  ghost predicate Genuine(s: PsiState) {
    && (s.parsedPat.Some? ==> GenuinePat(s.parsedPat.value))
    && forall n | n in s.parsedPmts :: GenuinePmt(s.parsedPmts[n])
  }

  lemma DecodedIsGenuine(section: Option<seq<Byte>>)
    ensures DecodedPat(section).Some? ==> GenuinePat(DecodedPat(section).value)
    ensures DecodedPmt(section).Some? ==> GenuinePmt(DecodedPmt(section).value)
  {
    if section.Some? {
      PatParsesExactly(section.value);
      PmtParsesExactly(section.value);
    }
    hide DecodePat;
    hide DecodePmt;
    hide Intact;
    hide StreamsStart;
    hide DecodeStreams;
  }

  lemma PatStepGenuine(s: PsiState, payload: seq<Byte>, start: bool)
    requires Genuine(s)
    ensures Genuine(PatStep(s, payload, start))
  {
    DecodedIsGenuine(Delivered(s.pat, payload, start));
    hide Delivered;
    hide Kept;
    hide DecodedPat;
    hide DecodedPmt;
    hide GenuinePat;
    hide GenuinePmt;
    hide WithPmts;
  }

  lemma PmtStepTables(s: PsiState, pid: nat, payload: seq<Byte>, start: bool)
    requires pid in s.pmts
    ensures var u, table := PmtStep(s, pid, payload, start), DecodedPmt(Delivered(s.pmts[pid], payload, start));
      && u.parsedPat == s.parsedPat
      && u.parsedPmts == if table.None? then s.parsedPmts else s.parsedPmts[table.value.programNumber := table.value]
  {
    hide Delivered;
    hide Kept;
    hide DecodedPmt;
  }

  lemma OneMorePmt(pmts: map<nat, Pmt>, table: Option<Pmt>)
    requires (forall n | n in pmts :: GenuinePmt(pmts[n])) && (table.Some? ==> GenuinePmt(table.value))
    ensures var now := if table.None? then pmts else pmts[table.value.programNumber := table.value];
      forall n | n in now :: GenuinePmt(now[n])
  {
    hide GenuinePmt;
  }

  lemma PmtStepGenuine(s: PsiState, pid: nat, payload: seq<Byte>, start: bool)
    requires Genuine(s) && pid in s.pmts
    ensures Genuine(PmtStep(s, pid, payload, start))
  {
    hide PmtStep;
    hide Delivered;
    hide DecodedPmt;
    hide GenuinePat;
    hide GenuinePmt;
    var section := Delivered(s.pmts[pid], payload, start);
    PmtStepTables(s, pid, payload, start);
    DecodedIsGenuine(section);
    OneMorePmt(s.parsedPmts, DecodedPmt(section));
  }

  lemma PsiStepGenuine(s: PsiState, p: Packet)
    requires Genuine(s)
    ensures Genuine(PsiStep(s, p))
  {
    if On(0, p) {
      PatStepGenuine(s, p.payload, p.header.payloadUnitStart);
    } else if p.header.pid in s.pmts && p.hasPayload {
      PmtStepGenuine(s, p.header.pid, p.payload, p.header.payloadUnitStart);
    }
    hide Genuine;
    hide PatStep;
    hide PmtStep;
  }

  lemma {:induction false} PsiStepsGenuine(s: PsiState, ps: seq<Packet>)
    requires Genuine(s) && AllRegular(s)
    ensures Genuine(PsiSteps(s, ps)) && AllRegular(PsiSteps(s, ps))
    decreases |ps|
  {
    hide Genuine;
    hide AllRegular;
    hide PsiStep;
    if ps != [] {
      PsiStepsGenuine(s, ps[..|ps| - 1]);
      PsiStepGenuine(PsiSteps(s, ps[..|ps| - 1]), ps[|ps| - 1]);
      PsiStepRegular(PsiSteps(s, ps[..|ps| - 1]), ps[|ps| - 1]);
    }
  }
}
