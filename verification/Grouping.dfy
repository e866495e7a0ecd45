/** What the stored and the open iterations of a PID hold after any sequence of packets and getter
    calls: a partition of the accepted packets of that PID, each part summarised. */
module Grouping {
  import opened Bytes
  import opened TsPacket
  import opened Storage
  import opened DemuxSteps
  import opened DemuxModel
  import opened Reachability

  datatype Event = Delivered(packet: Packet) | Finalize

  function Applied(s: Store, table: Option<set<nat>>, e: Event): (t: Store)
    requires s.Consistent()
    ensures t.Consistent()
  {
    match e
    case Delivered(p) => Stored(s, table, p)
    case Finalize => FinalizedAll(s)
  }

  /** The store after a sequence of events. */
  function After(table: Option<set<nat>>, events: seq<Event>): (s: Store)
    ensures s.Consistent()
    decreases |events|
  {
    if events == [] then NEW_CORE.store else
    Applied(After(table, events[..|events| - 1]), table, events[|events| - 1])
  }

  predicate Concerns(table: Option<set<nat>>, pid: nat, e: Event) {
    e.Delivered? && e.packet.header.pid == pid && Accepts(table, pid)
  }

  /** The accepted packets of a PID, in order. */
  function Accepted(table: Option<set<nat>>, pid: nat, events: seq<Event>): seq<Packet>
    decreases |events|
  {
    if events == [] then [] else
    var e := events[|events| - 1];
    Accepted(table, pid, events[..|events| - 1]) + if Concerns(table, pid, e) then [e.packet] else []
  }

  // ------------------------------------------------------------------------------------------
  // What an iteration holds
  // ------------------------------------------------------------------------------------------

  /** Consecutive packets of a PID, and the continuity counter of the packet before them. */
  datatype Group = Group(previous: Option<nat>, packets: seq<Packet>)

  datatype Piece = Piece(kind: PayloadType, bytes: seq<Byte>)

  function One(kind: PayloadType, bytes: seq<Byte>): seq<Piece> {
    if bytes == [] then [] else [Piece(kind, bytes)]
  }

  /** A packet contributes its private data, then its payload. */
  function PiecesOf(p: Packet): seq<Piece> {
    One(Private, p.PrivateData()) + One(Normal, PayloadOf(p))
  }

  function AllPieces(ps: seq<Packet>): seq<Piece> {
    if ps == [] then [] else AllPieces(ps[..|ps| - 1]) + PiecesOf(ps[|ps| - 1])
  }

  function Joined(pieces: seq<Piece>): seq<Byte> {
    if pieces == [] then [] else Joined(pieces[..|pieces| - 1]) + pieces[|pieces| - 1].bytes
  }

  /** Segments that lie back to back. */
  function Tiled(pieces: seq<Piece>): seq<Segment> {
    seq(|pieces|, i requires 0 <= i < |pieces| => Segment(pieces[i].kind, |pieces[i].bytes|, |Joined(pieces[..i])|))
  }

  function CcBefore(g: Group, i: nat): Option<nat>
    requires i < |g.packets|
  {
    if i == 0 then g.previous else Some(g.packets[i - 1].header.cc)
  }

  ghost predicate HasJump(g: Group) {
    exists i | 0 <= i < |g.packets| :: AnnouncedJump(CcBefore(g, i), g.packets[i])
  }

  /** The iteration that holds a group. */
  ghost function Iteration(g: Group): IterationData
    requires g.packets != []
  {
    var ps := g.packets;
    var pieces := AllPieces(ps);
    IterationData(Tiled(pieces), Joined(pieces), HasJump(g), ps[0].header.payloadUnitStart,
                  ps[0].header.cc, ps[|ps| - 1].header.cc, |ps|)
  }

  lemma Snoc<T>(s: seq<T>, x: T)
    ensures s + [x] != [] && (s + [x])[..|s + [x]| - 1] == s && (s + [x])[|s + [x]| - 1] == x
  {}

  lemma TiledSnoc(pieces: seq<Piece>, piece: Piece)
    ensures Tiled(pieces + [piece]) == Tiled(pieces) + [Segment(piece.kind, |piece.bytes|, |Joined(pieces)|)]
  {
    hide Joined;
    var after := pieces + [piece];
    assert forall i | 0 <= i <= |pieces| :: after[..i] == pieces[..i];
    assert pieces[..|pieces|] == pieces;
  }

  lemma PieceAdded(it: IterationData, pieces: seq<Piece>, kind: PayloadType, bytes: seq<Byte>)
    requires it.payloads == Tiled(pieces) && it.data == Joined(pieces)
    ensures var after := pieces + One(kind, bytes); var t := WithPiece(it, kind, bytes);
      t.payloads == Tiled(after) && t.data == Joined(after)
  {
    hide Tiled;
    if bytes == [] {
      assert pieces + [] == pieces;
    } else {
      Snoc(pieces, Piece(kind, bytes));
      TiledSnoc(pieces, Piece(kind, bytes));
    }
  }

  /** Adding a packet to an iteration that holds a group, up to its own metadata. */
  lemma PacketAdded(it: IterationData, ps: seq<Packet>, previous: Option<nat>, p: Packet)
    requires it.payloads == Tiled(AllPieces(ps)) && it.data == Joined(AllPieces(ps))
    ensures var t := WithPacket(it, previous, p); var pieces := AllPieces(ps + [p]);
      t == Counted(it, previous, p).(payloads := Tiled(pieces), data := Joined(pieces))
  {
    hide Tiled;
    hide Joined;
    hide AnnouncedJump;
    var pieces := AllPieces(ps);
    var counted := Counted(it, previous, p);
    PieceAdded(counted, pieces, Private, p.PrivateData());
    var t := WithPiece(counted, Private, p.PrivateData());
    PieceAdded(t, pieces + One(Private, p.PrivateData()), Normal, PayloadOf(p));
    Snoc(ps, p);
    assert pieces + PiecesOf(p) == pieces + One(Private, p.PrivateData()) + One(Normal, PayloadOf(p));
    hide One;
  }

  lemma IterationStarts(previous: Option<nat>, p: Packet)
    ensures WithPacket(NewIteration(p), previous, p) == Iteration(Group(previous, [p]))
  {
    hide AnnouncedJump;
    assert [] + [p] == [p];
    assert NewIteration(p).payloads == Tiled([]);
    PacketAdded(NewIteration(p), [], previous, p);
    hide Tiled;
    hide Joined;
    hide AllPieces;
    hide WithPacket;
    var g := Group(previous, [p]);
    assert CcBefore(g, 0) == previous && g.packets[0] == p;
  }

  lemma JumpExtends(g: Group, p: Packet)
    requires g.packets != []
    ensures HasJump(g.(packets := g.packets + [p]))
      <==> HasJump(g) || AnnouncedJump(Some(g.packets[|g.packets| - 1].header.cc), p)
  {
    hide AnnouncedJump;
    var n, h := |g.packets|, g.(packets := g.packets + [p]);
    assert forall i: nat | i < n :: CcBefore(h, i) == CcBefore(g, i) && h.packets[i] == g.packets[i];
    assert CcBefore(h, n) == Some(g.packets[n - 1].header.cc) && h.packets[n] == p;
  }

  lemma IterationExtends(g: Group, p: Packet)
    requires g.packets != []
    ensures WithPacket(Iteration(g), Some(g.packets[|g.packets| - 1].header.cc), p)
      == Iteration(g.(packets := g.packets + [p]))
  {
    JumpExtends(g, p);
    PacketAdded(Iteration(g), g.packets, Some(g.packets[|g.packets| - 1].header.cc), p);
    hide AnnouncedJump;
    hide HasJump;
    hide Tiled;
    hide Joined;
    hide AllPieces;
    hide WithPacket;
  }

  lemma {:induction false} Slice(pieces: seq<Piece>, i: nat)
    requires i < |pieces|
    ensures var at := |Joined(pieces[..i])|;
      at + |pieces[i].bytes| <= |Joined(pieces)| && Joined(pieces)[at..at + |pieces[i].bytes|] == pieces[i].bytes
    decreases |pieces|
  {
    var init := pieces[..|pieces| - 1];
    if i < |init| {
      Slice(init, i);
      assert init[..i] == pieces[..i];
    }
  }

  lemma {:induction false} PiecesNotEmpty(ps: seq<Packet>)
    ensures forall i | 0 <= i < |AllPieces(ps)| :: AllPieces(ps)[i].bytes != []
  {
    hide PayloadOf;
    if ps != [] { PiecesNotEmpty(ps[..|ps| - 1]); }
  }

  /** The buffers handed out for a stored group are exactly the pieces of its packets, in order. */
  lemma BuffersAreThePieces(g: Group)
    requires g.packets != []
    ensures var pieces := AllPieces(g.packets); var buffers := Buffers(Iteration(g));
      && |buffers| == |pieces|
      && forall i | 0 <= i < |pieces| ::
           buffers[i] == PayloadBuffer(Some(pieces[i].bytes), |pieces[i].bytes|, pieces[i].kind)
  {
    hide AllPieces;
    hide HasJump;
    var pieces := AllPieces(g.packets);
    PiecesNotEmpty(g.packets);
    forall i | 0 <= i < |pieces|
      ensures Buffers(Iteration(g))[i] == PayloadBuffer(Some(pieces[i].bytes), |pieces[i].bytes|, pieces[i].kind)
    {
      Slice(pieces, i);
      hide Joined;
    }
  }

  /** The continuity counter does not go on, whether or not the packet announces it. */
  predicate IsGap(previous: Option<nat>, p: Packet) {
    previous.Some? && p.header.cc != (previous.value + 1) % 16
  }

  ghost predicate HasGap(g: Group) {
    exists i | 0 <= i < |g.packets| :: IsGap(CcBefore(g, i), g.packets[i])
  }

  /** The flag says whether there is a gap exactly if there is none, or some gap is announced by the
      `discontinuity_indicator` of its packet. */
  lemma FlagIsGapExactly(g: Group)
    requires g.packets != []
    ensures (Iteration(g).discontinuity <==> HasGap(g))
      <==> (!HasGap(g) || exists i | 0 <= i < |g.packets| ::
              IsGap(CcBefore(g, i), g.packets[i]) && g.packets[i].Discontinuity())
  {
    forall i: nat | i < |g.packets|
      ensures AnnouncedJump(CcBefore(g, i), g.packets[i])
        == (IsGap(CcBefore(g, i), g.packets[i]) && g.packets[i].Discontinuity())
    {}
    hide AllPieces;
    hide Tiled;
    hide Joined;
    hide AnnouncedJump;
    hide IsGap;
    hide CcBefore;
  }

  /** In particular if every gap is announced. */
  lemma FlagIsGapIfAnnounced(g: Group)
    requires g.packets != []
    requires forall i | 0 <= i < |g.packets| && IsGap(CcBefore(g, i), g.packets[i]) :: g.packets[i].Discontinuity()
    ensures Iteration(g).discontinuity <==> HasGap(g)
  {
    hide *;
    hide Iteration;
    FlagIsGapExactly(g);
    if HasGap(g) { GapFound(g); }
  }

  lemma GapFound(g: Group)
    requires HasGap(g)
    ensures exists i | 0 <= i < |g.packets| :: IsGap(CcBefore(g, i), g.packets[i])
  {}

  // What the summaries of a group add up to.

  function NormalSize(ps: seq<Packet>): nat {
    if ps == [] then 0 else NormalSize(ps[..|ps| - 1]) + |PayloadOf(ps[|ps| - 1])|
  }

  function PrivateSize(ps: seq<Packet>): nat {
    if ps == [] then 0 else PrivateSize(ps[..|ps| - 1]) + |ps[|ps| - 1].PrivateData()|
  }

  lemma KindSizeSnoc(segments: seq<Segment>, s: Segment, kind: PayloadType)
    ensures KindSize(segments + [s], kind) == KindSize(segments, kind) + if s.kind == kind then s.length else 0
  {
    assert (segments + [s])[..|segments + [s]| - 1] == segments;
  }

  lemma KindSizeOne(pieces: seq<Piece>, kind: PayloadType, bytes: seq<Byte>, counted: PayloadType)
    ensures KindSize(Tiled(pieces + One(kind, bytes)), counted)
      == KindSize(Tiled(pieces), counted) + if kind == counted then |bytes| else 0
  {
    hide Tiled;
    if bytes == [] {
      assert pieces + [] == pieces;
    } else {
      TiledSnoc(pieces, Piece(kind, bytes));
      KindSizeSnoc(Tiled(pieces), Segment(kind, |bytes|, |Joined(pieces)|), counted);
      hide KindSize;
    }
  }

  lemma {:induction false} KindSizes(ps: seq<Packet>)
    ensures KindSize(Tiled(AllPieces(ps)), Normal) == NormalSize(ps)
    ensures KindSize(Tiled(AllPieces(ps)), Private) == PrivateSize(ps)
    decreases |ps|
  {
    hide PayloadOf;
    if ps != [] {
      var init, p := ps[..|ps| - 1], ps[|ps| - 1];
      KindSizes(init);
      var pieces := AllPieces(init) + One(Private, p.PrivateData());
      assert AllPieces(ps) == pieces + One(Normal, PayloadOf(p));
      hide Packet.PrivateData;
      hide AllPieces;
      hide One;
      hide KindSize;
      hide Tiled;
      forall kind: PayloadType
        ensures KindSize(Tiled(pieces + One(Normal, PayloadOf(p))), kind)
          == KindSize(Tiled(AllPieces(init)), kind)
             + (if kind == Private then |p.PrivateData()| else 0) + (if kind == Normal then |PayloadOf(p)| else 0)
      {
        KindSizeOne(AllPieces(init), Private, p.PrivateData(), kind);
        KindSizeOne(pieces, Normal, PayloadOf(p), kind);
      }
    }
  }

  /** The summary of a stored group gives its id, the octets of payload and of private data of its
      packets, their number, the counters of the first and the last of them, and the flag. */
  lemma SummaryCounts(id: nat, g: Group)
    requires g.packets != []
    ensures var info := Summary(Entry(id, Iteration(g)));
      && info.id == id && info.normalSize == NormalSize(g.packets) && info.privateSize == PrivateSize(g.packets)
      && info.packetCount == |g.packets| && (info.hasDiscontinuity <==> HasJump(g))
      && info.ccStart == g.packets[0].header.cc && info.ccEnd == g.packets[|g.packets| - 1].header.cc
  {
    KindSizes(g.packets);
    hide AllPieces;
    hide Tiled;
    hide HasJump;
  }

  // ------------------------------------------------------------------------------------------
  // The groups of a PID
  // ------------------------------------------------------------------------------------------

  datatype Groups = Groups(closed: seq<Group>, open: Option<Group>, lastCc: Option<nat>)
  {
    function All(): seq<Group> {
      closed + if open.Some? then [open.value] else []
    }
  }

  /** A unit start, or the first packet after a getter, begins a group. */
  function Regrouped(g: Groups, table: Option<set<nat>>, pid: nat, e: Event): Groups {
    if e.Finalize? then g.(closed := g.All(), open := None) else
    if !Concerns(table, pid, e) then g else
    var p, cc := e.packet, Some(e.packet.header.cc);
    if g.open.Some? && !p.header.payloadUnitStart
    then g.(open := Some(g.open.value.(packets := g.open.value.packets + [p])), lastCc := cc)
    else Groups(g.All(), Some(Group(g.lastCc, [p])), cc)
  }

  function GroupsOf(table: Option<set<nat>>, pid: nat, events: seq<Event>): Groups
    decreases |events|
  {
    if events == [] then Groups([], None, None) else
    Regrouped(GroupsOf(table, pid, events[..|events| - 1]), table, pid, events[|events| - 1])
  }

  function Members(groups: seq<Group>): seq<Packet> {
    if groups == [] then [] else Members(groups[..|groups| - 1]) + groups[|groups| - 1].packets
  }

  function LastCc(ps: seq<Packet>): Option<nat> {
    if ps == [] then None else Some(ps[|ps| - 1].header.cc)
  }

  /** A proper group: not empty, and a unit starts with its first packet only. */
  predicate Proper(g: Group) {
    && g.packets != []
    && forall i | 0 < i < |g.packets| :: !g.packets[i].header.payloadUnitStart
  }

  predicate AllProper(groups: seq<Group>) {
    && (forall k | 0 <= k < |groups| :: Proper(groups[k]))
    && (forall k | 0 <= k < |groups| :: groups[k].previous == LastCc(Members(groups[..k])))
  }

  lemma MembersSnoc(groups: seq<Group>, g: Group)
    ensures Members(groups + [g]) == Members(groups) + g.packets
  {
    Snoc(groups, g);
  }

  lemma ProperSnoc(groups: seq<Group>, g: Group)
    requires AllProper(groups) && Proper(g) && g.previous == LastCc(Members(groups))
    ensures AllProper(groups + [g])
  {
    hide Members;
    hide Proper;
    var more := groups + [g];
    assert more[..|groups|] == groups;
    assert forall k | 0 <= k < |groups| :: more[..k] == groups[..k];
  }

  predicate Partitions(g: Groups, ps: seq<Packet>) {
    && Members(g.All()) == ps && AllProper(g.All()) && g.lastCc == LastCc(ps)
  }

  lemma NotRegrouped(g: Groups, h: Groups, ps: seq<Packet>)
    requires Partitions(g, ps) && h.All() == g.All() && h.lastCc == g.lastCc
    ensures Partitions(h, ps + [])
  {
    hide Members;
    hide AllProper;
    assert ps + [] == ps;
  }

  lemma GroupGrows(g: Groups, ps: seq<Packet>, p: Packet)
    requires Partitions(g, ps) && g.open.Some? && !p.header.payloadUnitStart
    ensures var o := g.open.value;
      Partitions(Groups(g.closed, Some(o.(packets := o.packets + [p])), Some(p.header.cc)), ps + [p])
  {
    hide Members;
    hide AllProper;
    var o := g.open.value;
    MembersSnoc(g.closed, o);
    MembersSnoc(g.closed, o.(packets := o.packets + [p]));
    LastGroup(g.closed, o, p);
    assert Members(g.closed) + o.packets + [p] == Members(g.closed) + (o.packets + [p]);
  }

  lemma GroupBegins(g: Groups, ps: seq<Packet>, p: Packet)
    requires Partitions(g, ps)
    ensures Partitions(Groups(g.All(), Some(Group(g.lastCc, [p])), Some(p.header.cc)), ps + [p])
  {
    var o := Group(g.lastCc, [p]);
    assert Proper(o);
    hide Members;
    hide AllProper;
    hide Proper;
    MembersSnoc(g.All(), o);
    ProperSnoc(g.All(), o);
  }

  lemma RegroupedPartitions(g: Groups, table: Option<set<nat>>, pid: nat, e: Event, ps: seq<Packet>)
    requires Partitions(g, ps)
    ensures Partitions(Regrouped(g, table, pid, e), ps + if Concerns(table, pid, e) then [e.packet] else [])
  {
    hide Partitions;
    hide Accepts;
    if !Concerns(table, pid, e) {
      NotRegrouped(g, Regrouped(g, table, pid, e), ps);
    } else if g.open.Some? && !e.packet.header.payloadUnitStart {
      GroupGrows(g, ps, e.packet);
    } else {
      GroupBegins(g, ps, e.packet);
    }
  }

  lemma LastGroup(closed: seq<Group>, o: Group, p: Packet)
    requires AllProper(closed + [o]) && !p.header.payloadUnitStart
    ensures AllProper(closed + [o.(packets := o.packets + [p])])
  {
    hide Members;
    var was, now := closed + [o], closed + [o.(packets := o.packets + [p])];
    assert Proper(was[|closed|]);
    assert forall k | 0 <= k <= |closed| :: was[..k] == now[..k];
    assert forall k | 0 <= k < |closed| :: was[k] == now[k];
    assert was[|closed|].previous == now[|closed|].previous;
  }

  /** The groups of a PID are a partition of its accepted packets into consecutive runs; a unit
      starts with the first packet of a group only; and the counter each group is compared with is
      that of the packet before it. */
  lemma {:induction false} GroupsPartition(table: Option<set<nat>>, pid: nat, events: seq<Event>)
    ensures Partitions(GroupsOf(table, pid, events), Accepted(table, pid, events))
    decreases |events|
  {
    if events != [] {
      hide Partitions;
      var init := events[..|events| - 1];
      GroupsPartition(table, pid, init);
      RegroupedPartitions(GroupsOf(table, pid, init), table, pid, events[|events| - 1], Accepted(table, pid, init));
    }
  }

  // ------------------------------------------------------------------------------------------
  // The store holds the groups
  // ------------------------------------------------------------------------------------------

  /** The store holds, for a PID, the iterations of its groups, stored or open. */
  ghost predicate Represents(s: Store, pid: nat, g: Groups) {
    && |s.streams.Of(pid)| == |g.closed|
    && (forall k | 0 <= k < |g.closed| ::
         g.closed[k].packets != [] && s.streams.Of(pid)[k].iteration == Iteration(g.closed[k]))
    && Get(s.lastCc, pid) == g.lastCc
    && (if g.open.Some? then g.open.value.packets != [] && Get(s.open, pid) == Some(Iteration(g.open.value))
                             && g.lastCc == LastCc(g.open.value.packets)
        else pid !in s.open)
  }

  lemma FinalizedRepresents(s: Store, pid: nat, g: Groups)
    requires s.Consistent() && Represents(s, pid, g)
    ensures Represents(Finalized(s, pid), pid, g.(closed := g.All(), open := None))
    ensures Represents(FinalizedAll(s), pid, g.(closed := g.All(), open := None))
  {
    hide Iteration;
  }

  lemma StoredElsewhere(s: Store, table: Option<set<nat>>, pid: nat, g: Groups, p: Packet)
    requires s.Consistent() && Represents(s, pid, g) && !Concerns(table, pid, Delivered(p))
    ensures Represents(Stored(s, table, p), pid, g)
  {
    hide Iteration;
    hide WithPacket;
  }

  lemma StoredHere(s: Store, table: Option<set<nat>>, pid: nat, g: Groups, p: Packet)
    requires s.Consistent() && Represents(s, pid, g) && Concerns(table, pid, Delivered(p))
    ensures Represents(Stored(s, table, p), pid, Regrouped(g, table, pid, Delivered(p)))
  {
    hide Iteration;
    hide WithPacket;
    hide Accepts;
    if g.open.Some? && !p.header.payloadUnitStart {
      IterationExtends(g.open.value, p);
    } else {
      FinalizedRepresents(s, pid, g);
      assert pid !in Finalized(s, pid).open;
      hide Finalized;
      BegunRepresents(Finalized(s, pid), pid, g.(closed := g.All(), open := None), p);
      assert pid !in s.open ==> Finalized(s, pid) == s by { FinalizedNothing(s, pid); }
      hide Represents;
    }
  }

  lemma FinalizedNothing(s: Store, pid: nat)
    requires s.Consistent()
    ensures pid !in s.open ==> Finalized(s, pid) == s
  {}

  lemma BegunRepresents(s: Store, pid: nat, g: Groups, p: Packet)
    requires Represents(s, pid, g) && g.open.None? && p.header.pid == pid
    ensures var cc, t := p.header.cc, Begun(s, p);
      Represents(t.(open := t.open[pid := WithPacket(t.open[pid], Get(t.lastCc, pid), p)],
                    lastCc := t.lastCc[pid := cc]), pid,
                 Groups(g.closed, Some(Group(g.lastCc, [p])), Some(cc)))
  {
    hide Iteration;
    hide WithPacket;
    hide NewIteration;
    IterationStarts(g.lastCc, p);
  }

  /** After any events, the stored iterations of every PID are exactly its closed groups, and its
      open iteration is its open group. */
  lemma {:induction false} StoreHoldsGroups(table: Option<set<nat>>, pid: nat, events: seq<Event>)
    ensures Represents(After(table, events), pid, GroupsOf(table, pid, events))
    decreases |events|
  {
    if events != [] {
      hide Represents;
      hide Stored;
      hide FinalizedAll;
      hide Accepts;
      var init, e := events[..|events| - 1], events[|events| - 1];
      StoreHoldsGroups(table, pid, init);
      var s, g := After(table, init), GroupsOf(table, pid, init);
      if e.Finalize? {
        FinalizedRepresents(s, pid, g);
      } else if Concerns(table, pid, e) {
        StoredHere(s, table, pid, g, e.packet);
      } else {
        StoredElsewhere(s, table, pid, g, e.packet);
      }
    }
  }

  // ------------------------------------------------------------------------------------------
  // Conservation
  // ------------------------------------------------------------------------------------------

  /** What the packets of a PID carry: private data, then payload, packet by packet. */
  function Carried(ps: seq<Packet>): seq<Byte> {
    if ps == [] then [] else
    var p := ps[|ps| - 1];
    Carried(ps[..|ps| - 1]) + p.PrivateData() + PayloadOf(p)
  }

  /** The payload data of stored iterations, joined. */
  function StoredData(entries: seq<Entry>): seq<Byte> {
    if entries == [] then [] else
    StoredData(entries[..|entries| - 1]) + entries[|entries| - 1].iteration.data
  }

  function StoredCount(entries: seq<Entry>): nat {
    if entries == [] then 0 else StoredCount(entries[..|entries| - 1]) + entries[|entries| - 1].iteration.packetCount
  }

  function OpenData(s: Store, pid: nat): seq<Byte> {
    if pid in s.open then s.open[pid].data else []
  }

  function OpenCount(s: Store, pid: nat): nat {
    if pid in s.open then s.open[pid].packetCount else 0
  }

  lemma {:induction false} JoinedIsCarried(ps: seq<Packet>)
    ensures Joined(AllPieces(ps)) == Carried(ps)
    decreases |ps|
  {
    hide *;
    if ps == [] {
      NothingJoined();
    } else {
      var init, p := ps[..|ps| - 1], ps[|ps| - 1];
      assert init + [p] == ps;
      PiecesSplit(init, p);
      CarriedSnoc(init, p);
      JoinedIsCarried(init);
      JoinedOne(AllPieces(init), Private, p.PrivateData());
      JoinedOne(AllPieces(init) + One(Private, p.PrivateData()), Normal, PayloadOf(p));
    }
  }

  lemma NothingJoined()
    ensures Joined(AllPieces([])) == [] && Carried([]) == []
  {}

  lemma PiecesSplit(ps: seq<Packet>, p: Packet)
    ensures AllPieces(ps + [p]) == AllPieces(ps) + One(Private, p.PrivateData()) + One(Normal, PayloadOf(p))
  {
    Snoc(ps, p);
    hide One;
    hide PayloadOf;
  }

  lemma CarriedSnoc(ps: seq<Packet>, p: Packet)
    ensures Carried(ps + [p]) == Carried(ps) + p.PrivateData() + PayloadOf(p)
  {
    Snoc(ps, p);
    hide PayloadOf;
  }

  lemma JoinedOne(pieces: seq<Piece>, kind: PayloadType, bytes: seq<Byte>)
    ensures Joined(pieces + One(kind, bytes)) == Joined(pieces) + bytes
  {
    if bytes == [] {
      assert pieces + [] == pieces;
    } else {
      Snoc(pieces, Piece(kind, bytes));
    }
  }

  lemma {:induction false} CarriedAppend(ps: seq<Packet>, qs: seq<Packet>)
    ensures Carried(ps + qs) == Carried(ps) + Carried(qs)
    decreases |qs|
  {
    hide PayloadOf;
    if qs == [] {
      assert ps + qs == ps;
    } else {
      var init, q := qs[..|qs| - 1], qs[|qs| - 1];
      assert (ps + qs)[..|ps + qs| - 1] == ps + init;
      CarriedAppend(ps, init);
      assert Carried(ps) + (Carried(init) + q.PrivateData() + PayloadOf(q))
        == Carried(ps) + Carried(init) + q.PrivateData() + PayloadOf(q);
    }
  }

  lemma {:induction false} StoredGroups(entries: seq<Entry>, groups: seq<Group>)
    requires |entries| == |groups|
    requires forall k | 0 <= k < |groups| :: groups[k].packets != [] && entries[k].iteration == Iteration(groups[k])
    ensures StoredData(entries) == Carried(Members(groups)) && StoredCount(entries) == |Members(groups)|
  {
    hide Carried;
    hide Iteration;
    if groups == [] {
      NothingJoined();
    } else {
      var n := |groups| - 1;
      StoredGroups(entries[..n], groups[..n]);
      IterationCarries(groups[n]);
      CarriedAppend(Members(groups[..n]), groups[n].packets);
    }
  }

  lemma IterationCarries(g: Group)
    requires g.packets != []
    ensures Iteration(g).data == Carried(g.packets) && Iteration(g).packetCount == |g.packets|
  {
    JoinedIsCarried(g.packets);
  }

  lemma RepresentedConserves(s: Store, pid: nat, g: Groups, ps: seq<Packet>)
    requires s.Consistent() && Represents(s, pid, g) && Members(g.All()) == ps
    ensures StoredData(s.streams.Of(pid)) + OpenData(s, pid) == Carried(ps)
    ensures StoredCount(s.streams.Of(pid)) + OpenCount(s, pid) == |ps|
  {
    hide Iteration;
    hide Carried;
    hide Members;
    StoredGroups(s.streams.Of(pid), g.closed);
    hide StoredData;
    hide StoredCount;
    if g.open.Some? {
      var o := g.open.value;
      MembersSnoc(g.closed, o);
      CarriedAppend(Members(g.closed), o.packets);
      IterationCarries(o);
    } else {
      assert g.All() == g.closed;
    }
  }

  /** After any events, the stored data of a PID followed by the open data is what its accepted
      packets carry, in order, and the packet counts add up to their number. */
  lemma Conservation(table: Option<set<nat>>, pid: nat, events: seq<Event>)
    ensures var s, ps := After(table, events), Accepted(table, pid, events);
      && StoredData(s.streams.Of(pid)) + OpenData(s, pid) == Carried(ps)
      && StoredCount(s.streams.Of(pid)) + OpenCount(s, pid) == |ps|
  {
    StoreHoldsGroups(table, pid, events);
    GroupsPartition(table, pid, events);
    hide Represents;
    RepresentedConserves(After(table, events), pid, GroupsOf(table, pid, events), Accepted(table, pid, events));
  }

  /** The PIDs that are never stored: the four system PIDs, and, once a table is set, all that it does
      not list. */
  predicate Excluded(table: Option<set<nat>>, pid: nat) {
    pid in {0x0000, 0x0001, 0x0002, 0x1FFF} || (table.Some? && pid !in table.value)
  }

  lemma AcceptsExactly(table: Option<set<nat>>, pid: nat)
    ensures Accepts(table, pid)
      <==> pid != 0x0000 && pid != 0x0001 && pid != 0x0002 && pid != 0x1FFF && (table == None || pid in table.value)
    ensures Accepts(table, pid) <==> !Excluded(table, pid)
  {}

  predicate Absent(s: Store, pid: nat) {
    s.streams.Of(pid) == [] && pid !in s.open
  }

  lemma StaysAbsent(s: Store, table: Option<set<nat>>, pid: nat, e: Event)
    requires s.Consistent() && Absent(s, pid) && !Accepts(table, pid)
    ensures Absent(Applied(s, table, e), pid)
  {
    hide WithPacket;
    hide Accepts;
  }

  /** Nothing is stored for system PIDs, or for PIDs outside the table. */
  lemma {:induction false} NothingElseStored(table: Option<set<nat>>, pid: nat, events: seq<Event>)
    requires pid in {0x0000, 0x0001, 0x0002, 0x1FFF} || (table.Some? && pid !in table.value)
    ensures After(table, events).streams.Of(pid) == [] && pid !in After(table, events).open
    decreases |events|
  {
    AcceptsExactly(table, pid);
    hide Accepts;
    hide Applied;
    if events != [] {
      NothingElseStored(table, pid, events[..|events| - 1]);
      StaysAbsent(After(table, events[..|events| - 1]), table, pid, events[|events| - 1]);
    }
  }

  /** All packets delivered on a PID. */
  function OnPid(pid: nat, events: seq<Event>): seq<Packet>
    decreases |events|
  {
    if events == [] then [] else
    var e := events[|events| - 1];
    OnPid(pid, events[..|events| - 1]) + if e.Delivered? && e.packet.header.pid == pid then [e.packet] else []
  }

  /** On every other PID all delivered packets are accepted. */
  lemma {:induction false} AcceptedIsAll(table: Option<set<nat>>, pid: nat, events: seq<Event>)
    requires pid !in {0x0000, 0x0001, 0x0002, 0x1FFF} && (table == None || pid in table.value)
    ensures Accepted(table, pid, events) == OnPid(pid, events)
    decreases |events|
  {
    AcceptsExactly(table, pid);
    hide Accepts;
    if events != [] { AcceptedIsAll(table, pid, events[..|events| - 1]); }
  }

  lemma AfterFinalize(table: Option<set<nat>>, pid: nat, events: seq<Event>)
    ensures After(table, events + [Finalize]) == FinalizedAll(After(table, events))
    ensures Accepted(table, pid, events + [Finalize]) == Accepted(table, pid, events)
  {
    hide FinalizedAll;
    Snoc(events, Finalize);
    assert Accepted(table, pid, events + [Finalize]) == Accepted(table, pid, events) + [];
  }

  /** A getter changes neither the data of a PID nor the number of packets, only the grouping. */
  lemma GettersOnlyRegroup(table: Option<set<nat>>, pid: nat, events: seq<Event>)
    ensures var s, t := After(table, events), FinalizedAll(After(table, events));
      && StoredData(t.streams.Of(pid)) == StoredData(s.streams.Of(pid)) + OpenData(s, pid)
      && StoredCount(t.streams.Of(pid)) == StoredCount(s.streams.Of(pid)) + OpenCount(s, pid)
      && t.open == map[]
  {
    hide StoredData;
    hide StoredCount;
    hide Carried;
    hide After;
    hide Accepted;
    AfterFinalize(table, pid, events);
    Conservation(table, pid, events);
    Conservation(table, pid, events + [Finalize]);
  }

  // ------------------------------------------------------------------------------------------
  // Runs
  // ------------------------------------------------------------------------------------------

  /** A run without clears whose program table is set at most at its start. */
  predicate KeepsAll(ops: seq<Op>) {
    forall i | 0 <= i < |ops| :: ops[i].Feed? || ops[i].Flush? || (i == 0 && ops[i].SetTable?)
  }

  function Arrivals(ps: seq<Packet>): (es: seq<Event>)
    ensures |es| == |ps|
    ensures forall i | 0 <= i < |ps| :: es[i] == Delivered(ps[i])
  {
    seq(|ps|, i requires 0 <= i < |ps| => Delivered(ps[i]))
  }

  /** The events of a run: the packets its calls deliver, and its getter calls. */
  ghost function Events(ops: seq<Op>): seq<Event>
    decreases |ops|
  {
    if ops == [] then [] else
    var init := ops[..|ops| - 1];
    Events(init) +
    match ops[|ops| - 1]
    case Feed(chunk) => Arrivals(DeliveredBy(Run(init), chunk))
    case Flush => [Finalize]
    case _ => []
  }

  lemma {:induction false} AfterArrivals(c: Core, table: Option<set<nat>>, events: seq<Event>, ps: seq<Packet>)
    requires c.Consistent() && c.store == After(table, events)
    ensures PacketSteps(c, table, ps).store == After(table, events + Arrivals(ps))
    decreases |ps|
  {
    hide PsiStep;
    hide ClockStep;
    hide Stored;
    if ps == [] {
      assert events + Arrivals(ps) == events;
    } else {
      var init := ps[..|ps| - 1];
      AfterArrivals(c, table, events, init);
      assert events + Arrivals(ps) == events + Arrivals(init) + [Delivered(ps[|ps| - 1])];
      Snoc(events + Arrivals(init), Delivered(ps[|ps| - 1]));
    }
  }

  /** The store after a run is the store after its events. */
  lemma {:induction false} RunStore(ops: seq<Op>)
    requires KeepsAll(ops)
    ensures Run(ops).core.store == After(Run(ops).table, Events(ops))
    decreases |ops|
  {
    if ops != [] {
      var init, op := ops[..|ops| - 1], ops[|ops| - 1];
      RunStore(init);
      var s := Run(init);
      hide PacketSteps;
      hide Fed;
      hide FinalizedAll;
      if op.Feed? {
        FeedingDelivers(s, op.chunk);
        AfterArrivals(s.core, s.table, Events(init), DeliveredBy(s, op.chunk));
        hide After;
      } else if op.Flush? {
        Snoc(Events(init), Finalize);
      } else {
        assert init == [];
      }
    }
  }

  /** Over every run without clears and with a fixed program table, each PID's stored data followed
      by its open data is what its accepted packets carry, in order of delivery. */
  lemma RunConserves(ops: seq<Op>, pid: nat)
    requires KeepsAll(ops)
    ensures var s, ps := Run(ops).core.store, Accepted(Run(ops).table, pid, Events(ops));
      && StoredData(s.streams.Of(pid)) + OpenData(s, pid) == Carried(ps)
      && StoredCount(s.streams.Of(pid)) + OpenCount(s, pid) == |ps|
  {
    RunStore(ops);
    Conservation(Run(ops).table, pid, Events(ops));
  }

  /** Over every such run the stored iterations of a PID, then the open one, hold the groups of its
      accepted packets. */
  lemma RunHoldsGroups(ops: seq<Op>, pid: nat)
    requires KeepsAll(ops)
    ensures var t, es := Run(ops).table, Events(ops);
      && Represents(Run(ops).core.store, pid, GroupsOf(t, pid, es))
      && Partitions(GroupsOf(t, pid, es), Accepted(t, pid, es))
  {
    RunStore(ops);
    StoreHoldsGroups(Run(ops).table, pid, Events(ops));
    GroupsPartition(Run(ops).table, pid, Events(ops));
  }

  /** The table that a run has set last. */
  function TableOf(ops: seq<Op>): Option<set<nat>> {
    if ops == [] then None else
    var op := ops[|ops| - 1];
    if op.SetTable? then Some(op.pids) else TableOf(ops[..|ops| - 1])
  }

  lemma StepTable(s: State, op: Op)
    requires s.core.Consistent()
    ensures Step(s, op).table == if op.SetTable? then Some(op.pids) else s.table
  {
    if op.Feed? { FeedingDelivers(s, op.chunk); }
    hide Fed;
    hide FinalizedAll;
    hide Core.Consistent;
  }

  /** It is the table that filters. */
  lemma {:induction false} RunTable(ops: seq<Op>)
    ensures Run(ops).table == TableOf(ops)
    decreases |ops|
  {
    hide Step;
    if ops != [] {
      RunTable(ops[..|ops| - 1]);
      StepTable(Run(ops[..|ops| - 1]), ops[|ops| - 1]);
    }
  }

  /** Over every run without clears whose table is set at most at the start: nothing is stored for a PID
      that the table or its being a system PID excludes, and for every other PID what is stored, then
      open, is what all packets delivered on it carry. */
  lemma RunStoresExactly(ops: seq<Op>, pid: nat)
    requires KeepsAll(ops)
    ensures var s, table := Run(ops).core.store, TableOf(ops);
      if pid in {0x0000, 0x0001, 0x0002, 0x1FFF} || (table.Some? && pid !in table.value)
      then s.streams.Of(pid) == [] && pid !in s.open
      else && StoredData(s.streams.Of(pid)) + OpenData(s, pid) == Carried(OnPid(pid, Events(ops)))
           && StoredCount(s.streams.Of(pid)) + OpenCount(s, pid) == |OnPid(pid, Events(ops))|
  {
    hide *;
    var table := TableOf(ops);
    RunTable(ops);
    RunStore(ops);
    if pid in {0x0000, 0x0001, 0x0002, 0x1FFF} || (table.Some? && pid !in table.value) {
      NothingElseStored(table, pid, Events(ops));
    } else {
      AcceptedIsAll(table, pid, Events(ops));
      Conservation(table, pid, Events(ops));
    }
  }

  // ------------------------------------------------------------------------------------------
  // Which PIDs have streams
  // ------------------------------------------------------------------------------------------

  /** The PIDs with stored or open iterations. */
  function Known(s: Store): set<nat> {
    s.streams.entries.Keys + s.open.Keys
  }

  lemma KnownStored(s: Store, table: Option<set<nat>>, p: Packet)
    requires s.Consistent()
    ensures Known(Stored(s, table, p)) == Known(s) + if Accepts(table, p.header.pid) then {p.header.pid} else {}
  {
    hide WithPacket;
    hide Accepts;
  }

  lemma KnownFinalized(s: Store)
    requires s.Consistent()
    ensures Known(FinalizedAll(s)) == Known(s) && FinalizedAll(s).streams.entries.Keys == Known(s)
  {}

  lemma LastEvent(table: Option<set<nat>>, pid: nat, events: seq<Event>)
    requires events != []
    ensures var init, e := events[..|events| - 1], events[|events| - 1];
      && After(table, events) == Applied(After(table, init), table, e)
      && (Accepted(table, pid, events) != [] <==> Accepted(table, pid, init) != [] || Concerns(table, pid, e))
  {
    hide Applied;
    hide Concerns;
  }

  lemma KnownApplied(s: Store, table: Option<set<nat>>, pid: nat, e: Event)
    requires s.Consistent()
    ensures pid in Known(Applied(s, table, e)) <==> pid in Known(s) || Concerns(table, pid, e)
  {
    KnownFinalized(s);
    if e.Delivered? { KnownStored(s, table, e.packet); }
    hide Known;
    hide Stored;
    hide FinalizedAll;
    hide Accepts;
  }

  /** They are those on which packets have been accepted, and a getter makes streams of them all. */
  lemma {:induction false} KnownExactly(table: Option<set<nat>>, events: seq<Event>, pid: nat)
    ensures pid in Known(After(table, events)) <==> Accepted(table, pid, events) != []
    ensures FinalizedAll(After(table, events)).streams.entries.Keys == Known(After(table, events))
    decreases |events|
  {
    hide *;
    KnownFinalized(After(table, events));
    if events != [] {
      KnownExactly(table, events[..|events| - 1], pid);
      LastEvent(table, pid, events);
      KnownApplied(After(table, events[..|events| - 1]), table, pid, events[|events| - 1]);
    } else {
      NothingAccepted(table, pid);
    }
  }

  lemma NothingAccepted(table: Option<set<nat>>, pid: nat)
    ensures Accepted(table, pid, []) == [] && After(table, []) == NEW_CORE.store && pid !in Known(NEW_CORE.store)
  {}

  /** After every such run and a getter, the PIDs with streams are exactly those with delivered packets
      that nothing excludes. */
  lemma DiscoveredExactly(ops: seq<Op>, pid: nat)
    requires KeepsAll(ops)
    ensures var table := TableOf(ops);
      pid in Flushed(Run(ops)).core.store.streams.entries
      <==> pid !in {0x0000, 0x0001, 0x0002, 0x1FFF} && (table == None || pid in table.value)
           && OnPid(pid, Events(ops)) != []
  {
    FlushedStore(Run(ops));
    hide *;
    var table := TableOf(ops);
    RunTable(ops);
    RunStore(ops);
    KnownExactly(table, Events(ops), pid);
    AcceptsExactly(table, pid);
    if pid !in {0x0000, 0x0001, 0x0002, 0x1FFF} && (table == None || pid in table.value) {
      AcceptedIsAll(table, pid, Events(ops));
    } else {
      NoneAccepted(table, pid, Events(ops));
    }
  }

  lemma FlushedStore(s: State)
    requires s.core.Consistent()
    ensures Flushed(s).core.store == FinalizedAll(s.core.store)
  {}

  lemma {:induction false} NoneAccepted(table: Option<set<nat>>, pid: nat, events: seq<Event>)
    requires !Accepts(table, pid)
    ensures Accepted(table, pid, events) == []
    decreases |events|
  {
    hide Accepts;
    if events != [] { NoneAccepted(table, pid, events[..|events| - 1]); }
  }
}
