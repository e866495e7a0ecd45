/** What holds after every public call, in any run: where the buffer comes from and how large it is,
    and that only blocks of the input are delivered. */
module Reachability {
  import opened Bytes
  import opened TsPacket
  import opened DemuxSteps
  import opened DemuxModel
  import opened Chunking

  /** The octets fed since the last `clearAll`. */
  function FedSince(ops: seq<Op>): seq<Byte> {
    if ops == [] then [] else
    var before := FedSince(ops[..|ops| - 1]);
    match ops[|ops| - 1]
    case Feed(chunk) => before + chunk
    case ClearAll => []
    case _ => before
  }

  predicate IsSuffix(buffer: seq<Byte>, all: seq<Byte>) {
    |buffer| <= |all| && buffer == all[|all| - |buffer|..]
  }

  lemma SuffixOfSuffix(a: seq<Byte>, b: seq<Byte>, c: seq<Byte>)
    requires IsSuffix(a, b) && IsSuffix(b, c)
    ensures IsSuffix(a, c)
  {}

  lemma AppendToSuffix(a: seq<Byte>, b: seq<Byte>, more: seq<Byte>)
    requires IsSuffix(a, b)
    ensures IsSuffix(a + more, b + more)
  {}

  lemma DrainedBuffer(s: State, off: nat)
    requires s.core.Consistent() && off <= |s.buffer|
    ensures var t := Drained(s, off);
      IsSuffix(t.buffer, s.buffer) && t.table == s.table && (t.synced ==> |t.buffer| < 188)
  {
    hide PacketSteps;
    hide GoodBlocks;
    hide Packets;
    hide Core.Consistent;
  }

  lemma ProcessedBuffer(s: State)
    requires s.core.Consistent()
    ensures var t := Processed(s);
      IsSuffix(t.buffer, s.buffer) && t.table == s.table && (t.synced ==> |t.buffer| < 188)
  {
    hide Drained;
    hide Admits;
    hide Core.Consistent;
    if s.synced {
      DrainedBuffer(s, 0);
    } else if FirstSync(s.buffer).Some? {
      DrainedBuffer(s, FirstSync(s.buffer).value);
    }
  }

  lemma ClippedIsSuffix(buf: seq<Byte>)
    ensures IsSuffix(Clipped(buf), buf)
  {}

  lemma FedIs(s: State, chunk: seq<Byte>)
    requires s.core.Consistent()
    ensures Fed(s, chunk) == if chunk == [] then s else Processed(s.(buffer := Clipped(s.buffer + chunk)))
  {
    hide Processed;
    hide Clipped;
  }

  lemma FedBuffer(s: State, chunk: seq<Byte>)
    requires s.core.Consistent() && |s.buffer| <= MAX_BUFFER && (s.synced ==> |s.buffer| < 188)
    ensures var t := Fed(s, chunk);
      IsSuffix(t.buffer, s.buffer + chunk) && |t.buffer| <= MAX_BUFFER && (t.synced ==> |t.buffer| < 188)
  {
    hide Processed;
    hide Fed;
    hide Clipped;
    hide Core.Consistent;
    FedIs(s, chunk);
    if chunk == [] {
      assert s.buffer + chunk == s.buffer;
    } else {
      var clipped := Clipped(s.buffer + chunk);
      ProcessedBuffer(s.(buffer := clipped));
      ClippedIsSuffix(s.buffer + chunk);
      SuffixOfSuffix(Processed(s.(buffer := clipped)).buffer, clipped, s.buffer + chunk);
    }
  }

  /** After every run the buffer is the end of what was fed since the last `clearAll`, never longer
      than 18800 octets, and shorter than a block while synchronised. */
  lemma {:induction false} BufferInvariant(ops: seq<Op>)
    ensures var s := Run(ops);
      IsSuffix(s.buffer, FedSince(ops)) && |s.buffer| <= 18800 && (s.synced ==> Synchronised(s))
    decreases |ops|
  {
    hide Fed;
    hide FinalizedAll;
    if ops != [] {
      var init, op := ops[..|ops| - 1], ops[|ops| - 1];
      BufferInvariant(init);
      if op.Feed? {
        var s := Run(init);
        FedBuffer(s, op.chunk);
        AppendToSuffix(s.buffer, FedSince(init), op.chunk);
        SuffixOfSuffix(Fed(s, op.chunk).buffer, s.buffer + op.chunk, FedSince(ops));
      }
    }
  }

  // ------------------------------------------------------------------------------------------
  // Deliveries
  // ------------------------------------------------------------------------------------------

  /** The packets a call delivers. */
  ghost function DeliveredBy(s: State, chunk: seq<Byte>): seq<Packet> {
    var start, buf := DeliveryStart(s, chunk), Clipped(s.buffer + chunk);
    if start.None? || start.value > |buf| then [] else Packets(buf, start.value, GoodBlocks(buf, start.value))
  }

  lemma DrainedDelivers(s: State, off: nat)
    requires s.core.Consistent() && off <= |s.buffer|
    ensures var t := Drained(s, off);
      t.core == PacketSteps(s.core, s.table, Packets(s.buffer, off, GoodBlocks(s.buffer, off))) && t.table == s.table
  {
    hide PacketSteps;
    hide GoodBlocks;
    hide Packets;
    hide Core.Consistent;
  }

  /** Packets change the core state through the packet step only. */
  lemma FeedingDelivers(s: State, chunk: seq<Byte>)
    requires s.core.Consistent()
    ensures Fed(s, chunk).core == PacketSteps(s.core, s.table, DeliveredBy(s, chunk))
    ensures Fed(s, chunk).table == s.table
  {
    NoSteps(s);
    hide PacketSteps;
    hide Admits;
    hide Packets;
    hide GoodBlocks;
    hide Drained;
    hide Clipped;
    hide Core.Consistent;
    var t := s.(buffer := Clipped(s.buffer + chunk));
    if DeliveryStart(s, chunk).Some? { DrainedDelivers(t, DeliveryStart(s, chunk).value); }
  }

  /** The position, among the octets fed, of the first block a call delivers. */
  ghost function DeliveryPosition(s: State, chunk: seq<Byte>, fed: nat): int
    requires DeliveryStart(s, chunk).Some?
  {
    fed - |Clipped(s.buffer + chunk)| + DeliveryStart(s, chunk).value
  }

  /** In every run, whatever a call delivers are accepted blocks of the octets fed since the last
      `clearAll`, back to back from one position on. */
  lemma OnlyInputIsDelivered(ops: seq<Op>, chunk: seq<Byte>, i: nat)
    requires i < |DeliveredBy(Run(ops), chunk)|
    ensures DeliveryStart(Run(ops), chunk).Some?
    ensures var fed := FedSince(ops) + chunk;
      var at := DeliveryPosition(Run(ops), chunk, |fed|) + 188 * i;
      0 <= at && PacketAt(fed, at) && DeliveredBy(Run(ops), chunk)[i] == ParsedAt(fed, at)
  {
    hide *;
    ClippedOfRun(ops, chunk);
    DeliveredIsBlock(Run(ops), chunk, FedSince(ops) + chunk, i);
  }

  lemma ClippedOfRun(ops: seq<Op>, chunk: seq<Byte>)
    ensures IsSuffix(Clipped(Run(ops).buffer + chunk), FedSince(ops) + chunk)
  {
    hide Run;
    hide FedSince;
    hide Clipped;
    BufferInvariant(ops);
    var s := Run(ops);
    AppendToSuffix(s.buffer, FedSince(ops), chunk);
    ClippedIsSuffix(s.buffer + chunk);
    SuffixOfSuffix(Clipped(s.buffer + chunk), s.buffer + chunk, FedSince(ops) + chunk);
  }

  lemma DeliveredIsBlock(s: State, chunk: seq<Byte>, fed: seq<Byte>, i: nat)
    requires i < |DeliveredBy(s, chunk)| && IsSuffix(Clipped(s.buffer + chunk), fed)
    ensures DeliveryStart(s, chunk).Some?
    ensures var at := DeliveryPosition(s, chunk, |fed|) + 188 * i;
      0 <= at && PacketAt(fed, at) && DeliveredBy(s, chunk)[i] == ParsedAt(fed, at)
  {
    hide Clipped;
    hide FirstSync;
    hide PacketAt;
    hide Parse;
    hide GoodBlocks;
    hide DeliveryStart;
    var buf := Clipped(s.buffer + chunk);
    var start := DeliveryStart(s, chunk).value;
    GoodBlockAt(buf, start, i);
    SameBlock(buf, fed, start + 188 * i);
  }

  lemma SameBlock(buf: seq<Byte>, all: seq<Byte>, pos: nat)
    requires IsSuffix(buf, all) && PacketAt(buf, pos)
    ensures var at := |all| - |buf| + pos; PacketAt(all, at) && ParsedAt(all, at) == ParsedAt(buf, pos)
  {
    hide TsPacket.Valid;
    hide Parse;
    assert BlockAt(buf, pos) == BlockAt(all, |all| - |buf| + pos);
  }

  lemma {:induction false} GoodBlockAt(buf: seq<Byte>, start: nat, i: nat)
    requires i < GoodBlocks(buf, start)
    ensures PacketAt(buf, start + 188 * i)
    decreases i
  {
    hide PacketAt;
    if i > 0 { GoodBlockAt(buf, start + 188, i - 1); }
  }

  /** The position of the next octet to be delivered while synchronised. */
  ghost function Next(ops: seq<Op>): int {
    |FedSince(ops)| - |Run(ops).buffer|
  }

  /** What a call does while synchronisation holds and the buffer does not overflow. */
  lemma SynchronisedCall(s: State, chunk: seq<Byte>)
    requires s.core.Consistent()
    requires s.synced && |s.buffer| + |chunk| <= MAX_BUFFER && Fed(s, chunk).synced
    ensures DeliveryStart(s, chunk) == if chunk == [] then None else Some(0)
    ensures |Fed(s, chunk).buffer| + 188 * |DeliveredBy(s, chunk)| == |s.buffer| + |chunk|
    ensures Clipped(s.buffer + chunk) == s.buffer + chunk
  {
    hide PacketSteps;
    hide Packets;
    hide GoodBlocks;
    hide FirstSync;
    hide Core.Consistent;
  }

  lemma FedSinceFeed(ops: seq<Op>, chunk: seq<Byte>)
    ensures FedSince(ops + [Feed(chunk)]) == FedSince(ops) + chunk
  {
    assert (ops + [Feed(chunk)])[..|ops + [Feed(chunk)]| - 1] == ops;
  }

  /** While synchronisation holds and the buffer does not overflow, each call delivers the blocks
      that follow, at stride 188, those already delivered; so no block is delivered twice. */
  lemma DeliveriesAreContiguous(ops: seq<Op>, chunk: seq<Byte>)
    requires var s := Run(ops);
      s.synced && |s.buffer| + |chunk| <= MAX_BUFFER && Fed(s, chunk).synced
    ensures var n := |DeliveredBy(Run(ops), chunk)|;
      && (n > 0 ==>
          DeliveryStart(Run(ops), chunk).Some?
          && DeliveryPosition(Run(ops), chunk, |FedSince(ops) + chunk|) == Next(ops))
      && Next(ops + [Feed(chunk)]) == Next(ops) + 188 * n
  {
    RunSnoc(ops, Feed(chunk));
    FedSinceFeed(ops, chunk);
    SynchronisedCall(Run(ops), chunk);
    NothingFromNothing(Run(ops), chunk);
    hide Run;
    hide FedSince;
    hide DeliveryStart;
    hide DeliveredBy;
    hide Fed;
    hide Clipped;
    hide Core.Consistent;
  }

  lemma NothingFromNothing(s: State, chunk: seq<Byte>)
    ensures chunk == [] ==> DeliveredBy(s, chunk) == []
  {}
}
