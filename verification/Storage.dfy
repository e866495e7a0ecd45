/** Storage of finished iterations (src/mpegts_storage.cpp, include/mpegts_types.hpp). */
module Storage {
  import opened Bytes

  datatype PayloadType = Normal | Private

  /** A segment of an iteration's payload data. The pointer of the original is the offset. */
  datatype Segment = Segment(kind: PayloadType, length: nat, offset: nat)

  datatype IterationData = IterationData(payloads: seq<Segment>, data: seq<Byte>, discontinuity: bool,
                                         startSeen: bool, firstCc: nat, lastCc: nat, packetCount: nat)

  datatype Entry = Entry(id: nat, iteration: IterationData)

  /** What the interface hands out for a segment: the octets behind its pointer, if it is set. */
  datatype PayloadBuffer = PayloadBuffer(bytes: Option<seq<Byte>>, length: nat, kind: PayloadType)

  /** Storing an iteration sets the pointer of every segment that starts inside the data. */
  function BufferOf(it: IterationData, s: Segment): PayloadBuffer {
    PayloadBuffer(
      (if s.offset < |it.data| && s.offset + s.length <= |it.data| then Some(it.data[s.offset..s.offset + s.length])
       else None),
      s.length, s.kind)
  }

  /** The buffers of all segments, in order. */
  function Buffers(it: IterationData): (r: seq<PayloadBuffer>)
    ensures |r| == |it.payloads|
    ensures forall i | 0 <= i < |r| :: r[i] == BufferOf(it, it.payloads[i])
  {
    seq(|it.payloads|, i requires 0 <= i < |it.payloads| => BufferOf(it, it.payloads[i]))
  }

  /** The index of the first segment of a kind, or the number of segments. */
  function FirstOfKind(payloads: seq<Segment>, kind: PayloadType): (k: nat)
    ensures k <= |payloads|
    ensures forall i | 0 <= i < k :: payloads[i].kind != kind
    ensures k < |payloads| ==> payloads[k].kind == kind
  {
    if payloads == [] || payloads[0].kind == kind then 0 else 1 + FirstOfKind(payloads[1..], kind)
  }

  /** The total length of the segments of a kind. */
  function KindSize(payloads: seq<Segment>, kind: PayloadType): nat {
    if payloads == [] then 0 else
    var last := payloads[|payloads| - 1];
    KindSize(payloads[..|payloads| - 1], kind) + if last.kind == kind then last.length else 0
  }

  datatype IterationInfo = IterationInfo(id: nat, normalSize: nat, privateSize: nat, hasDiscontinuity: bool,
                                         ccStart: nat, ccEnd: nat, packetCount: nat)

  function Summary(e: Entry): IterationInfo {
    var it := e.iteration;
    IterationInfo(e.id, KindSize(it.payloads, Normal), KindSize(it.payloads, Private), it.discontinuity,
                  it.firstCc, it.lastCc, it.packetCount)
  }

  function Summaries(entries: seq<Entry>): (r: seq<IterationInfo>)
    ensures |r| == |entries|
    ensures forall i | 0 <= i < |r| :: r[i] == Summary(entries[i])
  {
    seq(|entries|, i requires 0 <= i < |entries| => Summary(entries[i]))
  }

  /** The position of the first entry with the id, or the number of entries. */
  function Position(entries: seq<Entry>, id: nat): (k: nat)
    ensures k <= |entries|
    ensures forall i | 0 <= i < k :: entries[i].id != id
    ensures k < |entries| ==> entries[k].id == id
  {
    if entries == [] || entries[0].id == id then 0 else 1 + Position(entries[1..], id)
  }

  function Lookup(entries: seq<Entry>, id: nat): Option<IterationData> {
    var k := Position(entries, id);
    if k < |entries| then Some(entries[k].iteration) else None
  }

  function Without(entries: seq<Entry>, id: nat): seq<Entry> {
    var k := Position(entries, id);
    if k < |entries| then entries[..k] + entries[k + 1..] else entries
  }

  class StreamIterations {
    const pid: nat
    var iterations: seq<Entry>

    constructor (pid: nat)
      ensures this.pid == pid && iterations == []
    {
      this.pid := pid;
      iterations := [];
    }

    method AddIteration(id: nat, iteration: IterationData)
      modifies this
      ensures iterations == old(iterations) + [Entry(id, iteration)]
    {
      iterations := iterations + [Entry(id, iteration)];
    }

    method FindIteration(id: nat) returns (k: nat)
      ensures k == Position(iterations, id)
    {
      k := 0;
      while k < |iterations| && iterations[k].id != id
        invariant k <= Position(iterations, id)
      {
        k := k + 1;
      }
    }

    method GetIteration(id: nat) returns (iteration: Option<IterationData>)
      ensures iteration == Lookup(iterations, id)
    {
      var k := FindIteration(id);
      if k < |iterations| {
        return Some(iterations[k].iteration);
      }
      return None;
    }

    method RemoveIteration(id: nat)
      modifies this
      ensures iterations == Without(old(iterations), id)
    {
      var k := FindIteration(id);
      if k < |iterations| {
        iterations := iterations[..k] + iterations[k + 1..];
      }
    }

    method Clear()
      modifies this
      ensures iterations == []
    {
      iterations := [];
    }

    method Summarize() returns (result: seq<IterationInfo>)
      ensures result == Summaries(iterations)
    {
      result := [];
      for i := 0 to |iterations|
        invariant result == Summaries(iterations[..i])
      {
        var e := iterations[i];
        var normalSize, privateSize := 0, 0;
        for j := 0 to |e.iteration.payloads|
          invariant normalSize == KindSize(e.iteration.payloads[..j], Normal)
          invariant privateSize == KindSize(e.iteration.payloads[..j], Private)
        {
          var payload := e.iteration.payloads[j];
          assert e.iteration.payloads[..j + 1][..j] == e.iteration.payloads[..j];
          if payload.kind == Normal {
            normalSize := normalSize + payload.length;
          } else {
            privateSize := privateSize + payload.length;
          }
        }
        assert e.iteration.payloads[..|e.iteration.payloads|] == e.iteration.payloads;
        assert iterations[..i + 1] == iterations[..i] + [e];
        result := result + [IterationInfo(e.id, normalSize, privateSize, e.iteration.discontinuity,
                                          e.iteration.firstCc, e.iteration.lastCc, e.iteration.packetCount)];
      }
      assert iterations[..|iterations|] == iterations;
    }

    method HasDiscontinuity() returns (found: bool)
      ensures found <==> exists e | e in iterations :: e.iteration.discontinuity
    {
      for i := 0 to |iterations|
        invariant forall j | 0 <= j < i :: !iterations[j].iteration.discontinuity
      {
        if iterations[i].iteration.discontinuity {
          return true;
        }
      }
      return false;
    }
  }

  /** The streams by PID, and the next id to hand out. */
  datatype Streams = Streams(entries: map<nat, seq<Entry>>, nextId: nat)
  {
    function Of(pid: nat): seq<Entry> {
      if pid in entries then entries[pid] else []
    }
  }

  const ID_LIMIT: nat := 0x1_0000_0000

  class DemuxerStreamStorage {
    var streams: map<nat, StreamIterations>
    var nextIterationId: nat

    /** Different PIDs have different stream objects. */
    ghost predicate Valid()
      reads this
    {
      forall p, q | p in streams && q in streams && p != q :: streams[p] != streams[q]
    }

    ghost function View(): Streams
      reads this, streams.Values
    {
      Streams(map p | p in streams :: streams[p].iterations, nextIterationId)
    }

    constructor ()
      ensures Valid() && View() == Streams(map[], 1) && streams == map[]
    {
      streams := map[];
      nextIterationId := 1;
    }

    method GetOrCreateStream(pid: nat) returns (stream: StreamIterations)
      requires Valid()
      modifies this`streams
      ensures Valid() && pid in streams && stream == streams[pid]
      ensures if pid in old(streams) then streams == old(streams)
              else fresh(stream) && stream.iterations == [] && streams == old(streams)[pid := stream]
    {
      if pid !in streams {
        stream := new StreamIterations(pid);
        streams := streams[pid := stream];
      } else {
        stream := streams[pid];
      }
    }

    /** Ids are 32-bit: the counter wraps around. */
    method GenerateIterationID() returns (id: nat)
      modifies this`nextIterationId
      ensures id == old(nextIterationId)
      ensures nextIterationId == (id + 1) % ID_LIMIT
    {
      id := nextIterationId;
      nextIterationId := (nextIterationId + 1) % ID_LIMIT;
    }

    method ClearStream(pid: nat)
      requires Valid()
      modifies streams.Values
      ensures View() == old(View()).(
        entries := if pid in streams then old(View()).entries[pid := []] else old(View()).entries)
    {
      if pid in streams {
        streams[pid].Clear();
      }
    }

    method Clear()
      modifies this
      ensures Valid() && View() == Streams(map[], 1) && streams == map[]
    {
      streams := map[];
      nextIterationId := 1;
    }

    /** Removes an iteration from the stream of a PID, creating the stream if needed. */
    method Remove(pid: nat, id: nat)
      requires Valid()
      modifies this`streams, streams.Values
      ensures Valid() && fresh(streams.Values - old(streams.Values))
      ensures View() == old(View()).(entries := old(View()).entries[pid := Without(old(View()).Of(pid), id)])
    {
      hide Without;
      ghost var was := old(View()).entries[pid := Without(old(View()).Of(pid), id)];
      var stream := GetOrCreateStream(pid);
      stream.RemoveIteration(id);
      assert View().entries.Keys == was.Keys;
      forall p | p in was
        ensures View().entries[p] == was[p]
      {
        if p != pid { assert streams[p] == old(streams)[p] != stream; }
      }
    }

    /** Appends an iteration to the stream of its PID, creating the stream if needed. */
    method Store(pid: nat, id: nat, iteration: IterationData)
      requires Valid()
      modifies this`streams, streams.Values
      ensures Valid() && fresh(streams.Values - old(streams.Values))
      ensures View() == old(View()).(
        entries := old(View()).entries[pid := old(View()).Of(pid) + [Entry(id, iteration)]])
    {
      ghost var was := old(View()).entries[pid := old(View()).Of(pid) + [Entry(id, iteration)]];
      var stream := GetOrCreateStream(pid);
      stream.AddIteration(id, iteration);
      assert View().entries.Keys == was.Keys;
      forall p | p in was
        ensures View().entries[p] == was[p]
      {
        if p != pid { assert streams[p] == old(streams)[p] != stream; }
      }
    }
  }
}
