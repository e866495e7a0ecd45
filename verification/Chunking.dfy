/** While synchronisation holds, how the input is cut into calls does not matter. */
module Chunking {
  import opened Bytes
  import opened TsPacket
  import opened DemuxSteps
  import opened DemuxModel

  /** Every aligned block of the octets parses. */
  predicate AllBlocksParse(buf: seq<Byte>) {
    forall i: nat | i < |buf| / 188 :: PacketAt(buf, 188 * i)
  }

  /** What one call with all the data amounts to: the per-packet step folded over the blocks. */
  function Whole(s: State, data: seq<Byte>): (t: State)
    requires s.core.Consistent()
    ensures t.core.Consistent()
  {
    var buf := s.buffer + data;
    var n := |buf| / 188;
    s.(core := PacketSteps(s.core, s.table, Packets(buf, 0, n)), buffer := buf[188 * n..], synced := true)
  }

  /** A state between calls that is synchronised: less than a block is left over. */
  predicate Synchronised(s: State) {
    s.core.Consistent() && s.synced && |s.buffer| < 188
  }

  ghost function FedAll(s: State, chunks: seq<seq<Byte>>): (t: State)
    requires s.core.Consistent()
    ensures t.core.Consistent()
    decreases |chunks|
  {
    if chunks == [] then s else FedAll(Fed(s, chunks[0]), chunks[1..])
  }

  /** In every call the octets left over and the new ones fit the buffer. */
  ghost predicate Fits(s: State, chunks: seq<seq<Byte>>)
    requires s.core.Consistent()
    decreases |chunks|
  {
    chunks != [] ==> |s.buffer| + |chunks[0]| <= MAX_BUFFER && Fits(Fed(s, chunks[0]), chunks[1..])
  }

  /** In every call synchronisation holds. */
  ghost predicate StaysSynchronised(s: State, chunks: seq<seq<Byte>>)
    requires s.core.Consistent()
    decreases |chunks|
  {
    chunks != [] ==> Fed(s, chunks[0]).synced && StaysSynchronised(Fed(s, chunks[0]), chunks[1..])
  }

  lemma Division(m: nat, n: nat)
    ensures (188 * m + n) / 188 == m + n / 188
    ensures 188 * (m + n / 188) <= 188 * m + n
  {}

  /** Good blocks are counted one by one. */
  lemma {:induction false} GoodBlocksCount(buf: seq<Byte>, k: nat)
    requires 188 * k <= |buf|
    ensures var n := GoodBlocks(buf, 188 * k);
      && k + n <= |buf| / 188
      && (forall i: nat | k <= i < k + n :: PacketAt(buf, 188 * i))
      && (k + n < |buf| / 188 ==> !PacketAt(buf, 188 * (k + n)))
    decreases |buf| - 188 * k
  {
    hide TsPacket.Valid;
    if PacketAt(buf, 188 * k) {
      assert 188 * k + 188 == 188 * (k + 1);
      GoodBlocksCount(buf, k + 1);
    }
  }

  /** Draining from the start delivers every block exactly when every block parses. */
  lemma DrainedIsWhole(s: State)
    requires s.core.Consistent()
    ensures Drained(s, 0).synced <==> AllBlocksParse(s.buffer)
    ensures AllBlocksParse(s.buffer) ==> Drained(s, 0) == Whole(s, [])
  {
    hide PacketAt;
    hide PacketSteps;
    hide Packets;
    hide GoodBlocks;
    GoodBlocksCount(s.buffer, 0);
    assert s.buffer + [] == s.buffer;
  }

  lemma FedIsWhole(s: State, chunk: seq<Byte>)
    requires Synchronised(s) && |s.buffer| + |chunk| <= MAX_BUFFER
    ensures Fed(s, chunk).synced <==> AllBlocksParse(s.buffer + chunk)
    ensures AllBlocksParse(s.buffer + chunk) ==> Fed(s, chunk) == Whole(s, chunk)
  {
    hide PacketAt;
    hide PacketSteps;
    hide Drained;
    hide Admits;
    if chunk == [] {
      assert s.buffer + chunk == s.buffer;
      NoSteps(s);
    } else {
      var t := s.(buffer := s.buffer + chunk);
      DrainedIsWhole(t);
      assert t.buffer + [] == t.buffer;
    }
  }

  lemma NoSteps(s: State)
    requires s.core.Consistent()
    ensures PacketSteps(s.core, s.table, []) == s.core
  {}

  lemma {:induction false} PacketsSplit(buf: seq<Byte>, m: nat, n: nat)
    requires 188 * (m + n) <= |buf|
    ensures Packets(buf, 0, m + n) == Packets(buf, 0, m) + Packets(buf[188 * m..], 0, n)
  {
    hide Parse;
    var rest := buf[188 * m..];
    var ps, qs, rs := Packets(buf, 0, m + n), Packets(buf, 0, m), Packets(rest, 0, n);
    forall i | 0 <= i < n
      ensures ps[m + i] == rs[i]
    {
      assert BlockAt(buf, 188 * (m + i)) == BlockAt(rest, 188 * i);
    }
  }

  lemma {:induction false} PacketsPrefix(buf: seq<Byte>, more: seq<Byte>, n: nat)
    requires 188 * n <= |buf|
    ensures Packets(buf + more, 0, n) == Packets(buf, 0, n)
  {
    hide Parse;
    var ps, qs := Packets(buf + more, 0, n), Packets(buf, 0, n);
    forall i | 0 <= i < n
      ensures ps[i] == qs[i]
    {
      assert BlockAt(buf + more, 188 * i) == BlockAt(buf, 188 * i);
    }
  }

  lemma BlockShift(whole: seq<Byte>, off: nat, pos: nat)
    requires off + pos + 188 <= |whole|
    ensures BlockAt(whole, off + pos) == BlockAt(whole[off..], pos)
  {}

  /** Parsing blocks of a concatenation is parsing blocks of its parts. */
  lemma BlocksSplit(buf: seq<Byte>, more: seq<Byte>)
    ensures var m := |buf| / 188;
      AllBlocksParse(buf + more) <==> AllBlocksParse(buf) && AllBlocksParse(buf[188 * m..] + more)
  {
    hide TsPacket.Valid;
    var m := |buf| / 188;
    var whole, rest := buf + more, buf[188 * m..] + more;
    Division(m, |rest|);
    assert whole[188 * m..] == rest;
    assert forall i: nat | i < m :: BlockAt(whole, 188 * i) == BlockAt(buf, 188 * i);
    forall i: nat | i < |rest| / 188
      ensures PacketAt(whole, 188 * (m + i)) == PacketAt(rest, 188 * i)
    {
      assert |whole| == 188 * m + |rest| && 188 * (i + 1) <= 188 * (|rest| / 188) <= |rest|;
      assert 188 * (m + i) + 188 <= |whole|;
      BlockShift(whole, 188 * m, 188 * i);
    }
    if AllBlocksParse(buf) && AllBlocksParse(rest) {
      forall i: nat | i < |whole| / 188
        ensures PacketAt(whole, 188 * i)
      {
        if i < m { assert PacketAt(buf, 188 * i); } else { assert PacketAt(rest, 188 * (i - m)); }
      }
    }
    if AllBlocksParse(whole) {
      forall i: nat | i < m ensures PacketAt(buf, 188 * i) { assert PacketAt(whole, 188 * i); }
      forall i: nat | i < |rest| / 188 ensures PacketAt(rest, 188 * i) { assert PacketAt(whole, 188 * (m + i)); }
    }
  }

  lemma Leftover(buf: seq<Byte>, more: seq<Byte>)
    ensures var m := |buf| / 188; var rest := buf[188 * m..] + more; var n := |rest| / 188; var whole := buf + more;
      && |whole| / 188 == m + n && 188 * (m + n) <= |whole| && 188 * n <= |rest|
      && whole[188 * m..] == rest && whole[188 * (m + n)..] == rest[188 * n..]
  {
    var m := |buf| / 188;
    var rest := buf[188 * m..] + more;
    Division(m, |rest|);
    assert (buf + more)[188 * m..] == rest;
  }

  /** Folding over the blocks in two goes is folding once. */
  lemma WholeComposes(s: State, a: seq<Byte>, b: seq<Byte>)
    requires s.core.Consistent()
    ensures Whole(Whole(s, a), b) == Whole(s, a + b)
  {
    hide PacketSteps;
    hide Packets;
    hide Core.Consistent;
    var buf := s.buffer + a;
    var m := |buf| / 188;
    var rest := buf[188 * m..] + b;
    assert s.buffer + (a + b) == buf + b;
    Leftover(buf, b);
    PacketsSplit(buf + b, m, |rest| / 188);
    PacketsPrefix(buf, b, m);
    PacketStepsAppend(s.core, s.table, Packets(buf, 0, m), Packets(rest, 0, |rest| / 188));
  }

  lemma WholeSynchronised(s: State, data: seq<Byte>)
    requires Synchronised(s)
    ensures Synchronised(Whole(s, data))
    ensures data == [] ==> Whole(s, data) == s
  {
    hide PacketStep;
    if data == [] {
      assert s.buffer + data == s.buffer;
    }
  }

  /** From a synchronised state, if the buffer never overflows and every aligned block parses, any
      split of the input over calls has the same effect as folding the packet step once over the
      blocks. */
  lemma {:induction false} ChunkingDoesNotMatter(s: State, chunks: seq<seq<Byte>>)
    requires Synchronised(s) && Fits(s, chunks) && AllBlocksParse(s.buffer + Flatten(chunks))
    ensures FedAll(s, chunks) == Whole(s, Flatten(chunks))
    decreases |chunks|
  {
    hide Whole;
    hide Fed;
    hide AllBlocksParse;
    if chunks == [] {
      WholeSynchronised(s, []);
    } else {
      var data, rest := chunks[0], Flatten(chunks[1..]);
      assert s.buffer + Flatten(chunks) == (s.buffer + data) + rest;
      BlocksSplit(s.buffer + data, rest);
      FedIsWhole(s, data);
      WholeSynchronised(s, data);
      WholeBuffer(s, data);
      ChunkingDoesNotMatter(Fed(s, data), chunks[1..]);
      WholeComposes(s, data, rest);
    }
  }

  lemma WholeBuffer(s: State, data: seq<Byte>)
    requires s.core.Consistent()
    ensures Whole(s, data).buffer == (s.buffer + data)[188 * (|s.buffer + data| / 188)..]
  {
    hide PacketSteps;
  }

  /** Without overflow, synchronisation holds throughout exactly when every aligned block parses. */
  lemma {:induction false} StaysSynchronisedExactly(s: State, chunks: seq<seq<Byte>>)
    requires Synchronised(s) && Fits(s, chunks)
    ensures StaysSynchronised(s, chunks) <==> AllBlocksParse(s.buffer + Flatten(chunks))
    decreases |chunks|
  {
    hide Whole;
    hide Fed;
    if chunks == [] {
      assert s.buffer + [] == s.buffer;
    } else {
      hide AllBlocksParse;
      var data, rest := chunks[0], Flatten(chunks[1..]);
      assert s.buffer + Flatten(chunks) == (s.buffer + data) + rest;
      BlocksSplit(s.buffer + data, rest);
      FedIsWhole(s, data);
      if AllBlocksParse(s.buffer + data) {
        WholeSynchronised(s, data);
        WholeBuffer(s, data);
        StaysSynchronisedExactly(Fed(s, data), chunks[1..]);
      }
    }
  }

  lemma OneChunk(s: State, chunk: seq<Byte>)
    requires s.core.Consistent()
    ensures Fits(s, [chunk]) <==> |s.buffer| + |chunk| <= MAX_BUFFER
    ensures StaysSynchronised(s, [chunk]) <==> Fed(s, chunk).synced
  {
    hide Fed;
    hide Core.Consistent;
    assert [chunk][1..] == [];
  }

  /** A block of zeros fits and loses synchronisation. */
  lemma ZerosLoseSynchronisation(s: State)
    requires Synchronised(s) && s.buffer == []
    ensures var zeros: seq<Byte> := seq(188, _ => 0);
      Fits(s, [zeros]) && !AllBlocksParse(s.buffer + zeros) && !StaysSynchronised(s, [zeros])
  {
    hide Fed;
    hide Fits;
    hide StaysSynchronised;
    hide PacketAt;
    hide Core.Consistent;
    var zeros: seq<Byte> := seq(188, _ => 0);
    assert s.buffer + zeros == zeros;
    ZerosAreNoPacket();
    assert !PacketAt(zeros, 188 * 0);
    OneChunk(s, zeros);
    FedIsWhole(s, zeros);
  }

  lemma ZerosAreNoPacket()
    ensures var zeros: seq<Byte> := seq(188, _ => 0); !PacketAt(zeros, 0)
  {
    var zeros: seq<Byte> := seq(188, _ => 0);
    assert BlockAt(zeros, 0)[0] == 0;
  }
}
