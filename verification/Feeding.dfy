/** Runs of feeding calls: what they deliver all in all, and how cuts made before synchronisation is
    found do not matter. */
module Feeding {
  import opened Bytes
  import opened TsPacket
  import opened DemuxSteps
  import opened DemuxModel
  import opened Chunking
  import opened Reachability
  import opened Redelivery

  /** Calls that feed chunks. */
  function Feeds(chunks: seq<seq<Byte>>): (ops: seq<Op>)
    ensures |ops| == |chunks|
  {
    seq(|chunks|, i requires 0 <= i < |chunks| => Feed(chunks[i]))
  }

  lemma FeedsSnoc(chunks: seq<seq<Byte>>)
    requires chunks != []
    ensures var init, last := chunks[..|chunks| - 1], chunks[|chunks| - 1];
      chunks == init + [last] && Feeds(chunks) == Feeds(init) + [Feed(last)]
  {}

  lemma {:induction false} RunFeeds(ops: seq<Op>, chunks: seq<seq<Byte>>)
    ensures Run(ops + Feeds(chunks)) == FedAll(Run(ops), chunks)
    decreases |chunks|
  {
    hide Run;
    hide Fed;
    hide Core.Consistent;
    if chunks == [] {
      assert ops + Feeds(chunks) == ops;
    } else {
      var init, last := chunks[..|chunks| - 1], chunks[|chunks| - 1];
      FeedsSnoc(chunks);
      RunFeeds(ops, init);
      assert ops + Feeds(chunks) == ops + Feeds(init) + [Feed(last)];
      RunSnoc(ops + Feeds(init), Feed(last));
      FedAllSnoc(Run(ops), init, last);
      hide FedAll;
      hide Feeds;
    }
  }

  lemma LastCall(ops: seq<Op>)
    requires ops != []
    ensures Run(ops) == Step(Run(ops[..|ops| - 1]), ops[|ops| - 1])
  {
    hide Step;
  }

  lemma FeedIsFed(s: State, chunk: seq<Byte>)
    requires s.core.Consistent()
    ensures Step(s, Feed(chunk)) == Fed(s, chunk)
  {
    hide Fed;
    hide Core.Consistent;
  }

  /** The packets that calls deliver, one call after another. */
  ghost function Deliveries(s: State, chunks: seq<seq<Byte>>): seq<Packet>
    requires s.core.Consistent()
    decreases |chunks|
  {
    if chunks == [] then [] else DeliveredBy(s, chunks[0]) + Deliveries(Fed(s, chunks[0]), chunks[1..])
  }

  /** They are all that calls do to the state apart from the buffer. */
  lemma {:induction false} FedAllDelivers(s: State, chunks: seq<seq<Byte>>)
    requires s.core.Consistent()
    ensures FedAll(s, chunks).core == PacketSteps(s.core, s.table, Deliveries(s, chunks))
    ensures FedAll(s, chunks).table == s.table
    decreases |chunks|
  {
    hide Fed;
    hide DeliveredBy;
    hide Core.Consistent;
    if chunks == [] {
      NoSteps(s);
    } else {
      hide PacketSteps;
      FeedingDelivers(s, chunks[0]);
      FedAllDelivers(Fed(s, chunks[0]), chunks[1..]);
      PacketStepsAppend(s.core, s.table, DeliveredBy(s, chunks[0]), Deliveries(Fed(s, chunks[0]), chunks[1..]));
    }
  }

  // ------------------------------------------------------------------------------------------
  // Before synchronisation is found
  // ------------------------------------------------------------------------------------------

  /** A call that finds nothing only adds to the buffer. */
  lemma Waits(s: State, a: seq<Byte>)
    requires s.core.Consistent() && !s.synced && |s.buffer| + |a| <= MAX_BUFFER && FirstSync(s.buffer + a).None?
    ensures Fed(s, a) == s.(buffer := s.buffer + a)
  {
    hide FirstSync;
    hide Drained;
    hide Core.Consistent;
    if a == [] { assert s.buffer + a == s.buffer; }
  }

  /** While the search finds nothing, feeding in two goes is feeding at once. */
  lemma WaitingComposes(s: State, a: seq<Byte>, b: seq<Byte>)
    requires s.core.Consistent() && !s.synced && FirstSync(s.buffer + a).None?
    requires |s.buffer| + |a| + |b| <= MAX_BUFFER
    ensures Fed(Fed(s, a), b) == Fed(s, a + b)
  {
    Waits(s, a);
    assert s.buffer + a + b == s.buffer + (a + b);
    if b == [] {
      assert a + b == a;
      FedIs(Fed(s, a), b);
      hide *;
    } else {
      FedIs(Fed(s, a), b);
      FedIs(s, a + b);
      hide *;
    }
  }

  lemma NothingBefore(buf: seq<Byte>, more: seq<Byte>)
    requires FirstSync(buf + more).None?
    ensures FirstSync(buf).None?
  {
    if FirstSync(buf).Some? { FirstSyncExtends(buf, more); }
    hide FirstSync;
  }

  lemma FirstOfCalls(s: State, c: seq<Byte>, rest: seq<seq<Byte>>)
    requires s.core.Consistent()
    ensures FedAll(s, [c] + rest) == FedAll(Fed(s, c), rest) && Flatten([c] + rest) == c + Flatten(rest)
  {
    assert ([c] + rest)[0] == c && ([c] + rest)[1..] == rest;
    hide Fed;
    hide Core.Consistent;
  }

  lemma OneCall(s: State, last: seq<Byte>)
    requires s.core.Consistent()
    ensures FedAll(s, [] + [last]) == Fed(s, Flatten<Byte>([]) + last)
  {
    assert Flatten<Byte>([]) + last == last && [] + [last] == [last] && [last][1..] == [];
    hide Fed;
    hide Core.Consistent;
  }

  /** However the input is cut, as long as the search finds nothing before the last call. */
  lemma {:induction false} CutsBeforeSync(s: State, chunks: seq<seq<Byte>>, last: seq<Byte>)
    requires s.core.Consistent() && !s.synced && FirstSync(s.buffer + Flatten(chunks)).None?
    requires |s.buffer| + |Flatten(chunks)| + |last| <= MAX_BUFFER
    ensures FedAll(s, chunks + [last]) == Fed(s, Flatten(chunks) + last)
    decreases |chunks|
  {
    hide *;
    if chunks == [] {
      OneCall(s, last);
    } else {
      var c, rest := chunks[0], chunks[1..];
      assert chunks == [c] + rest && chunks + [last] == [c] + (rest + [last]);
      FirstOfCalls(s, c, rest);
      FirstOfCalls(s, c, rest + [last]);
      assert s.buffer + (c + Flatten(rest)) == s.buffer + c + Flatten(rest);
      assert c + Flatten(rest) + last == c + (Flatten(rest) + last);
      NothingBefore(s.buffer + c, Flatten(rest));
      Waits(s, c);
      CutsBeforeSync(Fed(s, c), rest, last);
      WaitingComposes(s, c, Flatten(rest) + last);
    }
  }

  /** And after the call that finds it, as long as no call overflows and every block parses, the rest
      can be cut anyhow, too. */
  lemma AnyCut(s: State, chunks: seq<seq<Byte>>, last: seq<Byte>, rest: seq<seq<Byte>>)
    requires s.core.Consistent() && !s.synced && FirstSync(s.buffer + Flatten(chunks)).None?
    requires |s.buffer| + |Flatten(chunks)| + |last| <= MAX_BUFFER
    requires var found := Fed(s, Flatten(chunks) + last);
      Synchronised(found) && Fits(found, rest) && AllBlocksParse(found.buffer + Flatten(rest))
    ensures FedAll(s, chunks + [last] + rest) == Whole(Fed(s, Flatten(chunks) + last), Flatten(rest))
  {
    hide *;
    CutsBeforeSync(s, chunks, last);
    FedAllAppend(s, chunks + [last], rest);
    ChunkingDoesNotMatter(Fed(s, Flatten(chunks) + last), rest);
  }

  lemma {:induction false} FedAllAppend(s: State, a: seq<seq<Byte>>, b: seq<seq<Byte>>)
    requires s.core.Consistent()
    ensures FedAll(s, a + b) == FedAll(FedAll(s, a), b)
    decreases |a|
  {
    hide Fed;
    hide Core.Consistent;
    if a == [] {
      assert a + b == b;
    } else {
      assert (a + b)[0] == a[0] && (a + b)[1..] == a[1..] + b;
      FedAllAppend(Fed(s, a[0]), a[1..], b);
    }
  }
}
