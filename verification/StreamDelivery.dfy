/** Scanner and queue together: the segments the scanner hands out, added to the queue by the
    producer, reach the consumers stream by stream. */
module StreamDelivery {
  import opened ByteSeq
  import opened Bz2Format
  import opened Options
  import opened Segments
  import opened ScanBoundary
  import opened ScanProofs
  import Q = QueueSpec

  /** The bytes of block k in the order in which its segments leave during a run. */
  function LeftBytes(q: Q.Queue, steps: seq<Q.Step>, k: nat): Bytes
    decreases |steps|
  {
    if steps == [] then []
    else LeavingBytes(q, steps[0], k) + LeftBytes(Q.Do(q, steps[0]), steps[1..], k)
  }

  function LeavingBytes(q: Q.Queue, step: Q.Step, k: nat): Bytes {
    if step.RemoveStep? && Q.Offered(q, step.c).Some? && Q.Offered(q, step.c).value < |q.added| then
      var s := q.added[Q.Offered(q, step.c).value];
      if s.blockNumber == k then s.bytes else []
    else []
  }

  /** The bytes of those segments of block k that have left, in the order of the block. */
  function OwnedBytes(h: seq<Segment>, m: map<nat, nat>, k: nat): Bytes {
    if h == [] then []
    else
      var i := |h| - 1;
      OwnedBytes(h[..i], m, k) + if h[i].blockNumber == k && i in m then h[i].bytes else []
  }

  lemma {:induction false} OwnedAll(h: seq<Segment>, m: map<nat, nat>, k: nat)
    requires forall i | 0 <= i < |h| :: i in m
    ensures OwnedBytes(h, m, k) == BlockBytes(h, k)
  {
    if h != [] {
      OwnedAll(h[..|h| - 1], m, k);
    }
  }

  lemma {:induction false} OwnedNone(h: seq<Segment>, k: nat)
    ensures OwnedBytes(h, map[], k) == []
  {
    if h != [] {
      OwnedNone(h[..|h| - 1], k);
    }
  }

  /** Taking an element of another block changes nothing; taking one of block k appends its
      bytes, if no later one of the block is gone already. */
  lemma {:induction false} OwnedTake(h: seq<Segment>, m: map<nat, nat>, i: nat, c: nat, k: nat)
    requires i !in m
    requires forall j | i < j < |h| && h[j].blockNumber == k && i < |h| && h[i].blockNumber == k :: j !in m
    ensures OwnedBytes(h, m[i := c], k)
         == OwnedBytes(h, m, k) + if i < |h| && h[i].blockNumber == k then h[i].bytes else []
  {
    if h != [] {
      OwnedTake(h[..|h| - 1], m, i, c, k);
    }
  }

  lemma LaterNotLeft(q: Q.Queue, i: nat, j: nat)
    requires Q.Inv(q) && i < j < |q.added| && i !in q.owner && q.added[i].blockNumber == q.added[j].blockNumber
    ensures j !in q.owner
  {
    hide Q.Inv;
    if j in q.owner {
      Q.StreamHasOneConsumer(q, i, j);
    }
  }

  lemma StepLeaves(q: Q.Queue, step: Q.Step, k: nat)
    requires Q.Inv(q) && Q.Enabled(q, step)
    ensures var q' := Q.Do(q, step);
            OwnedBytes(q'.added, q'.owner, k) == OwnedBytes(q.added, q.owner, k) + LeavingBytes(q, step, k)
  {
    hide Q.Inv, Q.Offered, Q.MidChain;
    match step
    case AddStep(s) =>
      Q.OwnedAreAdded(q);
      assert (q.added + [s])[..|q.added|] == q.added;
      assert |q.added| !in q.owner;
    case RemoveStep(c) =>
      if Q.Offered(q, c).Some? {
        var i := Q.Offered(q, c).value;
        Q.OfferedIsIn(q, c);
        forall j | i < j < |q.added| && q.added[j].blockNumber == k && q.added[i].blockNumber == k ensures j !in q.owner {
          LaterNotLeft(q, i, j);
        }
        OwnedTake(q.added, q.owner, i, c, k);
      }
    case ForgetStep(c) =>
  }

  lemma {:induction false} RunLeaves(q: Q.Queue, steps: seq<Q.Step>, k: nat)
    requires Q.Inv(q) && Q.Legal(q, steps)
    ensures var end := Q.Run(q, steps);
            OwnedBytes(end.added, end.owner, k) == OwnedBytes(q.added, q.owner, k) + LeftBytes(q, steps, k)
    decreases |steps|
  {
    if steps != [] {
      hide Q.Inv, Q.Enabled, Q.Do, OwnedBytes, LeavingBytes;
      Q.StepInv(q, steps[0]);
      StepLeaves(q, steps[0], k);
      RunLeaves(Q.Do(q, steps[0]), steps[1..], k);
      Assoc(OwnedBytes(q.added, q.owner, k), LeavingBytes(q, steps[0], k), LeftBytes(Q.Do(q, steps[0]), steps[1..], k));
    }
  }

  lemma Assoc(a: Bytes, b: Bytes, c: Bytes)
    ensures a + (b + c) == (a + b) + c
  {
  }

  // ------------------------------------------- what the producer gets to add

  lemma {:induction false} BlockBytesSplit(a: seq<Segment>, b: seq<Segment>, k: nat)
    ensures BlockBytes(a + b, k) == BlockBytes(a, k) + BlockBytes(b, k)
  {
    if b == [] {
      assert a + b == a;
    } else {
      assert (a + b)[..|a + b| - 1] == a + b[..|b| - 1];
      BlockBytesSplit(a, b[..|b| - 1], k);
    }
  }

  lemma {:induction false} BlocksGrow(h: seq<Segment>, i: nat, j: nat)
    requires WellSequenced(h) && i <= j < |h|
    ensures h[i].blockNumber <= h[j].blockNumber
    decreases j - i
  {
    if i < j {
      BlocksGrow(h, i, j - 1);
      assert FollowsAt(h, j);
    }
  }

  /** With the first m segments the streams of the blocks up to their last are complete, if
      the next is an empty one that ends its block. */
  lemma CutAtEmpty(h: seq<Segment>, m: nat, k: nat)
    requires WellSequenced(h) && 0 < m < |h| && !h[m - 1].isLast && h[m].isLast && h[m].bytes == []
    ensures BlockBytes(h[..m], k) == if k <= h[m - 1].blockNumber then BlockBytes(h, k) else []
  {
    var before, behind := h[..m], h[m + 1..];
    assert FollowsAt(h, m);
    assert h == before + ([h[m]] + behind);
    hide BlockBytes;
    BlockBytesSplit(before, [h[m]] + behind, k);
    if k <= h[m - 1].blockNumber {
      BlockBytesSplit([h[m]], behind, k);
      NothingInEmpty(h[m], k);
      forall i | 0 <= i < |behind| ensures behind[i].blockNumber != k {
        assert FollowsAt(h, m + 1);
        BlocksGrow(h, m + 1, m + 1 + i);
      }
      BlockBytesAbsent(behind, k);
    } else {
      forall i | 0 <= i < m ensures before[i].blockNumber != k {
        BlocksGrow(h, i, m - 1);
      }
      BlockBytesAbsent(before, k);
    }
  }

  lemma NothingInEmpty(g: Segment, k: nat)
    requires g.bytes == []
    ensures BlockBytes([g], k) == []
  {
  }

  /** The streams among the segments in front of the first empty one: all of them if there is
      none, and otherwise those up to the one that was left open, which is complete as well. */
  predicate Arrives(all: seq<Segment>, k: nat) {
    FirstEmpty(all) == |all| || (FirstEmpty(all) > 0 && k <= all[FirstEmpty(all) - 1].blockNumber)
  }

  lemma ProducedBlocks(file: Bytes, capacity: nat, limit: nat, k: nat)
    requires 1 <= limit && HeaderAt(file, 0)
    ensures var all := AllSegments(file, capacity, limit);
            BlockBytes(all[..FirstEmpty(all)], k) == if k < |Streams(file)| && Arrives(all, k) then Streams(file)[k] else []
  {
    hide AllSegments, HeaderAt, Streams, BlockBytes, FirstEmpty, Returned, WellSequenced;
    var all := AllSegments(file, capacity, limit);
    var m := FirstEmpty(all);
    SplitIsCutAtHeaders(file, capacity, limit);
    SplitBlock(file, all, k);
    if m == |all| {
      assert all[..m] == all;
    } else {
      EmptyExactly(file, capacity, limit, m);
      assert m > 0 && !all[m - 1].isLast;
      CutAtEmpty(all, m, k);
    }
  }

  /** From file to consumers: after any run that added what the producer gets to add and in which
      everything left again, what left of block k, in the order it left, is stream k of the file
      and all of it went to one consumer; for every buffer size, limit and queue size.  If the
      producer stopped at an empty segment, nothing arrives of the streams behind it. */
  lemma StreamsReachConsumers(file: Bytes, capacity: nat, limit: nat, size: nat, steps: seq<Q.Step>, k: nat)
    requires 1 <= limit && 1 <= size && HeaderAt(file, 0) && Q.Legal(Q.Init(size), steps)
    requires var all := AllSegments(file, capacity, limit); Q.Run(Q.Init(size), steps).added == all[..FirstEmpty(all)]
    requires Q.Count(Q.Run(Q.Init(size), steps)) == 0
    ensures LeftBytes(Q.Init(size), steps, k)
         == if k < |Streams(file)| && Arrives(AllSegments(file, capacity, limit), k) then Streams(file)[k] else []
    ensures var end := Q.Run(Q.Init(size), steps);
            forall i, j | 0 <= i <= j < |end.added| && end.added[i].blockNumber == end.added[j].blockNumber ::
              i in end.owner && j in end.owner && end.owner[i] == end.owner[j]
  {
    hide Q.Inv, Q.Run, Q.Legal, AllSegments, HeaderAt, Streams, BlockBytes, OwnedBytes, LeftBytes, Q.Count, FirstEmpty, Arrives;
    var q := Q.Init(size);
    var end := Q.Run(q, steps);
    Q.InitInv(size);
    Q.RunInv(q, steps);
    RunLeaves(q, steps, k);
    OwnedNone([], k);
    forall i: nat | i < |end.added| ensures i in end.owner {
      Q.AllLeft(end, i);
    }
    OwnedAll(end.added, end.owner, k);
    ProducedBlocks(file, capacity, limit, k);
    forall i: nat, j: nat | i <= j < |end.added| && end.added[i].blockNumber == end.added[j].blockNumber
      ensures end.owner[i] == end.owner[j]
    {
      Q.StreamHasOneConsumer(end, i, j);
    }
  }

  lemma SplitBlock(file: Bytes, h: seq<Segment>, k: nat)
    requires SplitOf(file, h)
    ensures BlockBytes(h, k) == if k < |Streams(file)| then Streams(file)[k] else []
  {
    hide Streams, BlockBytes, WellSequenced, Returned;
    assert BlockIs(file, h, k);
  }
}
