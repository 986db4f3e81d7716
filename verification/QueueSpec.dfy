/** The decompression queue of pbzip2 as a value.  Its top level is a FIFO of
    primary elements; the later segments of a long stream hang off their
    predecessor and are reached only by the consumer that holds it.  An element is
    named by its position in the order of insertion. */
module QueueSpec {
  import opened Options
  import opened Segments

  /** `owner` says which consumer removed an element; `held` is each consumer's last one. */
  datatype Queue = Queue(size: nat, added: seq<Segment>, queued: seq<nat>, owner: map<nat, nat>, held: map<nat, nat>)

  function Init(size: nat): Queue {
    Queue(size, [], [], map[], map[])
  }

  predicate Primary(s: Segment) {
    s.sequenceNumber <= 1
  }

  function Count(q: Queue): int {
    |q.added| - |q.owner|
  }

  /** Primaries before this position have left, the others are queued. */
  function Front(q: Queue): nat {
    if q.queued == [] then |q.added| else q.queued[0]
  }

  // ------------------------------------------------------------------ steps

  /** queue::add */
  function Add(q: Queue, s: Segment): Queue {
    q.(added := q.added + [s], queued := if Primary(s) then q.queued + [|q.added|] else q.queued)
  }

  /** Is consumer c in the middle of a stream? */
  predicate MidChain(q: Queue, c: nat) {
    c in q.held && q.held[c] < |q.added| && !q.added[q.held[c]].isLast
  }

  /** The element queue::remove gives to consumer c, if any. */
  function Offered(q: Queue, c: nat): Option<nat> {
    if MidChain(q, c) then
      if q.held[c] + 1 < |q.added| then Some(q.held[c] + 1) else None
    else if q.queued == [] then None
    else Some(q.queued[0])
  }

  /** queue::remove by consumer c; a refusal changes nothing. */
  function Remove(q: Queue, c: nat): Queue {
    match Offered(q, c)
    case None => q
    case Some(i) =>
      q.(owner := q.owner[i := c], held := q.held[c := i],
         queued := if MidChain(q, c) then q.queued else q.queued[1..])
  }

  /** A consumer that finished a stream forgets its last element. */
  function Forget(q: Queue, c: nat): Queue {
    if MidChain(q, c) then q else q.(held := q.held - {c})
  }

  // -------------------------------------------------------------- invariant

  ghost predicate QueuedOk(q: Queue) {
    && (forall j, k | 0 <= j < k < |q.queued| :: q.queued[j] < q.queued[k])
    && (forall k | 0 <= k < |q.queued| :: q.queued[k] < |q.added| && Primary(q.added[q.queued[k]]))
    && (forall p | Front(q) <= p < |q.added| && Primary(q.added[p]) :: p in q.queued)
  }

  ghost predicate OwnersOk(q: Queue) {
    && (forall i | i in q.owner :: i < |q.added|)
    && (forall i | 0 <= i < |q.added| && Primary(q.added[i]) :: i in q.owner <==> i < Front(q))
    && (forall i | 1 <= i < |q.added| :: LaterOk(q, i))
  }

  /** A later segment that has left did so after its predecessor, to the same consumer. */
  predicate LaterOk(q: Queue, i: nat) {
    i < |q.added| && !Primary(q.added[i]) && i in q.owner ==> InOrder(q, i)
  }

  predicate InOrder(q: Queue, i: nat) {
    i >= 1 && i in q.owner && i - 1 in q.owner && q.owner[i - 1] == q.owner[i]
  }

  ghost predicate HeldOk(q: Queue) {
    && (forall c | c in q.held :: q.held[c] in q.owner && q.owner[q.held[c]] == c)
    && (forall c | MidChain(q, c) :: NextIsIn(q, c))
    && (forall i | Waiting(q, i) :: HeldByOwner(q, i))
  }

  /** Element i has left, its stream goes on, and the next segment has not left. */
  predicate Waiting(q: Queue, i: nat) {
    i in q.owner && i < |q.added| && !q.added[i].isLast && i + 1 !in q.owner
  }

  predicate NextIsIn(q: Queue, c: nat) {
    c in q.held && q.held[c] + 1 !in q.owner
  }

  predicate HeldByOwner(q: Queue, i: nat) {
    i in q.owner && q.owner[i] in q.held && q.held[q.owner[i]] == i
  }

  ghost predicate Inv(q: Queue) {
    && 1 <= q.size && WellSequenced(q.added)
    && QueuedOk(q) && OwnersOk(q) && HeldOk(q)
    && 0 <= Count(q) <= q.size
  }

  lemma InitInv(size: nat)
    requires 1 <= size
    ensures Inv(Init(size))
  {
  }

  lemma CountBounds(q: Queue)
    requires Inv(q)
    ensures 0 <= Count(q) <= q.size
  {
    hide WellSequenced, QueuedOk, OwnersOk, HeldOk;
  }

  // ------------------------------------------------------ facts on numbering

  lemma {:induction false} OpenIsNumbered(h: seq<Segment>, i: nat)
    requires WellSequenced(h) && i < |h| && !h[i].isLast
    ensures 1 <= h[i].sequenceNumber
  {
    if i > 0 {
      assert FollowsAt(h, i);
      if !h[i - 1].isLast { OpenIsNumbered(h, i - 1); }
    }
  }

  /** An element is a later segment exactly when its predecessor leaves its stream open. */
  lemma LaterFollowsOpen(h: seq<Segment>, i: nat)
    requires WellSequenced(h) && i < |h|
    ensures !Primary(h[i]) <==> i > 0 && !h[i - 1].isLast
  {
    if i > 0 {
      assert FollowsAt(h, i);
      if !h[i - 1].isLast { OpenIsNumbered(h, i - 1); }
    }
  }

  // --------------------------------------------------- every step keeps Inv

  lemma AddInv(q: Queue, s: Segment)
    requires Inv(q) && Count(q) < q.size && WellSequenced(q.added + [s])
    ensures Inv(Add(q, s)) && Count(Add(q, s)) == Count(q) + 1
  {
    hide WellSequenced;
    AddQueued(q, s);
    AddOwners(q, s);
    AddHeld(q, s);
  }

  lemma AddQueued(q: Queue, s: Segment)
    requires QueuedOk(q)
    ensures QueuedOk(Add(q, s))
    ensures Front(Add(q, s)) == if q.queued == [] && !Primary(s) then |q.added| + 1 else Front(q)
  {
    var q' := Add(q, s);
    forall p | Front(q') <= p < |q'.added| && Primary(q'.added[p]) ensures p in q'.queued {
      if p < |q.added| {
        assert p in q.queued;
      } else {
        assert q'.queued[|q.queued|] == p;
      }
    }
  }

  lemma AddOwners(q: Queue, s: Segment)
    requires QueuedOk(q) && OwnersOk(q)
    ensures OwnersOk(Add(q, s))
  {
    var q' := Add(q, s);
    AddQueued(q, s);
    assert |q.added| !in q.owner;
    forall i | 1 <= i < |q'.added| ensures LaterOk(q', i) {
      assert i < |q.added| ==> LaterOk(q, i);
    }
  }

  lemma AddHeld(q: Queue, s: Segment)
    requires (forall i | i in q.owner :: i < |q.added|) && HeldOk(q)
    ensures HeldOk(Add(q, s))
  {
    hide Primary;
    var q' := Add(q, s);
    assert forall i | 0 <= i < |q.added| :: q'.added[i] == q.added[i];
    forall c | MidChain(q', c) ensures NextIsIn(q', c) {
      assert MidChain(q, c) && NextIsIn(q, c);
    }
    forall i | Waiting(q', i) ensures HeldByOwner(q', i) {
      assert Waiting(q, i) && HeldByOwner(q, i);
    }
  }

  lemma HeldIn(q: Queue, c: nat)
    requires Inv(q) && c in q.held
    ensures q.held[c] in q.owner && q.owner[q.held[c]] == c
  {
    hide WellSequenced, QueuedOk, OwnersOk;
  }

  /** What is offered is in the queue and has not left. */
  lemma OfferedIsIn(q: Queue, c: nat)
    requires Inv(q) && Offered(q, c).Some?
    ensures var i := Offered(q, c).value;
            && i < |q.added| && i !in q.owner
            && (MidChain(q, c) ==> i == q.held[c] + 1 && !Primary(q.added[i]))
            && (!MidChain(q, c) ==> i == Front(q) && Primary(q.added[i]))
  {
    hide WellSequenced;
    if MidChain(q, c) {
      assert NextIsIn(q, c);
      LaterFollowsOpen(q.added, q.held[c] + 1);
    } else {
      assert q.queued[0] in q.queued;
    }
  }

  lemma OwnerGrows(m: map<nat, nat>, i: nat, c: nat)
    requires i !in m
    ensures |m[i := c]| == |m| + 1
  {
    assert m[i := c].Keys == m.Keys + {i};
    assert |m.Keys| == |m| && |m[i := c].Keys| == |m[i := c]|;
  }

  lemma OwnerBound(m: map<nat, nat>, n: nat)
    requires forall i | i in m :: i < n
    ensures |m| <= n
  {
    assert |m.Keys| == |m|;
    assert m.Keys <= Below(n);
    SubsetSize(m.Keys, Below(n));
  }

  lemma SubsetSize(a: set<nat>, b: set<nat>)
    requires a <= b
    ensures |a| <= |b|
  {
    assert b == a + (b - a);
  }

  function Below(n: nat): (s: set<nat>)
    ensures |s| == n && forall i: nat :: i in s <==> i < n
  {
    if n == 0 then {} else Below(n - 1) + {n - 1}
  }

  lemma RemoveInv(q: Queue, c: nat)
    requires Inv(q)
    ensures Inv(Remove(q, c))
    ensures Count(Remove(q, c)) == Count(q) - (if Offered(q, c).Some? then 1 else 0)
  {
    hide WellSequenced, QueuedOk, HeldOk, InOrder, Primary;
    if Offered(q, c).Some? {
      OfferedIsIn(q, c);
      OwnerGrows(q.owner, Offered(q, c).value, c);
      RemoveQueued(q, c);
      RemoveOwners(q, c);
      RemoveHeld(q, c);
      OwnerBound(Remove(q, c).owner, |q.added|);
    }
  }

  lemma RemoveQueued(q: Queue, c: nat)
    requires Inv(q) && Offered(q, c).Some?
    ensures QueuedOk(Remove(q, c))
    ensures MidChain(q, c) ==> Front(Remove(q, c)) == Front(q)
    ensures !MidChain(q, c) ==> Front(q) < Front(Remove(q, c))
    ensures !MidChain(q, c) ==> forall p | Front(q) < p < Front(Remove(q, c)) :: p < |q.added| && !Primary(q.added[p])
  {
    hide WellSequenced, OwnersOk, HeldOk, Primary;
    OfferedIsIn(q, c);
    if !MidChain(q, c) {
      var q' := Remove(q, c);
      assert forall k | 0 <= k < |q'.queued| :: q'.queued[k] == q.queued[k + 1];
      TailKeepsRest(q.queued);
    }
  }

  lemma TailKeepsRest(s: seq<nat>)
    requires s != []
    ensures forall p | p in s && p != s[0] :: p in s[1..]
  {
    assert s == [s[0]] + s[1..];
  }

  lemma LeftInOrder(q: Queue, j: nat)
    requires Inv(q) && 1 <= j < |q.added| && j in q.owner && !Primary(q.added[j])
    ensures InOrder(q, j)
  {
    hide WellSequenced, QueuedOk, HeldOk, Primary, InOrder;
    assert LaterOk(q, j);
  }

  lemma RemovePrimaries(q: Queue, c: nat, i: nat)
    requires Inv(q) && Offered(q, c).Some? && i < |q.added| && Primary(q.added[i])
    ensures var q' := Remove(q, c); i in q'.owner <==> i < Front(q')
  {
    hide WellSequenced, QueuedOk, HeldOk, Primary;
    OfferedIsIn(q, c);
    RemoveQueued(q, c);
  }

  lemma RemoveInOrder(q: Queue, c: nat, i: nat)
    requires Inv(q) && Offered(q, c).Some?
    requires 1 <= i < |q.added| && !Primary(q.added[i]) && i in Remove(q, c).owner
    ensures InOrder(Remove(q, c), i)
  {
    hide Inv, Primary;
    OfferedIsIn(q, c);
    if i == Offered(q, c).value {
      if MidChain(q, c) { HeldIn(q, c); }
    } else {
      LeftInOrder(q, i);
    }
  }

  lemma RemoveOwners(q: Queue, c: nat)
    requires Inv(q) && Offered(q, c).Some?
    ensures OwnersOk(Remove(q, c))
  {
    hide WellSequenced, QueuedOk, HeldOk, Primary, Front, InOrder;
    var q' := Remove(q, c);
    assert forall i | i in q'.owner :: i < |q.added| by { OfferedIsIn(q, c); }
    forall i | 0 <= i < |q'.added| && Primary(q'.added[i]) ensures i in q'.owner <==> i < Front(q') {
      RemovePrimaries(q, c, i);
    }
    forall i | 1 <= i < |q'.added| ensures LaterOk(q', i) {
      if !Primary(q'.added[i]) && i in q'.owner { RemoveInOrder(q, c, i); }
    }
  }

  /** The segment after one that has not left has not left either. */
  lemma NextAlsoIn(q: Queue, n: nat)
    requires Inv(q) && n < |q.added| && n !in q.owner && !q.added[n].isLast
    ensures n + 1 !in q.owner
  {
    hide WellSequenced, QueuedOk, HeldOk, Primary;
    if n + 1 < |q.added| {
      LaterFollowsOpen(q.added, n + 1);
      assert LaterOk(q, n + 1);
    }
  }

  lemma MidChainIn(q: Queue, d: nat)
    requires Inv(q) && MidChain(q, d)
    ensures NextIsIn(q, d)
  {
    hide WellSequenced, QueuedOk, OwnersOk;
  }

  lemma RemoveNext(q: Queue, c: nat, d: nat)
    requires Inv(q) && Offered(q, c).Some? && MidChain(Remove(q, c), d)
    ensures NextIsIn(Remove(q, c), d)
  {
    hide Inv;
    OfferedIsIn(q, c);
    var n := Offered(q, c).value;
    if d == c {
      NextAlsoIn(q, n);
    } else {
      MidChainIn(q, d);
      HeldIn(q, d);
      if q.held[d] + 1 == n {
        LaterIsHeldBy(q, c, n);
        if MidChain(q, c) { HeldIn(q, c); }
      }
    }
  }

  lemma LaterIsHeldBy(q: Queue, c: nat, n: nat)
    requires Inv(q) && Offered(q, c) == Some(n) && n >= 1 && n < |q.added| && !q.added[n - 1].isLast
    ensures MidChain(q, c)
  {
    hide QueuedOk, OwnersOk, HeldOk, WellSequenced;
    OfferedIsIn(q, c);
    LaterFollowsOpen(q.added, n);
  }

  lemma RemoveWaiting(q: Queue, c: nat, i: nat)
    requires Inv(q) && Offered(q, c).Some? && Waiting(Remove(q, c), i)
    ensures HeldByOwner(Remove(q, c), i)
  {
    hide WellSequenced, QueuedOk, OwnersOk, Primary;
    if i != Offered(q, c).value {
      assert Waiting(q, i) && HeldByOwner(q, i);
    }
  }

  lemma RemoveHeld(q: Queue, c: nat)
    requires Inv(q) && Offered(q, c).Some?
    ensures HeldOk(Remove(q, c))
  {
    hide Inv, MidChain, NextIsIn, Waiting, HeldByOwner;
    var q' := Remove(q, c);
    forall d | MidChain(q', d) ensures NextIsIn(q', d) {
      RemoveNext(q, c, d);
    }
    forall i | Waiting(q', i) ensures HeldByOwner(q', i) {
      RemoveWaiting(q, c, i);
    }
    HeldIsOwned(q, c);
  }

  lemma HeldIsOwned(q: Queue, c: nat)
    requires Inv(q) && Offered(q, c).Some?
    ensures var q' := Remove(q, c); forall d | d in q'.held :: q'.held[d] in q'.owner && q'.owner[q'.held[d]] == d
  {
    hide WellSequenced, QueuedOk;
    OfferedIsIn(q, c);
  }

  lemma ForgetInv(q: Queue, c: nat)
    requires Inv(q)
    ensures Inv(Forget(q, c)) && Count(Forget(q, c)) == Count(q)
  {
    hide WellSequenced;
    if !MidChain(q, c) {
      var q' := Forget(q, c);
      forall i | 1 <= i < |q.added| ensures LaterOk(q', i) {
        assert LaterOk(q, i);
      }
      forall d | MidChain(q', d) ensures NextIsIn(q', d) {
        assert MidChain(q, d) && NextIsIn(q, d);
      }
      forall i | Waiting(q', i) ensures HeldByOwner(q', i) {
        assert Waiting(q, i) && HeldByOwner(q, i);
      }
    }
  }

  // ------------------------------------------------------------ main results

  /** Later segments that wait, chained to their predecessors. */
  ghost function Tails(q: Queue): set<nat> {
    set i | i in Below(|q.added|) && i !in q.owner && !Primary(q.added[i])
  }

  function Members(s: seq<nat>): (r: set<nat>)
    ensures forall x :: x in r <==> x in s
  {
    if s == [] then {} else
      assert s == s[..|s| - 1] + [s[|s| - 1]];
      Members(s[..|s| - 1]) + {s[|s| - 1]}
  }

  lemma {:induction false} DistinctSize(s: seq<nat>)
    requires forall j, k | 0 <= j < k < |s| :: s[j] < s[k]
    ensures |Members(s)| == |s|
  {
    if s != [] {
      DistinctSize(s[..|s| - 1]);
    }
  }

  lemma InQueuedIff(q: Queue, i: nat)
    requires Inv(q) && i < |q.added|
    ensures i in q.queued <==> i !in q.owner && Primary(q.added[i])
  {
    hide WellSequenced, HeldOk, Primary, InOrder;
  }

  lemma SplitSize(all: set<nat>, gone: set<nat>, a: set<nat>, b: set<nat>)
    requires gone <= all && a !! b && all - gone == a + b
    ensures |all| - |gone| == |a| + |b|
  {
    assert |a + b| == |a| + |b|;
    assert all == (all - gone) + gone;
  }

  lemma OwnedAreAdded(q: Queue)
    requires Inv(q)
    ensures q.owner.Keys <= Below(|q.added|) && |q.owner.Keys| == |q.owner|
  {
    hide WellSequenced, QueuedOk, HeldOk, Primary, InOrder;
  }

  lemma WaitingIff(q: Queue, i: nat)
    requires Inv(q)
    ensures i in Members(q.queued) + Tails(q) <==> i in Below(|q.added|) - q.owner.Keys
    ensures !(i in Members(q.queued) && i in Tails(q))
  {
    hide WellSequenced, OwnersOk, HeldOk, Primary, InOrder;
    if i < |q.added| {
      InQueuedIff(q, i);
    }
  }

  lemma WaitingIs(q: Queue)
    requires Inv(q)
    ensures Below(|q.added|) - q.owner.Keys == Members(q.queued) + Tails(q) && Members(q.queued) !! Tails(q)
  {
    hide *;
    forall i: nat ensures i in Below(|q.added|) - q.owner.Keys <==> i in Members(q.queued) + Tails(q) {
      WaitingIff(q, i);
    }
    forall i: nat ensures !(i in Members(q.queued) && i in Tails(q)) {
      WaitingIff(q, i);
    }
  }

  lemma QueuedSize(q: Queue)
    requires Inv(q)
    ensures |Members(q.queued)| == |q.queued|
  {
    hide WellSequenced, OwnersOk, HeldOk, Primary, InOrder;
    DistinctSize(q.queued);
  }

  /** The count is the queued primaries plus the later segments not yet consumed. */
  lemma CountSplit(q: Queue)
    requires Inv(q)
    ensures Count(q) == |q.queued| + |Tails(q)|
  {
    hide Inv, Tails, Members;
    WaitingIs(q);
    QueuedSize(q);
    OwnedAreAdded(q);
    SplitSize(Below(|q.added|), q.owner.Keys, Members(q.queued), Tails(q));
  }

  /** Primaries leave in the order they were added: when one is handed out, every
      earlier primary has left and no later one has. */
  lemma PrimariesLeaveInOrder(q: Queue, c: nat)
    requires Inv(q) && Offered(q, c).Some? && Primary(q.added[Offered(q, c).value])
    ensures forall j | 0 <= j < |q.added| && Primary(q.added[j]) :: j in q.owner <==> j < Offered(q, c).value
  {
    hide WellSequenced, QueuedOk, HeldOk, Primary;
    OfferedIsIn(q, c);
  }

  lemma InvNumbered(q: Queue)
    requires Inv(q)
    ensures WellSequenced(q.added)
  {
    hide WellSequenced, QueuedOk, OwnersOk, HeldOk;
  }

  lemma {:induction false} BlockNumbersGrow(h: seq<Segment>, i: nat, j: nat)
    requires WellSequenced(h) && i <= j < |h|
    ensures h[i].blockNumber <= h[j].blockNumber
    ensures i < j && h[i].blockNumber == h[j].blockNumber ==> !h[j - 1].isLast && h[j - 1].blockNumber == h[j].blockNumber
  {
    if i < j {
      assert FollowsAt(h, j);
      BlockNumbersGrow(h, i, j - 1);
    }
  }

  /** A stream of any number of segments is consumed in order by exactly one consumer:
      if segment j of a stream has left, so have all its earlier ones, to the same consumer. */
  lemma {:induction false} StreamHasOneConsumer(q: Queue, i: nat, j: nat)
    requires Inv(q) && i <= j < |q.added| && q.added[i].blockNumber == q.added[j].blockNumber && j in q.owner
    ensures i in q.owner && q.owner[i] == q.owner[j]
    decreases j
  {
    hide Inv;
    if i < j {
      InvNumbered(q);
      BlockNumbersGrow(q.added, i, j);
      LaterFollowsOpen(q.added, j);
      LeftInOrder(q, j);
      StreamHasOneConsumer(q, i, j - 1);
    }
  }

  /** A consumer in the middle of a stream is refused only when the producer itself has
      not added the next segment yet; then nothing is queued at the top level. */
  lemma RefusedHoldsLast(q: Queue, c: nat)
    requires Inv(q) && MidChain(q, c) && Offered(q, c) == None
    ensures q.held[c] == |q.added| - 1 && q.queued == []
  {
    hide WellSequenced, HeldOk;
    assert q.held[c] in q.owner by { HeldIn(q, c); }
    if q.queued != [] {
      var p := q.queued[0];
      assert Primary(q.added[p]) && p <= q.held[c];
      OwnedBelowFront(q, q.held[c], p);
    }
  }

  /** An element that left comes with the primary of its stream, so no queued primary is
      at or before it unless its own stream starts later. */
  lemma {:induction false} OwnedBelowFront(q: Queue, i: nat, p: nat)
    requires Inv(q) && i in q.owner && p <= i < |q.added| && Primary(q.added[p])
    ensures p in q.owner
    decreases i
  {
    hide WellSequenced, QueuedOk, HeldOk, Primary;
    if p < i {
      if Primary(q.added[i]) {
      } else {
        assert LaterOk(q, i);
        OwnedBelowFront(q, i - 1, p);
      }
    }
  }

  function FirstMissing(m: map<nat, nat>, k: nat, n: nat): (j: nat)
    requires k <= n
    ensures k <= j <= n && (j < n ==> j !in m) && forall i | k <= i < j :: i in m
    decreases n - k
  {
    if k == n || k !in m then k else FirstMissing(m, k + 1, n)
  }

  lemma SomethingMissing(m: map<nat, nat>, n: nat)
    requires |m| < n
    ensures FirstMissing(m, 0, n) < n
  {
    assert |m.Keys| == |m|;
    if FirstMissing(m, 0, n) == n {
      SubsetSize(Below(n), m.Keys);
    }
  }

  /** The queue itself cannot block the pipeline: while it counts something, some
      consumer is offered an element, as long as those holding one are still there. */
  lemma SomeoneIsServed(q: Queue, consumers: set<nat>) returns (c: nat)
    requires Inv(q) && Count(q) > 0 && q.held.Keys <= consumers && consumers != {}
    ensures c in consumers && Offered(q, c).Some?
  {
    hide WellSequenced, QueuedOk;
    if q.queued != [] {
      c :| c in consumers;
      if Offered(q, c) == None {
        RefusedHoldsLast(q, c);
      }
    } else {
      SomethingMissing(q.owner, |q.added|);
      var j := FirstMissing(q.owner, 0, |q.added|);
      LaterFollowsOpen(q.added, j);
      assert Waiting(q, j - 1) && HeldByOwner(q, j - 1);
      c := q.owner[j - 1];
    }
  }

  /** When the count is back to zero, every added element has left. */
  lemma AllLeft(q: Queue, i: nat)
    requires Inv(q) && Count(q) == 0 && i < |q.added|
    ensures i in q.owner
  {
    hide WellSequenced, QueuedOk, HeldOk;
    assert |q.owner.Keys| == |q.owner|;
    assert q.owner.Keys <= Below(|q.added|);
    SubsetSize(q.owner.Keys + {i}, Below(|q.added|));
  }

  // ------------------------------------------------ compression: plain FIFO

  predicate Plain(q: Queue) {
    forall i | 0 <= i < |q.added| :: q.added[i].sequenceNumber == 0 && q.added[i].isLast
  }

  /** When compressing, every element is a stream of its own.  Then the queue is the run of
      positions not yet removed, its count is its length, and everybody is offered its head. */
  lemma PlainIsFifo(q: Queue, c: nat, k: nat)
    requires Inv(q) && Plain(q)
    ensures Count(q) == |q.queued| && Front(q) == |q.added| - |q.queued|
    ensures Offered(q, c) == if q.queued == [] then None else Some(q.queued[0])
    ensures k < |q.queued| ==> q.queued[k] == |q.added| - |q.queued| + k
  {
    hide WellSequenced, HeldOk;
    assert Tails(q) == {};
    CountSplit(q);
    if q.queued != [] {
      PlainRun(q, |q.queued| - 1);
      PlainLast(q);
      if k < |q.queued| { PlainRun(q, k); }
    }
  }

  lemma {:induction false} PlainRun(q: Queue, k: nat)
    requires QueuedOk(q) && Plain(q) && k < |q.queued|
    ensures q.queued[k] == Front(q) + k
  {
    if k > 0 {
      PlainRun(q, k - 1);
      assert q.queued[k - 1] < q.queued[k];
      var p := q.queued[k - 1] + 1;
      assert Primary(q.added[p]) && p in q.queued;
      var j :| 0 <= j < |q.queued| && q.queued[j] == p;
    }
  }

  lemma PlainLast(q: Queue)
    requires QueuedOk(q) && Plain(q) && q.queued != []
    ensures q.queued[|q.queued| - 1] == |q.added| - 1
  {
    var last := |q.queued| - 1;
    assert q.queued[last] >= Front(q) by { PlainRun(q, last); }
    assert Primary(q.added[|q.added| - 1]) && |q.added| - 1 in q.queued;
    var j :| 0 <= j < |q.queued| && q.queued[j] == |q.added| - 1;
  }

  // -------------------------------------------------------------- whole runs

  datatype Step = AddStep(s: Segment) | RemoveStep(c: nat) | ForgetStep(c: nat)

  /** The producer adds the next segment of its sequence, and only while the queue is not full. */
  predicate Enabled(q: Queue, step: Step) {
    step.AddStep? ==> Count(q) < q.size && WellSequenced(q.added + [step.s])
  }

  function Do(q: Queue, step: Step): Queue {
    match step
    case AddStep(s) => Add(q, s)
    case RemoveStep(c) => Remove(q, c)
    case ForgetStep(c) => Forget(q, c)
  }

  predicate Legal(q: Queue, steps: seq<Step>)
    decreases |steps|
  {
    steps == [] || (Enabled(q, steps[0]) && Legal(Do(q, steps[0]), steps[1..]))
  }

  function Run(q: Queue, steps: seq<Step>): Queue
    decreases |steps|
  {
    if steps == [] then q else Run(Do(q, steps[0]), steps[1..])
  }

  /** Whatever producer and consumers do in whatever order, the invariant holds, nothing
      is added twice or lost, and an element that left stays with the consumer it left to. */
  lemma {:induction false} RunInv(q: Queue, steps: seq<Step>)
    requires Inv(q) && Legal(q, steps)
    ensures Inv(Run(q, steps))
    ensures q.added <= Run(q, steps).added
    ensures forall i | i in q.owner :: i in Run(q, steps).owner && Run(q, steps).owner[i] == q.owner[i]
    decreases |steps|
  {
    if steps != [] {
      StepInv(q, steps[0]);
      RunInv(Do(q, steps[0]), steps[1..]);
    }
  }

  lemma StepInv(q: Queue, step: Step)
    requires Inv(q) && Enabled(q, step)
    ensures Inv(Do(q, step)) && q.added <= Do(q, step).added
    ensures forall i | i in q.owner :: i in Do(q, step).owner && Do(q, step).owner[i] == q.owner[i]
  {
    hide Inv, WellSequenced;
    match step
    case AddStep(s) => AddInv(q, s);
    case RemoveStep(c) =>
      RemoveInv(q, c);
      if Offered(q, c).Some? { OfferedIsIn(q, c); }
    case ForgetStep(c) => ForgetInv(q, c);
  }
}
