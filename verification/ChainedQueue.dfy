/** The queue of pbzip2 as it is: a ring of pointers to primary elements, with the
    later segments of a stream linked through `next`. */
module ChainedQueue {
  import opened Segments
  import Spec = QueueSpec

  class Element {
    const segment: Segment
    var next: Element?

    constructor (s: Segment)
      ensures segment == s && next == null
    {
      segment := s;
      next := null;
    }
  }

  /** Slot of the k-th queued primary in a ring of n slots. */
  function Slot(head: nat, k: nat, n: nat): nat {
    if head + k < n then head + k else head + k - n
  }

  /** The ring holds exactly the queued elements, from head up to before tail. */
  ghost predicate RingHolds(ring: seq<Element?>, head: nat, tail: nat, elems: seq<Element>, queued: seq<nat>) {
    && head < |ring| && |queued| <= |ring| && tail == Slot(head, |queued|, |ring|) < |ring|
    && (forall k | 0 <= k < |queued| :: queued[k] < |elems|)
    && (forall k | 0 <= k < |queued| :: ring[Slot(head, k, |ring|)] == elems[queued[k]])
  }

  lemma RingEmpty(ring: seq<Element?>)
    requires ring != []
    ensures RingHolds(ring, 0, 0, [], [])
  {
  }

  lemma RingPush(ring: seq<Element?>, head: nat, tail: nat, elems: seq<Element>, queued: seq<nat>, e: Element)
    requires RingHolds(ring, head, tail, elems, queued) && |queued| < |ring|
    ensures RingHolds(ring[tail := e], head, if tail + 1 == |ring| then 0 else tail + 1, elems + [e], queued + [|elems|])
  {
  }

  lemma RingPop(ring: seq<Element?>, head: nat, tail: nat, elems: seq<Element>, queued: seq<nat>)
    requires RingHolds(ring, head, tail, elems, queued) && queued != []
    ensures ring[head] == elems[queued[0]]
    ensures RingHolds(ring, if head + 1 == |ring| then 0 else head + 1, tail, elems, queued[1..])
  {
    assert ring[Slot(head, 0, |ring|)] == elems[queued[0]];
    var head' := if head + 1 == |ring| then 0 else head + 1;
    forall k | 0 <= k < |queued[1..]|
      ensures Slot(head', k, |ring|) == Slot(head, k + 1, |ring|) && ring[Slot(head', k, |ring|)] == elems[queued[1..][k]]
    {
      assert ring[Slot(head, k + 1, |ring|)] == elems[queued[k + 1]];
    }
  }

  /** The ring with an element appended to neither end: only the list of elements grew. */
  lemma RingSame(ring: seq<Element?>, head: nat, tail: nat, elems: seq<Element>, queued: seq<nat>, e: Element)
    requires RingHolds(ring, head, tail, elems, queued)
    ensures RingHolds(ring, head, tail, elems + [e], queued)
  {
  }

  class Queue {
    const size: nat
    const qData: array<Element?>
    var count: int
    var head: nat
    var tail: nat
    var full: bool
    var empty: bool
    var topLevelFull: bool
    var topLevelEmpty: bool
    var lastElement: Element?
    /** every element ever added, in order, and the queue they make up */
    ghost var elems: seq<Element>
    ghost var view: Spec.Queue

    ghost predicate Flags()
      reads this
    {
      && count == Spec.Count(view)
      && (full <==> count == size) && (empty <==> count == 0)
      && (topLevelFull <==> |view.queued| == size) && (topLevelEmpty <==> view.queued == [])
    }

    ghost predicate Ring()
      reads this, qData
    {
      qData.Length == size && RingHolds(qData[..], head, tail, elems, view.queued)
    }

    ghost predicate LinkAt(i: nat)
      requires i < |elems| == |view.added|
      reads this, elems
    {
      elems[i].next == if i + 1 < |elems| && !Spec.Primary(view.added[i + 1]) then elems[i + 1] else null
    }

    ghost predicate Distinct()
      reads this
    {
      forall i, j | 0 <= i < j < |elems| :: elems[i] != elems[j]
    }

    ghost predicate Links()
      reads this, elems
    {
      && |elems| == |view.added|
      && (forall i | 0 <= i < |elems| :: elems[i].segment == view.added[i])
      && (forall i | 0 <= i < |elems| :: LinkAt(i))
      && lastElement == if elems == [] then null else elems[|elems| - 1]
    }

    ghost predicate Valid()
      reads this, qData, elems
    {
      && 1 <= size == view.size && Spec.Inv(view)
      && Flags() && Ring() && Distinct() && Links()
    }

    constructor (n: nat)
      requires 1 <= n
      ensures Valid() && size == n && view == Spec.Init(n) && fresh(qData)
    {
      size := n;
      qData := new Element?[n];
      elems, view := [], Spec.Init(n);
      count, head, tail := 0, 0, 0;
      full, empty, topLevelFull, topLevelEmpty := false, true, false, true;
      lastElement := null;
      new;
      Spec.InitInv(n);
    }

    /** Back to the initial empty state; nobody may hold an element any more. */
    method Clear()
      requires 1 <= size && qData.Length == size
      modifies this
      ensures Valid() && view == Spec.Init(size) && elems == []
    {
      hide Spec.Inv, RingHolds;
      RingEmpty(qData[..]);
      empty := true;
      full := false;
      head := 0;
      tail := 0;
      count := 0;
      lastElement := null;
      topLevelFull := false;
      topLevelEmpty := true;
      elems, view := [], Spec.Init(size);
      Spec.InitInv(size);
    }

    /** The primary's part of add: into the ring. */
    method PutTail(e: Element)
      requires Ring() && |view.queued| < size
      modifies this`tail, this`topLevelFull, this`topLevelEmpty, qData
      ensures qData[..] == old(qData[..])[old(tail) := e]
      ensures tail == (if old(tail) + 1 == size then 0 else old(tail) + 1) && !topLevelEmpty
      ensures topLevelFull <==> tail == head || old(topLevelFull)
    {
      qData[tail] := e;
      tail := tail + 1;
      if tail == size {
        tail := 0;
      }
      if tail == head {
        topLevelFull := true;
      }
      topLevelEmpty := false;
    }

    /** Only the element that was last may have been linked on, and only to e. */
    twostate lemma LinksGrow(e: Element)
      requires old(Links() && Distinct()) && e !in old(elems) && e.next == null && old(allocated(e))
      requires elems == old(elems) + [e] && lastElement == e
      requires view.added == old(view.added) + [e.segment]
      requires forall x | x in old(elems) && x != old(lastElement) :: x.next == old(x.next)
      requires old(lastElement) != null ==>
                 old(lastElement).next == if Spec.Primary(e.segment) then old(lastElement.next) else e
      ensures Links() && Distinct()
    {
      forall i | 0 <= i < |elems| ensures LinkAt(i) {
        if i < |old(elems)| {
          assert old(LinkAt(i));
        }
      }
    }

    ghost function Queued(e: Element): seq<nat>
      reads this
    {
      if Spec.Primary(e.segment) then view.queued + [|view.added|] else view.queued
    }

    /** The branch of add: e is hung on the last element or put into the ring. */
    method Place(e: Element)
      requires Valid() && |view.queued| < size && WellSequenced(view.added + [e.segment])
      requires e !in elems && e.next == null
      modifies this`tail, this`topLevelFull, this`topLevelEmpty, qData
      modifies if lastElement == null then {} else {lastElement}
      ensures RingHolds(qData[..], head, tail, elems + [e], Queued(e))
      ensures topLevelFull <==> |Queued(e)| == size
      ensures topLevelEmpty <==> Queued(e) == []
      ensures e.next == null
      ensures count == Spec.Count(view) && |elems| == |view.added| && (full ==> count == size)
      ensures lastElement != null ==>
                lastElement.next == if Spec.Primary(e.segment) then old(lastElement.next) else e
    {
      hide Spec.Inv, WellSequenced;
      Spec.LaterFollowsOpen(view.added + [e.segment], |view.added|);
      if e.segment.sequenceNumber > 1 {
        RingSame(qData[..], head, tail, elems, view.queued, e);
        lastElement.next := e;
      } else {
        RingPush(qData[..], head, tail, elems, view.queued, e);
        PutTail(e);
      }
    }

    /** The end of add: the new last element, the count and its flags. */
    method Record(e: Element)
      requires 0 <= count == Spec.Count(view) < size && |elems| == |view.added|
      requires topLevelFull <==> |Queued(e)| == size
      requires topLevelEmpty <==> Queued(e) == []
      requires Spec.Count(Spec.Add(view, e.segment)) == Spec.Count(view) + 1
      requires full ==> count == size
      modifies this`lastElement, this`count, this`full, this`empty, this`elems, this`view
      ensures Flags() && lastElement == e
      ensures elems == old(elems) + [e] && view == Spec.Add(old(view), e.segment)
    {
      lastElement := e;
      count := count + 1;
      if count == size {
        full := true;
      }
      empty := false;
      elems, view := elems + [e], Spec.Add(view, e.segment);
    }

    lemma NotFull()
      requires Valid() && !full
      ensures 0 <= Spec.Count(view) < size && |view.queued| < size
    {
      hide Spec.Inv;
      Spec.CountSplit(view);
      Spec.CountBounds(view);
    }

    method Add(e: Element)
      requires Valid() && !full && e !in elems && e.next == null && WellSequenced(view.added + [e.segment])
      modifies this, qData, if lastElement == null then {} else {lastElement}
      ensures Valid() && view == Spec.Add(old(view), e.segment) && elems == old(elems) + [e]
    {
      hide Spec.Inv, WellSequenced, RingHolds, Links, Distinct, Flags;
      NotFull();
      Spec.AddInv(view, e.segment);
      Place(e);
      Record(e);
      LinksGrow(e);
    }

    /** The element consumer c holds, as the queue's value remembers it. */
    ghost predicate Holds(c: nat, element: Element?)
      reads this
    {
      if element == null then c !in view.held
      else c in view.held && view.held[c] < |elems| && element == elems[view.held[c]]
    }

    /** The next segment of an unfinished stream is linked exactly when it was added. */
    lemma NextIsOffered(c: nat, element: Element)
      requires Valid() && Holds(c, element)
      ensures |elems| == |view.added| && (Spec.MidChain(view, c) <==> !element.segment.isLast)
      ensures !element.segment.isLast ==>
                element.next == if Spec.Offered(view, c).Some? then elems[view.held[c] + 1] else null
    {
      hide Spec.QueuedOk, Spec.OwnersOk, Spec.HeldOk, WellSequenced, RingHolds, Flags, Distinct;
      var i := view.held[c];
      assert LinkAt(i);
      if i + 1 < |elems| {
        Spec.LaterFollowsOpen(view.added, i + 1);
      }
    }

    /** The primary's part of remove: out of the ring. */
    method TakeHead() returns (e: Element?)
      requires Ring() && view.queued != []
      modifies this`head, this`topLevelFull, this`topLevelEmpty
      ensures RingHolds(qData[..], head, tail, elems, view.queued[1..]) && !topLevelFull
      ensures topLevelEmpty <==> head == tail || old(topLevelEmpty)
      ensures e == elems[view.queued[0]]
    {
      RingPop(qData[..], head, tail, elems, view.queued);
      e := qData[head];
      head := head + 1;
      if head == size {
        head := 0;
      }
      if head == tail {
        topLevelEmpty := true;
      }
      topLevelFull := false;
    }

    /** The branches of remove: what consumer c gets, if anything. */
    method Take(ghost c: nat, element: Element?) returns (got: bool, e: Element?)
      requires Valid() && Holds(c, element)
      modifies this`head, this`topLevelFull, this`topLevelEmpty
      ensures got <==> Spec.Offered(view, c).Some?
      ensures e == if got && Spec.Offered(view, c).value < |elems| then elems[Spec.Offered(view, c).value] else element
      ensures RingHolds(qData[..], head, tail, elems, Spec.Remove(view, c).queued)
      ensures topLevelEmpty <==> Spec.Remove(view, c).queued == []
      ensures topLevelFull <==> |Spec.Remove(view, c).queued| == size
      ensures count == Spec.Count(view) && (full <==> count == size) && (empty <==> count == 0)
    {
      hide Spec.Inv, Links, Distinct;
      got, e := true, element;
      if element != null { NextIsOffered(c, element); }
      if element != null && !element.segment.isLast {
        if element.next != null {
          e := element.next;
        } else {
          got := false;
        }
      } else if topLevelEmpty {
        got := false;
      } else {
        e := TakeHead();
      }
    }

    /** Links and distinctness do not depend on who removed what. */
    twostate lemma LinksKept()
      requires old(Links() && Distinct()) && elems == old(elems) && lastElement == old(lastElement)
      requires view.added == old(view.added) && forall x | x in elems :: x.next == old(x.next)
      ensures Links() && Distinct()
    {
      forall i | 0 <= i < |elems| ensures LinkAt(i) {
        assert old(LinkAt(i));
      }
    }

    lemma OfferedInElems(c: nat)
      requires Valid() && Spec.Offered(view, c).Some?
      ensures Spec.Offered(view, c).value < |elems|
      ensures Spec.Remove(view, c).held[c] == Spec.Offered(view, c).value
    {
      hide Spec.Inv, RingHolds, Distinct;
      Spec.OfferedIsIn(view, c);
    }

    /** The end of remove: the count and its flags. */
    method Depart(ghost c: nat, got: bool)
      requires got <==> Spec.Offered(view, c).Some?
      requires 0 <= count == Spec.Count(view) <= size && (full <==> count == size) && (empty <==> count == 0)
      requires topLevelEmpty <==> Spec.Remove(view, c).queued == []
      requires topLevelFull <==> |Spec.Remove(view, c).queued| == size
      requires Spec.Count(Spec.Remove(view, c)) == Spec.Count(view) - (if got then 1 else 0) >= 0
      modifies this`count, this`empty, this`full, this`view
      ensures Flags() && view == Spec.Remove(old(view), c)
    {
      if got {
        count := count - 1;
        if count == 0 {
          empty := true;
        }
        full := false;
      }
      view := Spec.Remove(view, c);
    }

    method Remove(ghost c: nat, element: Element?) returns (status: int, e: Element?)
      requires Valid() && Holds(c, element)
      modifies this
      ensures Valid() && view == Spec.Remove(old(view), c) && elems == old(elems) && Holds(c, e)
      ensures status == if Spec.Offered(old(view), c).Some? then 1 else 0
      ensures status == 0 ==> e == element
    {
      hide Spec.Inv, WellSequenced, RingHolds, Links, Distinct, Flags, Spec.Offered;
      Spec.RemoveInv(view, c);
      Spec.CountBounds(view);
      Spec.CountBounds(Spec.Remove(view, c));
      if Spec.Offered(view, c).Some? { OfferedInElems(c); }
      var got;
      got, e := Take(c, element);
      Depart(c, got);
      status := if got then 1 else 0;
      LinksKept();
    }
  }
}
