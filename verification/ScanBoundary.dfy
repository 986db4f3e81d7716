/** The segments still to come, and which of them are empty. */
module ScanBoundary {
  import opened ByteSeq
  import opened Bz2Format
  import opened Segments
  import opened ScanSpec
  import opened ScanProofs

  // ------------------------------------------------ what is still to come

  /** The segments still to come after the history h. */
  function Coming(s: Scan, h: seq<Segment>): seq<Segment>
    requires ValidScan(s, h)
  {
    if s.headerFound then Drain(s)
    else if HeaderAt(s.file, 0) then AllSegments(s.file, s.capacity, s.limit)
    else []
  }

  lemma DrainHead(s: Scan)
    requires Idle(s)
    ensures var (s', o) := GetNext(s);
            match o
            case Failed => false
            case EndOfFile => Drain(s) == []
            case Handed(g) => Idle(s') && Drain(s) == [g] + Drain(s')
  {
    hide HeaderAt, IsSlice, GetNext, NextCut;
    StepKeeps(s);
  }

  /** Each answer is the next of the segments to come, and there is none after the end. */
  lemma NextIsHead(s: Scan, h: seq<Segment>)
    requires ValidScan(s, h)
    ensures Answer(s.file, h, GetNext(s).0, GetNext(s).1)
    ensures var (s', o) := GetNext(s);
            Coming(s, h) == if o.Handed? then [o.segment] + Coming(s', h + [o.segment]) else []
  {
    hide HeaderAt, IsSlice, GetNext, History, Drain;
    NextIsValid(s, h);
    if s.headerFound {
      DrainHead(s);
    } else {
      FirstSearchVerdict(s.file, s.capacity, s.limit);
      if HeaderAt(s.file, 0) {
        DrainHead(FirstSearch(s));
      }
    }
  }

  /** The first empty segment, or the end. */
  function FirstEmpty(h: seq<Segment>): (n: nat)
    ensures n <= |h| && (n < |h| ==> h[n].bytes == [])
    ensures forall i | 0 <= i < n :: h[i].bytes != []
  {
    if h == [] then 0
    else
      var n := FirstEmpty(h[..|h| - 1]);
      if n < |h| - 1 || h[|h| - 1].bytes == [] then n else |h|
  }

  lemma FirstEmptyIs(h: seq<Segment>, n: nat)
    requires n <= |h| && (n < |h| ==> h[n].bytes == []) && forall i | 0 <= i < n :: h[i].bytes != []
    ensures FirstEmpty(h) == n
  {
  }

  // -------------------------------------------- exactly which ones are empty

  /** Segment i after the history h is empty exactly when what was handed out before it ends
      in an open stream right in front of a header. */
  lemma {:induction false} DrainEmpty(s: Scan, h: seq<Segment>, i: nat)
    requires Idle(s) && History(s, h)
    ensures i < |Drain(s)| ==>
              var before := h + Drain(s)[..i];
              && (Drain(s)[i].bytes == [] <==> OpenEnded(before) && HeaderAt(s.file, |Returned(before)|))
              && (Drain(s)[i].bytes == [] ==> Drain(s)[i].isLast)
    decreases i
  {
    hide HeaderAt, IsSlice, GetNext, History, Returned;
    DrainHead(s);
    StepKeeps(s);
    if i < |Drain(s)| {
      var (s', o) := GetNext(s);
      if i == 0 {
        NextFromIdle(s, h);
        TakenIsReturned(s, h);
        assert h + Drain(s)[..0] == h;
      } else {
        HistoryKeeps(s, s', o.segment, h);
        DrainEmpty(s', h + [o.segment], i - 1);
        assert h + Drain(s)[..i] == h + [o.segment] + Drain(s')[..i - 1];
      }
    }
  }

  lemma EmptyExactly(file: seq<Byte>, capacity: nat, limit: nat, i: nat)
    requires 1 <= limit && HeaderAt(file, 0)
    ensures var all := AllSegments(file, capacity, limit);
            i < |all| ==>
              && (all[i].bytes == [] <==> OpenEnded(all[..i]) && HeaderAt(file, |Returned(all[..i])|))
              && (all[i].bytes == [] ==> all[i].isLast)
  {
    hide HeaderAt, Drain, Returned;
    FirstSearchVerdict(file, capacity, limit);
    NothingDelivered(file);
    var s := FirstSearch(Init(file, capacity, limit));
    DrainEmpty(s, [], i);
    if i < |Drain(s)| {
      assert [] + Drain(s)[..i] == Drain(s)[..i];
    }
  }

  /** A file with no header but its first is handed out in segments that are never empty. */
  lemma OneStreamIsWhole(file: seq<Byte>, capacity: nat, limit: nat)
    requires 1 <= limit && HeaderAt(file, 0) && NoHeaderIn(file, 1, |file|)
    ensures var all := AllSegments(file, capacity, limit); FirstEmpty(all) == |all|
  {
    hide AllSegments;
    var all := AllSegments(file, capacity, limit);
    var n := FirstEmpty(all);
    if n < |all| {
      EmptyExactly(file, capacity, limit, n);
      HeaderComplete(file, |Returned(all[..n])|);
      NonEmptyReturned(all[..n]);
    }
  }

  lemma NonEmptyReturned(h: seq<Segment>)
    requires h != [] && h[|h| - 1].bytes != []
    ensures Returned(h) != []
  {
  }
}
