/** Why the scanner's segments are exactly the file cut at its headers, for every
    input capacity and every output limit. */
module ScanProofs {
  import opened ByteSeq
  import opened Bz2Format
  import opened Segments
  import opened ScanSpec

  /** Where the stream being handed out begins. */
  function Start(s: Scan): nat {
    CutPoint(s.file, s.streamNo)
  }

  /** Nothing read is lost: `out` continues what was handed out before position `total`,
      and the input window continues `out`. */
  predicate Conserved(s: Scan, total: nat) {
    total + |s.out| == Taken(s) && IsSlice(s.out, s.file, total)
  }

  /** No header that lies completely in the bytes read so far starts strictly between
      the current stream's own header and `to`. */
  ghost predicate Searched(s: Scan, to: int) {
    NoHeaderIn(s.file, Start(s) + 1, Min(to, s.filePos - TAIL))
  }

  /** A header is at the search pointer and none was passed over. */
  ghost predicate FoundNext(s: Scan) {
    && !s.eof && s.search + HEADER_SIZE <= |s.window|
    && HeaderAt(s.file, Pos(s, s.search)) && Searched(s, Pos(s, s.search))
  }

  /** The search state, and what is known about the bytes before it. */
  ghost predicate Searching(s: Scan, total: nat) {
    && Wf(s) && Conserved(s, total) && s.headerFound && !s.failed
    && s.current <= s.search && Start(s) < Pos(s, s.search) && Start(s) + HEADER_SIZE <= s.filePos
    && (if s.eof then s.filePos == |s.file| else s.current + TAIL <= |s.window|)
    && if s.status then FoundNext(s) else s.search == |s.window| && Searched(s, s.filePos)
  }

  /** Between calls, after the first header was accepted and until an error. */
  ghost predicate Idle(s: Scan) {
    && Wf(s) && s.out == [] && s.outCapacity == 0 && s.headerFound && !s.failed && HeaderAt(s.file, 0)
    && (s.outSeq == 0 ==> Start(s) == Taken(s))
    && (s.outSeq > 0 ==> Start(s) < Taken(s))
    && if Exhausted(s) then Start(s) == |s.file| == s.filePos && s.outSeq == 0 && s.search == |s.window|
       else
         && Start(s) + HEADER_SIZE <= s.filePos
         && (if s.eof then !s.status && s.filePos == |s.file| else s.current + TAIL <= |s.window|)
         && (s.status ==> FoundNext(s) && s.current <= s.search && (s.current == s.search <==> s.outSeq == 0))
         && (!s.status ==> s.search == |s.window| && Searched(s, s.filePos) && s.outSeq > 0)
  }

  // ------------------------------------------------------------- the search

  /** Searching a stretch of the window extends the stretch of the file searched. */
  lemma SearchedFurther(s: Scan, a: nat, b: nat)
    requires Wf(s) && a <= b <= |s.window|
    requires Searched(s, Pos(s, a)) && NoHeaderIn(s.window, a, b)
    ensures Searched(s, Pos(s, b))
  {
    hide HeaderAt, IsSlice, CutPoint;
    forall j | Start(s) + 1 <= j < Min(Pos(s, b), s.filePos - TAIL) ensures !HeaderAt(s.file, j) {
      if Pos(s, a) <= j {
        SliceHeader(s.window, s.file, Pos(s, 0), j - Pos(s, 0));
        assert !HeaderAt(s.window, j - Pos(s, 0));
      }
    }
  }

  lemma SearchInBuffKeeps(s: Scan, total: nat)
    requires Wf(s) && Conserved(s, total) && s.headerFound && !s.failed
    requires s.current <= s.search && Start(s) < Pos(s, s.search) && Start(s) + HEADER_SIZE <= s.filePos
    requires Searched(s, Pos(s, s.search))
    requires if s.eof then s.filePos == |s.file| && |s.window| < HEADER_SIZE else s.current + TAIL <= |s.window|
    ensures Searching(SearchInBuff(s), total)
  {
    hide HeaderAt, IsSlice, CutPoint, NextHeader;
    var p := NextHeader(s.window, s.search);
    SearchedFurther(s, s.search, p);
    if p < |s.window| {
      HeaderComplete(s.window, p);
      SliceHeader(s.window, s.file, Pos(s, 0), p);
    }
  }

  lemma HeaderComplete(w: seq<Byte>, p: int)
    requires HeaderAt(w, p)
    ensures 0 <= p && p + HEADER_SIZE <= |w|
  {
  }

  lemma AppendKeeps(s: Scan, end: int, total: nat)
    requires Wf(s) && Conserved(s, total) && end <= |s.window| && (s.headerFound || end <= s.current)
    ensures Conserved(Append(s, end), total)
    ensures |Append(s, end).out| == |s.out| + Max(0, end - s.current)
  {
    hide IsSlice;
    if s.current < end {
      SlicePart(s.window, s.file, Pos(s, 0), s.current, end);
      SliceJoin(s.out, s.window[s.current..end], s.file, total);
    }
  }

  lemma RewindKeeps(s: Scan, total: nat)
    requires Wf(s) && Conserved(s, total) && (s.headerFound || s.window == [])
    ensures Conserved(Rewind(s), total)
    ensures |Rewind(s).out| == |s.out| + |s.window| - s.current - |Rewind(s).window|
  {
    hide IsSlice;
    RewindFrame(s);
    AppendFrame(s, |s.window| - TAIL);
    AppendKeeps(s, |s.window| - TAIL, total);
  }

  /** A read drops nothing, and the nine bytes kept cover every header not yet complete. */
  lemma ReadKeeps(s: Scan, total: nat)
    requires Searching(s, total) && !s.status && !s.eof
    ensures var r := Read(s);
            && Wf(r) && Conserved(r, total) && Searched(r, Pos(r, r.search))
            && Start(r) < Pos(r, r.search) && Start(r) + HEADER_SIZE <= r.filePos
            && (if r.eof then r.filePos == |r.file| && |r.window| < HEADER_SIZE else r.current + TAIL <= |r.window|)
  {
    hide HeaderAt, IsSlice, CutPoint, Rewind;
    ReadFrame(s);
    RewindFrame(s);
    RewindKeeps(s, total);
  }

  lemma {:induction false} SearchLoopKeeps(s: Scan, total: nat)
    requires Searching(s, total)
    ensures var t := SearchLoop(s); Searching(t, total) && (!t.status && !t.eof ==> t.limit <= |t.out|)
    decreases |s.file| - s.filePos, if s.eof then 0 else 1
  {
    hide HeaderAt, IsSlice, CutPoint, Read, SearchInBuff;
    if !s.status && !s.eof && !s.failed && |s.out| < s.limit {
      ReadFrame(s);
      SearchInBuffFrame(Read(s));
      ReadKeeps(s, total);
      SearchInBuffKeeps(Read(s), total);
      SearchLoopKeeps(SearchInBuff(Read(s)), total);
    }
  }

  lemma SearchNextKeeps(s: Scan, total: nat)
    requires Wf(s) && Conserved(s, total) && s.headerFound && !s.failed && !s.eof && !s.status
    requires s.current <= s.search && Start(s) < Pos(s, s.search) && Start(s) + HEADER_SIZE <= s.filePos
    requires Searched(s, Pos(s, s.search)) && s.current + TAIL <= |s.window|
    ensures var t := SearchNext(s); Searching(t, total) && (!t.status && !t.eof ==> t.limit <= |t.out|)
  {
    hide HeaderAt, IsSlice, CutPoint, SearchInBuff, SearchLoop;
    SearchInBuffFrame(s);
    var t := if s.search < |s.window| then SearchInBuff(s) else s;
    if s.search < |s.window| {
      SearchInBuffKeeps(s, total);
    }
    SearchLoopFrame(t);
    SearchLoopKeeps(t, total);
  }

  lemma NextSearchKeeps(s: Scan)
    requires Idle(s) && !Exhausted(s)
    ensures var t := NextSearch(s);
            && Searching(t, Taken(s)) && (!t.status && !t.eof ==> t.limit <= |t.out|)
            && t.file == s.file && t.outSeq == s.outSeq && t.streamNo == s.streamNo && t.limit == s.limit
  {
    hide HeaderAt, IsSlice, CutPoint, SearchNext;
    EmptySlice(s.file, Taken(s));
    if s.current == s.search || (!s.status && !s.eof) {
      SearchNextFrame(PastHeader(s));
      if s.status {
        PastOwnHeader(s);
      }
      SearchNextKeeps(PastHeader(s), Taken(s));
    }
  }

  lemma EmptySlice(f: seq<Byte>, lo: nat)
    requires lo <= |f|
    ensures IsSlice([], f, lo)
  {
  }

  /** Sliding over a stream's own header cannot jump over another one. */
  lemma PastOwnHeader(s: Scan)
    requires Idle(s) && !Exhausted(s) && s.status && s.current == s.search
    ensures Searched(PastHeader(s), Pos(s, s.search + HEADER_SIZE))
  {
    hide HeaderAt, IsSlice, CutPoint;
    forall j | Start(s) + 1 <= j < Start(s) + HEADER_SIZE ensures !HeaderAt(s.file, j) {
      if HeaderAt(s.file, j) {
        HeadersDisjoint(s.file, Start(s), j);
      }
    }
  }

  // ---------------------------------------------------------- handing it out

  lemma AppendUpToLimitKeeps(s: Scan, total: nat)
    requires Wf(s) && Conserved(s, total) && s.headerFound
    ensures var u := AppendUpToLimit(s);
            && Wf(u) && Conserved(u, total)
            && u == s.(current := u.current, out := u.out, outCapacity := u.outCapacity, outHint := u.outHint)
            && s.current <= u.current <= Max(s.current, CopyStop(s))
            && (s.out == [] && s.current < CopyStop(s) ==> s.current < u.current)
  {
    hide IsSlice, Append;
    var maxAddition := Max(s.limit, s.outCapacity) - |s.out|;
    if maxAddition > 0 {
      var end := Min(CopyStop(s), s.current + maxAddition);
      AppendFrame(s, end);
      AppendKeeps(s, end, total);
    }
  }

  /** The search pointer of a successful (or final) search is the next cut point. */
  lemma SearchEndsAtCut(s: Scan, total: nat)
    requires Searching(s, total) && (s.status || s.eof)
    ensures NextCut(s.file, Start(s)) == Pos(s, s.search)
  {
    hide HeaderAt, IsSlice, CutPoint, NextHeader;
    if !s.status {
      forall j | s.filePos - TAIL <= j < s.filePos ensures !HeaderAt(s.file, j) {
        if HeaderAt(s.file, j) { HeaderComplete(s.file, j); }
      }
    }
    NextHeaderUnique(s.file, Start(s) + 1, Pos(s, s.search));
  }

  lemma ExhaustedAtEnd(s: Scan)
    requires Idle(s)
    ensures Exhausted(s) <==> Taken(s) == |s.file|
  {
    hide HeaderAt, IsSlice, CutPoint;
  }

  /** One call, once the first header is known. */
  ghost predicate StepOk(s: Scan, s': Scan, g: Segment) {
    && Idle(s') && s'.file == s.file && s'.limit == s.limit
    && IsSlice(g.bytes, s.file, Taken(s)) && Taken(s') == Taken(s) + |g.bytes|
    && g.blockNumber == s.streamNo
    && g.sequenceNumber == (if s.outSeq > 0 then s.outSeq + 1 else if g.isLast then 0 else 1)
    && s'.outSeq == (if g.isLast then 0 else g.sequenceNumber)
    && s'.streamNo == (if g.isLast then s.streamNo + 1 else s.streamNo)
    && (g.isLast ==> Taken(s') == NextCut(s.file, Start(s)))
  }

  /** What the search left, as the filling-in needs it. */
  ghost predicate Ready(t: Scan, total: nat) {
    && Searching(t, total) && HeaderAt(t.file, 0) && (!t.status && !t.eof ==> t.limit <= |t.out|)
    && Start(t) <= total < |t.file|
  }

  lemma FillInFound(t: Scan, total: nat)
    requires Ready(t, total) && t.status
    ensures var u := AppendUpToLimit(t);
            && Idle(AfterSegment(u))
            && (FillIn(u).isLast ==> Taken(u) == NextCut(t.file, Start(t)))
  {
    hide HeaderAt, IsSlice, NextHeader, AppendUpToLimit, NextCut;
    AppendUpToLimitKeeps(t, total);
    SearchEndsAtCut(t, total);
  }

  lemma FillInLast(t: Scan, total: nat)
    requires Ready(t, total) && !t.status && t.eof
    ensures var u := AppendUpToLimit(t);
            && Idle(AfterSegment(u))
            && (FillIn(u).isLast ==> Taken(u) == NextCut(t.file, Start(t)))
  {
    hide HeaderAt, IsSlice, NextHeader, AppendUpToLimit, NextCut;
    AppendUpToLimitKeeps(t, total);
    SearchEndsAtCut(t, total);
  }

  lemma FillInFull(t: Scan, total: nat)
    requires Ready(t, total) && !t.status && !t.eof
    ensures var u := AppendUpToLimit(t); Idle(AfterSegment(u)) && !FillIn(u).isLast
  {
    hide HeaderAt, IsSlice, CutPoint, NextHeader, AppendUpToLimit, NextCut;
    AppendUpToLimitKeeps(t, total);
  }

  lemma StepKeeps(s: Scan)
    requires Idle(s)
    ensures Exhausted(s) ==> GetNext(s) == (s, EndOfFile)
    ensures !Exhausted(s) ==> GetNext(s).1.Handed? && StepOk(s, GetNext(s).0, GetNext(s).1.segment)
  {
    hide HeaderAt, IsSlice, CutPoint, NextHeader, AppendUpToLimit, NextCut, NextSearch;
    ExhaustedAtEnd(s);
    assert EmptyOut(s) == s;
    if !Exhausted(s) {
      NextSearchKeeps(s);
      var t := NextSearch(s);
      AppendUpToLimitKeeps(t, Taken(s));
      if t.status {
        FillInFound(t, Taken(s));
      } else if t.eof {
        FillInLast(t, Taken(s));
      } else {
        FillInFull(t, Taken(s));
      }
    }
  }

  /** A handed-out segment is empty exactly when the stream it continues turns out to
      have ended where the previous segment stopped. */
  lemma EmptySegment(s: Scan)
    requires Idle(s) && !Exhausted(s)
    ensures GetNext(s).1.Handed?
    ensures GetNext(s).1.segment.bytes == [] <==> s.outSeq > 0 && HeaderAt(s.file, Taken(s))
    ensures GetNext(s).1.segment.bytes == [] ==> GetNext(s).1.segment.isLast && !GetNext(s).0.eof
  {
    hide HeaderAt, IsSlice, CutPoint, NextHeader, AppendUpToLimit, NextCut, NextSearch;
    ExhaustedAtEnd(s);
    assert EmptyOut(s) == s;
    NextSearchKeeps(s);
    var total := Taken(s);
    var t := NextSearch(s);
    AppendUpToLimitKeeps(t, total);
    if s.outSeq > 0 && HeaderAt(s.file, total) {
      HeaderComplete(s.file, total);
      assert !t.status ==> t.filePos - TAIL <= total;
      assert t.status ==> Pos(t, t.search) <= total;
    }
  }

  // ----------------------------------------------------------- the first call

  /** The first search accepts the file exactly when it begins with a header. */
  lemma FirstSearchVerdict(file: seq<Byte>, capacity: nat, limit: nat)
    requires 1 <= limit
    ensures var s := Init(file, capacity, limit);
            && Wf(s) && FirstSearch(s).failed == !HeaderAt(file, 0)
            && (HeaderAt(file, 0) ==> FirstAccepted(FirstSearch(s), file, limit) && GetNext(s) == GetNext(FirstSearch(s)))
            && (!HeaderAt(file, 0) ==> GetNext(s).1 == Failed)
  {
    FirstLoop(file, capacity, limit);
    hide HeaderAt, Wf, SearchNext, NextSearch, AppendUpToLimit, Idle;
    var s := Init(file, capacity, limit);
    assert s.(status := false) == s && EmptyOut(s) == s;
    if HeaderAt(file, 0) {
      var f := FirstSearch(s);
      FirstIdle(f);
      assert EmptyOut(f) == f;
    }
  }

  lemma SearchNextFromEmpty(s: Scan)
    requires Wf(s) && s.search == |s.window|
    ensures var t := SearchLoop(s);
            SearchNext(s) == t.(headerFound := t.headerFound || t.status, search := if t.failed then |t.window| else t.search)
  {
    hide IsSlice, SearchLoop, SearchInBuff;
  }

  /** The first search is one read and one look at its beginning. */
  lemma FirstLoop(file: seq<Byte>, capacity: nat, limit: nat)
    requires 1 <= limit
    ensures var s := Init(file, capacity, limit);
            Wf(s) && FirstResult(s, SearchNext(s))
  {
    hide HeaderAt, Read, SearchInBuff, SearchLoop, SearchNext, FirstResult;
    var s := Init(file, capacity, limit);
    var r := FirstRead(s);
    FirstInBuff(r);
    SearchInBuffFrame(r);
    LoopStops(SearchInBuff(r));
    LoopGoesOn(s);
    SearchNextFromEmpty(s);
    FirstSettled(s, r, SearchInBuff(r));
  }

  ghost predicate FirstResult(s: Scan, f: Scan) {
    && Wf(f) && f.failed == !HeaderAt(s.file, 0) && f.status == f.headerFound == HeaderAt(s.file, 0)
    && |f.window| == Min(s.capacity, |s.file|)
    && f == s.(window := f.window, filePos := |f.window|, eof := f.eof, search := f.search,
               status := f.status, failed := f.failed, headerFound := f.headerFound)
    && (HeaderAt(s.file, 0) ==> f.search == 0 && HEADER_SIZE <= |f.window| && !f.eof)
  }

  lemma FirstSettled(s: Scan, r: Scan, t: Scan)
    requires !s.headerFound && !s.eof && s.current == 0 && !s.status && !s.failed
    requires r == s.(window := r.window, filePos := |r.window|, eof := r.eof) && r.eof == (r.window == [])
    requires |r.window| == Min(s.capacity, |s.file|)
    requires t == r.(search := t.search, status := t.status, failed := t.failed) && Wf(t)
    requires t.failed == !HeaderAt(s.file, 0) && t.status == HeaderAt(s.file, 0)
    requires t.status ==> t.search == 0 && HEADER_SIZE <= |r.window|
    ensures FirstResult(s, t.(headerFound := t.headerFound || t.status, search := if t.failed then |t.window| else t.search))
  {
    hide HeaderAt, IsSlice;
  }

  lemma LoopStops(s: Scan)
    requires Wf(s) && (s.status || s.failed)
    ensures SearchLoop(s) == s
  {
  }

  lemma LoopGoesOn(s: Scan)
    requires Wf(s) && !s.status && !s.eof && !s.failed && |s.out| < s.limit
    ensures Wf(Read(s)) && Wf(SearchInBuff(Read(s))) && SearchLoop(s) == SearchLoop(SearchInBuff(Read(s)))
  {
    hide IsSlice, Read, SearchInBuff;
    ReadFrame(s);
    SearchInBuffFrame(Read(s));
  }

  ghost predicate FirstAccepted(t: Scan, file: seq<Byte>, limit: nat) {
    && Idle(t) && !Exhausted(t) && Taken(t) == 0 && t.streamNo == 0 && t.outSeq == 0
    && t.file == file && t.limit == limit
  }

  /** The very first read, as a value. */
  function FirstRead(s: Scan): (r: Scan)
    requires Wf(s) && s.window == [] && s.filePos == 0 && s.current == s.search == 0
    ensures r == Read(s) && Wf(r)
    ensures r == s.(window := r.window, filePos := |r.window|, eof := r.eof)
    ensures |r.window| == Min(s.capacity, |s.file|) && r.eof == (s.eof || r.window == [])
  {
    ReadFrame(s);
    Read(s)
  }

  lemma FirstInBuff(r: Scan)
    requires Wf(r) && !r.headerFound && r.search == 0 && !r.failed && !r.status
    requires |r.window| == Min(r.capacity, |r.file|) == r.filePos
    ensures var t := SearchInBuff(r);
            && t.failed == !HeaderAt(r.file, 0) && t.status == HeaderAt(r.file, 0)
            && (t.status ==> t.search == 0 && HEADER_SIZE <= |r.window|)
  {
    SliceHeader(r.window, r.file, 0, 0);
    if HeaderAt(r.file, 0) {
      HeaderComplete(r.file, 0);
    }
  }

  lemma FirstIdle(f: Scan)
    requires Wf(f) && f.headerFound && f.status && !f.failed && !f.eof && HeaderAt(f.file, 0)
    requires f.filePos == |f.window| && HEADER_SIZE <= |f.window|
    requires f.current == f.search == 0 && f.out == [] && f.outCapacity == 0 && f.outSeq == 0 && f.streamNo == 0
    ensures Idle(f) && !Exhausted(f)
  {
    hide HeaderAt, IsSlice;
  }

  // ------------------------------------------------------------ whole runs

  /** h is everything handed out so far, and the counters agree with it. */
  ghost predicate History(s: Scan, h: seq<Segment>) {
    && Taken(s) >= 0 && Delivered(s.file, h, s.streamNo, Taken(s)) && WellSequenced(h)
    && if h == [] then s.outSeq == 0 && s.streamNo == 0
       else
         var g := h[|h| - 1];
         && s.outSeq == (if g.isLast then 0 else g.sequenceNumber)
         && s.streamNo == (if g.isLast then g.blockNumber + 1 else g.blockNumber)
         && (!g.isLast ==> 1 <= g.sequenceNumber)
  }

  lemma HistoryKeeps(s: Scan, s': Scan, g: Segment, h: seq<Segment>)
    requires Idle(s) && StepOk(s, s', g) && History(s, h)
    ensures History(s', h + [g])
  {
    hide HeaderAt, CutPoint, NextCut, Delivered, Wf;
    DeliverPart(s.file, h, s.streamNo, Taken(s), g, Taken(s'));
    if g.isLast {
      DeliverEnd(s.file, h + [g], s.streamNo, Taken(s'));
    }
    SequenceGrows(h, g);
  }

  lemma SequenceGrows(h: seq<Segment>, g: Segment)
    requires WellSequenced(h)
    requires if h == [] then Starts(g) && g.blockNumber == 0 else Follows(h[|h| - 1], g)
    ensures WellSequenced(h + [g])
  {
    var h' := h + [g];
    forall i | 1 <= i < |h'| ensures FollowsAt(h', i) {
      if i < |h| { assert FollowsAt(h, i); }
    }
  }

  /** Everything the scanner still hands out from an idle state on. */
  function Drain(s: Scan): seq<Segment>
    requires Idle(s)
    decreases |s.file| - Taken(s), s.outSeq
  {
    StepKeeps(s);
    if Exhausted(s) then []
    else
      EmptySegment(s);
      ExhaustedAtEnd(s);
      var (s', o) := GetNext(s);
      [o.segment] + Drain(s')
  }

  /** The segments a file is split into, with a given input capacity and output limit. */
  function AllSegments(file: seq<Byte>, capacity: nat, limit: nat): seq<Segment>
    requires 1 <= limit && HeaderAt(file, 0)
  {
    FirstSearchVerdict(file, capacity, limit);
    Drain(FirstSearch(Init(file, capacity, limit)))
  }

  /** h is a complete and correct splitting of the file. */
  ghost predicate SplitOf(file: seq<Byte>, h: seq<Segment>) {
    && Returned(h) == file && WellSequenced(h)
    && (h != [] ==> h[|h| - 1].isLast)
    && forall k: nat :: BlockIs(file, h, k)
  }

  /** The segments of block k are stream k of the file, or there is neither. */
  predicate BlockIs(file: seq<Byte>, h: seq<Segment>, k: nat) {
    BlockBytes(h, k) == if k < |Streams(file)| then Streams(file)[k] else []
  }

  lemma HistoryComplete(s: Scan, h: seq<Segment>)
    requires Idle(s) && History(s, h) && Exhausted(s)
    ensures SplitOf(s.file, h)
  {
    hide CutPoint, Streams, BlockBytes, StreamAt, HeaderAt;
    ExhaustedAtEnd(s);
    forall k: nat ensures BlockIs(s.file, h, k) {
      AllStreamsDelivered(s.file, h, s.streamNo, k);
    }
  }

  lemma {:induction false} DrainCompletes(s: Scan, h: seq<Segment>)
    requires Idle(s) && History(s, h)
    ensures SplitOf(s.file, h + Drain(s))
    decreases |s.file| - Taken(s), s.outSeq
  {
    hide History, SplitOf, HeaderAt, CutPoint, GetNext;
    StepKeeps(s);
    ExhaustedAtEnd(s);
    if Exhausted(s) {
      HistoryComplete(s, h);
      assert h + Drain(s) == h;
    } else {
      EmptySegment(s);
      var (s', o) := GetNext(s);
      HistoryKeeps(s, s', o.segment, h);
      DrainCompletes(s', h + [o.segment]);
      assert h + [o.segment] + Drain(s') == h + Drain(s);
    }
  }

  /** The main result: whatever the buffer sizes, the segments grouped by block number
      are the file cut at every header, in order, nothing lost and nothing repeated. */
  lemma SplitIsCutAtHeaders(file: seq<Byte>, capacity: nat, limit: nat)
    requires 1 <= limit && HeaderAt(file, 0)
    ensures SplitOf(file, AllSegments(file, capacity, limit))
  {
    hide HeaderAt, Drain;
    FirstSearchVerdict(file, capacity, limit);
    var s := FirstSearch(Init(file, capacity, limit));
    NothingDelivered(file);
    DrainCompletes(s, []);
    assert [] + Drain(s) == Drain(s);
  }

  // ------------------------------------------------- any number of calls

  /** The scanner after any number of calls that met no error; h is what they returned. */
  ghost predicate ValidScan(s: Scan, h: seq<Segment>) {
    && Wf(s) && !s.failed
    && if s.headerFound then Idle(s) && History(s, h)
       else s == Init(s.file, s.capacity, s.limit) && h == []
  }

  /** The last segment returned leaves its stream open. */
  predicate OpenEnded(h: seq<Segment>) {
    h != [] && !h[|h| - 1].isLast
  }

  lemma NextFromIdle(s: Scan, h: seq<Segment>)
    requires Idle(s) && History(s, h)
    ensures var (s', o) := GetNext(s);
            match o
            case Failed => false
            case EndOfFile => s' == s && s.eof && SplitOf(s.file, h)
            case Handed(g) =>
              && ValidScan(s', h + [g]) && s'.headerFound && s'.file == s.file
              && Taken(s') == Taken(s) + |g.bytes| && Taken(s) < |s.file| && Taken(s') <= |s.file|
              && (g.bytes == [] <==> OpenEnded(h) && HeaderAt(s.file, Taken(s)))
              && (g.bytes == [] ==> g.isLast && !s'.eof)
  {
    hide HeaderAt, IsSlice, GetNext, SplitOf;
    StepKeeps(s);
    ExhaustedAtEnd(s);
    if Exhausted(s) {
      HistoryComplete(s, h);
    } else {
      EmptySegment(s);
      var (s', o) := GetNext(s);
      HistoryKeeps(s, s', o.segment, h);
    }
  }

  /** What one call means, given the history h before it. */
  ghost predicate Answer(file: seq<Byte>, h: seq<Segment>, s': Scan, o: Outcome) {
    && WellSequenced(h) && s'.failed == o.Failed?
    && match o
    case Failed => h == [] && !HeaderAt(file, 0)
    case EndOfFile => ValidScan(s', h) && s'.eof && s'.headerFound && HeaderAt(file, 0) && SplitOf(file, h)
    case Handed(g) =>
      && ValidScan(s', h + [g]) && s'.headerFound && s'.file == file && HeaderAt(file, 0)
      && |Returned(h)| < |file| && Returned(h) == file[..|Returned(h)|]
      && (g.bytes == [] <==> OpenEnded(h) && HeaderAt(file, |Returned(h)|))
      && (g.bytes == [] ==> g.isLast && !s'.eof)
  }

  lemma NextIsValid(s: Scan, h: seq<Segment>)
    requires ValidScan(s, h)
    ensures Answer(s.file, h, GetNext(s).0, GetNext(s).1)
  {
    hide HeaderAt, IsSlice, GetNext, SplitOf;
    if s.headerFound {
      NextFromIdle(s, h);
      TakenIsReturned(s, h);
    } else {
      FirstSearchVerdict(s.file, s.capacity, s.limit);
      if HeaderAt(s.file, 0) {
        NothingDelivered(s.file);
        NextFromIdle(FirstSearch(s), []);
      } else {
        FirstFails(s);
      }
    }
  }

  lemma TakenIsReturned(s: Scan, h: seq<Segment>)
    requires Idle(s) && History(s, h)
    ensures Taken(s) == |Returned(h)|
  {
  }

  /** Between any two calls what was returned, the output buffer and what is buffered of the
      input are together the bytes read so far, and at end of file nothing is unsearched. */
  lemma NothingIsLost(s: Scan, h: seq<Segment>)
    requires ValidScan(s, h)
    ensures s.headerFound ==> Returned(h) + s.out + s.window[s.current..] == s.file[..s.filePos]
    ensures s.eof ==> s.search == |s.window|
  {
    hide HeaderAt, NextHeader, CutPoint, WellSequenced;
    if s.headerFound {
      SlicePart(s.window, s.file, s.filePos - |s.window|, s.current, |s.window|);
      assert s.file[..Taken(s)] + s.file[Taken(s)..s.filePos] == s.file[..s.filePos];
    }
  }

  lemma FirstFails(s: Scan)
    requires Wf(s) && FirstSearch(EmptyOut(s)).failed
    ensures GetNext(s).0.failed
  {
  }
}
