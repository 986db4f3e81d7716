/** The sizes of the scanner's segments follow from the lengths of the streams alone, and so
    does whether one of them is empty. */
module ScanForecast {
  import opened ByteSeq
  import opened Bz2Format
  import opened Segments
  import opened ScanSpec
  import opened ScanProofs
  import opened ScanSizes
  import opened ScanBoundary
  import opened JoinedStreams

  // ----------------------------------------------- the sizes within one call

  function SizesOf(s: Scan): (b: Sizes)
    requires Wf(s)
    ensures Fits(b)
  {
    Sizes(s.capacity - TAIL, s.limit)
  }

  /** Bytes of the window in front of its last nine that are not yet copied. */
  function RoomOf(s: Scan): int {
    |s.window| - TAIL - s.current
  }

  /** Where the current stream ends. */
  function End(s: Scan): nat {
    NextCut(s.file, Start(s))
  }

  /** The room is what the sizes say; at the end of the file it may be less, but then every
      header has been read. */
  predicate SameRoom(s: Scan, room: nat) {
    room <= s.capacity - TAIL && (RoomOf(s) == room || (s.filePos == |s.file| && RoomOf(s) <= room))
  }

  predicate SameFill(s: Scan, f: Fill) {
    SameRoom(s, f.room) && f.size == |s.out| && f.cap == s.outCapacity && f.hint == s.outHint
  }

  /** Another stream follows the one being handed out. */
  predicate NotLast(s: Scan) {
    End(s) < |s.file|
  }

  lemma NextStreamHasHeader(s: Scan)
    requires NotLast(s)
    ensures HeaderAt(s.file, End(s)) && End(s) + HEADER_SIZE <= |s.file|
  {
    hide CutPoint;
    HeaderComplete(s.file, End(s));
  }

  /** A search of the bytes read has found the next header exactly if it lies in front of the
      last nine. */
  lemma FoundIffInside(s: Scan, f: Fill, total: nat)
    requires Searching(s, total) && NotLast(s) && SameFill(s, f)
    ensures !s.eof && Taken(s) <= End(s)
    ensures s.status <==> End(s) - Taken(s) < f.room
    ensures s.status ==> Pos(s, s.search) == End(s)
    ensures !s.status ==> RoomOf(s) == f.room && s.search == |s.window|
  {
    hide HeaderAt, IsSlice, CutPoint, NextCut;
    NextStreamHasHeader(s);
    if s.status || s.eof {
      SearchEndsAtCut(s, total);
    }
    if !s.status {
      NotBefore(s);
    }
  }

  lemma NotBefore(s: Scan)
    requires Searched(s, s.filePos) && NotLast(s) && s.filePos >= TAIL
    ensures End(s) >= s.filePos - TAIL
  {
    hide CutPoint;
    NextStreamHasHeader(s);
    hide HeaderAt;
  }

  /** Copying n bytes does to the sizes what Put says. */
  lemma AppendIsPut(t: Scan, f: Fill, n: nat)
    requires Wf(t) && t.headerFound && SameFill(t, f) && FillOk(SizesOf(t), f) && n <= f.room && t.current + n <= |t.window|
    ensures var u := Append(t, t.current + n);
            && SameFill(u, Put(SizesOf(t), f, n)) && Taken(u) == Taken(t) + n
            && u == t.(current := u.current, out := u.out, outCapacity := u.outCapacity, outHint := u.outHint)
  {
    hide IsSlice, Hint;
  }

  lemma RewindIsPut(s: Scan, f: Fill)
    requires Wf(s) && s.headerFound && SameFill(s, f) && FillOk(SizesOf(s), f) && RoomOf(s) == f.room
    ensures var r, u := Rewind(s), Put(SizesOf(s), f, f.room);
            |r.out| == u.size && r.outCapacity == u.cap && r.outHint == u.hint
  {
    hide IsSlice, Put, Append, Wf;
    AppendIsPut(s, f, f.room);
  }

  lemma ReadIsRewound(s: Scan)
    requires Wf(s)
    ensures var r, w := Read(s), Rewind(s); r.out == w.out && r.outCapacity == w.outCapacity && r.outHint == w.outHint
  {
    hide Rewind, IsSlice;
  }

  lemma ReadIsPut(s: Scan, f: Fill, total: nat)
    requires Searching(s, total) && NotLast(s) && SameFill(s, f) && !s.status && s.headerFound
    ensures FillOk(SizesOf(s), f) && SameFill(Read(s), Put(SizesOf(s), f, f.room).(room := SizesOf(s).chunk))
    ensures Wf(Read(s)) && Taken(Read(s)) == Taken(s) + f.room
  {
    FoundIffInside(s, f, total);
    NextStreamHasHeader(s);
    hide HeaderAt, IsSlice, CutPoint, NextCut, Searched, FoundNext, Put, Read, Rewind;
    ReadFrame(s);
    ReadIsRewound(s);
    RewindIsPut(s, f);
  }

  lemma ReadsGoesOn(b: Sizes, f: Fill, d: nat)
    requires FillOk(b, f) && f.room <= d && f.size < b.limit
    ensures Reads(b, f, d) == Reads(b, Put(b, f, f.room).(room := b.chunk), d - f.room)
  {
    hide Put;
  }

  lemma SearchKeepsSizes(s: Scan, r: Scan, f: Fill)
    requires Wf(r) && SameFill(r, f) && r.file == s.file && r.streamNo == s.streamNo && r.capacity == s.capacity && r.limit == s.limit
    ensures var t := SearchInBuff(r);
            && Wf(t) && SameFill(t, f) && t.file == s.file && t.streamNo == s.streamNo && t.capacity == s.capacity && t.limit == s.limit
            && Taken(t) == Taken(r) && t.filePos == r.filePos && t.eof == r.eof
  {
    hide IsSlice, SearchInBuff;
    SearchInBuffFrame(r);
  }

  /** One more round of the loop, on the state and on the sizes. */
  lemma RoundIsPut(s: Scan, f: Fill, total: nat)
    requires Searching(s, total) && NotLast(s) && SameFill(s, f) && !s.status && |s.out| < s.limit
    ensures FillOk(SizesOf(s), f) && f.room <= End(s) - Taken(s) && f.size < s.limit
    ensures Wf(Read(s)) && Read(s).search <= |Read(s).window| && Wf(SearchInBuff(Read(s)))
    ensures var next := Put(SizesOf(s), f, f.room).(room := SizesOf(s).chunk);
            var t := SearchInBuff(Read(s));
            && Searching(t, total) && SameFill(t, next) && SearchLoop(s) == SearchLoop(t)
            && t.file == s.file && t.streamNo == s.streamNo && t.capacity == s.capacity && t.limit == s.limit
            && Taken(t) == Taken(s) + f.room
            && t.filePos <= |t.file| && (t.filePos > s.filePos || (t.filePos == s.filePos && t.eof && !s.eof))
  {
    FoundIffInside(s, f, total);
    ReadIsPut(s, f, total);
    ReadKeeps(s, total);
    SearchingIsWf(s, total);
    ReadFrame(s);
    SearchKeepsSizes(s, Read(s), Put(SizesOf(s), f, f.room).(room := SizesOf(s).chunk));
    hide HeaderAt, IsSlice, CutPoint, NextCut, Read, Put, SearchInBuff, Searched, FoundNext, SearchLoop, SameFill;
    SearchInBuffKeeps(Read(s), total);
    LoopGoesOn(s);
  }

  lemma LoopIsOver(s: Scan, f: Fill, total: nat)
    requires Searching(s, total) && NotLast(s) && SameFill(s, f) && (s.status || |s.out| >= s.limit)
    ensures Taken(s) <= End(s) && FillOk(SizesOf(s), f)
    ensures SearchLoop(s) == s && Reads(SizesOf(s), f, End(s) - Taken(s)) == (f, End(s) - Taken(s))
  {
    FoundIffInside(s, f, total);
    hide HeaderAt, IsSlice, CutPoint, NextCut, Searched, FoundNext;
  }

  /** The read loop does to the sizes what Reads says. */
  lemma {:induction false} LoopIsReads(s: Scan, f: Fill, total: nat)
    requires Wf(s) && Searching(s, total) && NotLast(s) && SameFill(s, f)
    ensures Taken(s) <= End(s) && FillOk(SizesOf(s), f)
    ensures var t := SearchLoop(s);
            var (r, left) := Reads(SizesOf(s), f, End(s) - Taken(s));
            && Searching(t, total) && SameFill(t, r) && t.file == s.file && t.streamNo == s.streamNo
            && End(t) - Taken(t) == left && t.capacity == s.capacity && t.limit == s.limit
    decreases |s.file| - s.filePos, if s.eof then 0 else 1
  {
    hide HeaderAt, IsSlice, CutPoint, NextCut, Read, SearchInBuff, Put, Searching, SameFill, SearchLoop, Reads, Wf;
    if s.status || |s.out| >= s.limit {
      LoopIsOver(s, f, total);
    } else {
      RoundIsPut(s, f, total);
      ReadsGoesOn(SizesOf(s), f, End(s) - Taken(s));
      var next := Put(SizesOf(s), f, f.room).(room := SizesOf(s).chunk);
      LoopIsReads(SearchInBuff(Read(s)), next, total);
    }
  }

  lemma SearchingIsWf(s: Scan, total: nat)
    requires Searching(s, total)
    ensures Wf(s) && s.headerFound && !s.failed
  {
  }

  /** Where the read loop of a call starts from. */
  function LoopStart(s: Scan): Scan
    requires Wf(s)
  {
    if s.current == s.search || (!s.status && !s.eof) then
      var p := PastHeader(s);
      if p.search < |p.window| then SearchInBuff(p) else p
    else s
  }

  lemma LoopStartKeeps(s: Scan)
    requires Idle(s) && !Exhausted(s)
    ensures Searching(LoopStart(s), Taken(s))
    ensures var t := LoopStart(s); t == s.(search := t.search, status := t.status, failed := t.failed)
  {
    hide HeaderAt, IsSlice, CutPoint, SearchInBuff;
    EmptySlice(s.file, Taken(s));
    if s.current == s.search || (!s.status && !s.eof) {
      if s.status {
        PastOwnHeader(s);
      }
      SearchInBuffFrame(PastHeader(s));
      if PastHeader(s).search < |s.window| {
        SearchInBuffKeeps(PastHeader(s), Taken(s));
      }
    }
  }

  lemma NextSearchIsLoop(s: Scan)
    requires Idle(s) && !Exhausted(s)
    ensures Wf(LoopStart(s)) && NextSearch(s) == SearchLoop(LoopStart(s))
  {
    hide HeaderAt, IsSlice, CutPoint, SearchInBuff, SearchLoop, Searching, PastHeader;
    LoopStartKeeps(s);
    SearchingIsWf(LoopStart(s), Taken(s));
    SearchLoopKeeps(LoopStart(s), Taken(s));
    SearchingIsWf(SearchLoop(LoopStart(s)), Taken(s));
    if !(s.current == s.search || (!s.status && !s.eof)) {
      LoopNotEntered(s);
    }
  }

  lemma LoopNotEntered(s: Scan)
    requires Wf(s) && (s.status || s.eof)
    ensures SearchLoop(s) == s
  {
  }

  lemma StopIsLeft(t: Scan, f: Fill, total: nat)
    requires Searching(t, total) && NotLast(t) && SameFill(t, f)
    ensures FillOk(SizesOf(t), f) && Taken(t) <= End(t)
    ensures t.current <= CopyStop(t) <= |t.window| && CopyStop(t) - t.current == Min(End(t) - Taken(t), f.room)
    ensures t.status <==> End(t) - Taken(t) < f.room
    ensures if t.status then t.search - t.current == End(t) - Taken(t) else CopyStop(t) < t.search
  {
    FoundIffInside(t, f, total);
    NextStreamHasHeader(t);
    hide HeaderAt, IsSlice, CutPoint, NextCut, Searched;
  }

  lemma AppendIsFillUp(t: Scan, f: Fill, total: nat)
    requires Wf(t) && Searching(t, total) && NotLast(t) && SameFill(t, f)
    ensures FillOk(SizesOf(t), f) && Taken(t) <= End(t)
    ensures var u := AppendUpToLimit(t);
            var r := FillUp(SizesOf(t), f, End(t) - Taken(t));
            && SameFill(u, r) && Taken(u) == Taken(t) + (r.size - f.size)
            && u.capacity == t.capacity && u.limit == t.limit && u.file == t.file
            && (FillIn(u).isLast <==> End(t) - Taken(t) < f.room && Taken(u) == End(t))
  {
    hide Searching, End, CopyStop, HeaderAt, Append, Put, Wf, SameRoom, NotLast;
    StopIsLeft(t, f, total);
    SearchingIsWf(t, total);
    var add := Min(CopyStop(t) - t.current, Max(t.limit, t.outCapacity) - |t.out|);
    if add > 0 {
      AppendIsPut(t, f, add);
    } else {
      AppendNothing(t);
    }
  }

  lemma AppendNothing(t: Scan)
    requires t.current <= |t.window|
    ensures Append(t, t.current) == t
  {
  }

  predicate SameGauge(s: Scan, g: Gauge) {
    SameRoom(s, g.room) && s.outHint == g.hint
  }

  lemma StartsEmpty(s: Scan, g: Gauge)
    requires Idle(s) && !Exhausted(s) && SameGauge(s, g)
    ensures Wf(s) && EmptyOut(s) == s == FirstSearch(s) && !s.failed && s.capacity - TAIL >= g.room && Taken(s) >= 0
    ensures Wf(LoopStart(s)) && SameFill(LoopStart(s), Fill(g.room, 0, 0, g.hint)) && Searching(LoopStart(s), Taken(s))
    ensures var t := LoopStart(s);
            t.file == s.file && t.streamNo == s.streamNo && t.capacity == s.capacity && t.limit == s.limit && Taken(t) == Taken(s)
  {
    hide HeaderAt, IsSlice, CutPoint, LoopStart, Searching;
    LoopStartKeeps(s);
    SearchingIsWf(LoopStart(s), Taken(s));
  }

  /** A call hands out a segment of the size that the sizes say, and leaves what they say. */
  lemma CallIs(s: Scan, g: Gauge)
    requires Idle(s) && !Exhausted(s) && NotLast(s) && SameGauge(s, g)
    ensures Wf(s) && g.room <= SizesOf(s).chunk && Taken(s) <= End(s)
    ensures var c := Call(SizesOf(s), g, End(s) - Taken(s));
            var (s', o) := GetNext(s);
            && o.Handed? && |o.segment.bytes| == c.size && o.segment.isLast == c.isLast
            && SameGauge(s', c.gauge) && s'.capacity == s.capacity && s'.limit == s.limit && s'.file == s.file
  {
    hide Idle, HeaderAt, IsSlice, CutPoint, NextCut, Searching, SameRoom, LoopStart, SearchLoop, Reads, FillUp, AppendUpToLimit,
      FirstSearch, NextSearch, FillIn, GetNext, Wf, EmptyOut, Exhausted;
    StartsEmpty(s, g);
    NextSearchIsLoop(s);
    LoopIsReads(LoopStart(s), Fill(g.room, 0, 0, g.hint), Taken(s));
    SearchingIsWf(NextSearch(s), Taken(s));
    var (f, left) := Reads(SizesOf(s), Fill(g.room, 0, 0, g.hint), End(s) - Taken(s));
    AppendIsFillUp(NextSearch(s), f, Taken(s));
    GetNextCases(s);
    AfterSame(AppendUpToLimit(NextSearch(s)), FillUp(SizesOf(s), f, left));
  }

  lemma AfterSame(u: Scan, f: Fill)
    requires SameFill(u, f)
    ensures SameGauge(AfterSegment(u), Gauge(f.room, f.hint)) && |FillIn(u).bytes| == f.size
    ensures var v := AfterSegment(u); v.capacity == u.capacity && v.limit == u.limit && v.file == u.file
  {
  }

  // --------------------------------------------------------- a whole file

  function Lengths(streams: seq<seq<Byte>>): (r: seq<nat>)
    ensures |r| == |streams| && forall k | 0 <= k < |r| :: r[k] == |streams[k]|
  {
    seq(|streams|, k requires 0 <= k < |streams| => |streams[k]|)
  }

  /** What is left of the current stream, and the lengths of those behind it. */
  function Left(s: Scan): seq<nat>
    requires Taken(s) <= End(s)
  {
    if Taken(s) == |s.file| then [] else [End(s) - Taken(s)] + Lengths(Rest(s.file, s.streamNo + 1))
  }

  /** The segments have these sizes, and those behind them are not empty. */
  predicate Foretold(all: seq<Segment>, sizes: seq<nat>) {
    && |sizes| <= |all|
    && (forall i | 0 <= i < |sizes| :: |all[i].bytes| == sizes[i])
    && (forall i | |sizes| <= i < |all| :: all[i].bytes != [])
  }

  lemma ForetoldCons(g: Segment, all: seq<Segment>, sizes: seq<nat>)
    requires Foretold(all, sizes)
    ensures Foretold([g] + all, [|g.bytes|] + sizes)
    ensures sizes == [] && g.bytes != [] ==> Foretold([g] + all, [])
  {
  }

  lemma NoHeaderInLast(s: Scan)
    requires Idle(s) && !Exhausted(s) && !NotLast(s) && s.outSeq > 0
    ensures Taken(s) <= End(s) && !HeaderAt(s.file, Taken(s))
  {
    hide CutPoint, IsSlice;
    if HeaderAt(s.file, Taken(s)) { HeaderComplete(s.file, Taken(s)); }
    hide HeaderAt;
  }

  /** The last stream has no empty segment. */
  lemma {:induction false} LastIsFull(s: Scan)
    requires Idle(s) && !NotLast(s)
    ensures Foretold(Drain(s), [])
    decreases |s.file| - Taken(s), s.outSeq
  {
    hide HeaderAt, CutPoint, GetNext, IsSlice, Drain, NextCut, Searched, FoundNext;
    StepKeeps(s);
    ExhaustedAtEnd(s);
    DrainHead(s);
    if !Exhausted(s) {
      EmptySegment(s);
      if s.outSeq > 0 { NoHeaderInLast(s); }
      var (s', o) := GetNext(s);
      NextOfLast(s, s', o.segment);
      LastIsFull(s');
      ForetoldCons(o.segment, Drain(s'), []);
    }
  }

  lemma NextOfLast(s: Scan, s': Scan, g: Segment)
    requires Idle(s) && !NotLast(s) && StepOk(s, s', g)
    ensures !NotLast(s')
  {
    hide HeaderAt, IsSlice, Wf, NextHeader;
  }

  /** The streams behind the current one: the next, and those behind that. */
  lemma BehindIt(s: Scan)
    requires NotLast(s)
    ensures CutPoint(s.file, s.streamNo + 1) == End(s)
    ensures var rest := Rest(s.file, s.streamNo + 1);
            && rest != [] && |rest[0]| == NextCut(s.file, End(s)) - End(s) && rest[1..] == Rest(s.file, s.streamNo + 2)
  {
    hide NextCut, Rest, StreamAt;
    assert CutPoint(s.file, s.streamNo + 1) == End(s);
    RestStep(s.file, s.streamNo + 1);
    PieceLength(s.file, s.streamNo + 1);
  }

  lemma LengthsStep(streams: seq<seq<Byte>>)
    requires streams != []
    ensures Lengths(streams) == [|streams[0]|] + Lengths(streams[1..])
  {
  }

  lemma LeftNext(s: Scan, s': Scan)
    requires NotLast(s) && Taken(s) <= End(s) && s'.file == s.file && s'.streamNo == s.streamNo + 1 && Taken(s') == End(s)
    ensures Taken(s') <= End(s') && |Left(s)| > 1 && Left(s') == Left(s)[1..]
  {
    hide NextCut, Rest, StreamAt, Taken, Lengths;
    BehindIt(s);
    LengthsStep(Rest(s.file, s.streamNo + 1));
    hide CutPoint;
  }

  lemma LeftSame(s: Scan, s': Scan)
    requires NotLast(s) && Taken(s) <= Taken(s') <= End(s) && s'.file == s.file && s'.streamNo == s.streamNo
    ensures Taken(s') <= End(s') && |Left(s)| > 1 && Left(s') == Left(s)[0 := End(s) - Taken(s')]
  {
    hide NextCut, CutPoint, Rest, StreamAt, Taken, Lengths;
    BehindIt(s);
    LengthsStep(Rest(s.file, s.streamNo + 1));
  }

  /** What is left after a call that did not end the last stream. */
  lemma LeftAfter(s: Scan, s': Scan, g: Segment)
    requires Idle(s) && NotLast(s) && StepOk(s, s', g) && Taken(s) <= End(s) && Taken(s') <= End(s)
    ensures Taken(s') <= End(s') && |Left(s)| > 1 && Left(s)[0] == End(s) - Taken(s)
    ensures Left(s') == if g.isLast then Left(s)[1..] else Left(s)[0 := End(s) - Taken(s')]
  {
    hide Idle, IsSlice, NextCut, Rest, CutPoint, Lengths;
    if g.isLast { LeftNext(s, s'); } else { LeftSame(s, s'); }
  }

  lemma PieceLength(f: seq<Byte>, k: nat)
    ensures |StreamAt(f, k)| == NextCut(f, CutPoint(f, k)) - CutPoint(f, k)
  {
  }

  /** From any state between calls the sizes of the segments to come follow from what is
      left of the current stream and from the lengths of the others. */
  lemma {:induction false} DrainIsForetold(s: Scan, g: Gauge)
    requires Idle(s) && SameGauge(s, g)
    ensures Wf(s) && g.room <= SizesOf(s).chunk && Taken(s) <= End(s)
    ensures Foretold(Drain(s), SegmentSizes(SizesOf(s), g, Left(s)))
    decreases |s.file| - Taken(s), s.outSeq
  {
    hide HeaderAt, CutPoint, GetNext, IsSlice, Drain, NextCut, Searched, FoundNext, SegmentSizes, Foretold, Call, Left;
    StepKeeps(s);
    ExhaustedAtEnd(s);
    DrainHead(s);
    if !NotLast(s) {
      LastIsFull(s);
      OneLeft(s, g);
    } else {
      EmptySegment(s);
      CallIs(s, g);
      var (s', o) := GetNext(s);
      var c := Call(SizesOf(s), g, End(s) - Taken(s));
      DrainIsForetold(s', c.gauge);
      LeftAfter(s, s', o.segment);
      SizesUnroll(SizesOf(s), g, Left(s));
      ForetoldCons(o.segment, Drain(s'), SegmentSizes(SizesOf(s), c.gauge, Left(s')));
    }
  }

  lemma IdleBounds(s: Scan)
    requires Idle(s)
    ensures Wf(s) && 0 <= Taken(s) <= |s.file|
  {
  }

  lemma NothingBehind(s: Scan)
    requires !NotLast(s)
    ensures Rest(s.file, s.streamNo + 1) == []
  {
    hide NextCut, StreamsFrom;
    assert CutPoint(s.file, s.streamNo + 1) == End(s);
    RestStep(s.file, s.streamNo + 1);
  }

  lemma OneLeft(s: Scan, g: Gauge)
    requires Idle(s) && SameGauge(s, g) && !NotLast(s)
    ensures Wf(s) && g.room <= SizesOf(s).chunk && Taken(s) <= End(s)
    ensures SegmentSizes(SizesOf(s), g, Left(s)) == []
  {
    hide Idle, Wf, Taken, End, Rest, Lengths;
    IdleBounds(s);
    EndsInside(s);
    NothingBehind(s);
  }

  lemma EndsInside(s: Scan)
    ensures End(s) <= |s.file| && (!NotLast(s) ==> End(s) == |s.file|)
  {
    hide NextCut, CutPoint;
  }

  lemma SizesUnroll(b: Sizes, g: Gauge, lengths: seq<nat>)
    requires Fits(b) && g.room <= b.chunk && |lengths| > 1
    ensures var c := Call(b, g, lengths[0]);
            SegmentSizes(b, g, lengths) == [c.size] + SegmentSizes(b, c.gauge, if c.isLast then lengths[1..] else lengths[0 := c.left])
  {
    hide Call;
  }

  function SizesFor(capacity: nat, limit: nat): (b: Sizes)
    ensures 1 <= limit ==> Fits(b)
  {
    Sizes(Max(capacity, 2 * HEADER_SIZE) - TAIL, limit)
  }

  /** The window is full and the output buffer has never grown. */
  function Fresh(b: Sizes): Gauge {
    Gauge(b.chunk, 0)
  }

  lemma LeftAtStart(s: Scan)
    requires s.file != [] && Taken(s) == 0 && s.streamNo == 0
    ensures Taken(s) <= End(s) && Left(s) == Lengths(Streams(s.file))
  {
    RestStep(s.file, 0);
    assert Rest(s.file, 0) == Streams(s.file);
    PieceLength(s.file, 0);
    hide Rest, Streams, StreamAt, NextCut;
  }

  lemma FirstGauge(file: seq<Byte>, capacity: nat, limit: nat)
    requires 1 <= limit && HeaderAt(file, 0)
    ensures var s := Init(file, capacity, limit);
            && Wf(s) && Idle(FirstSearch(s)) && SameGauge(FirstSearch(s), Fresh(SizesFor(capacity, limit)))
            && SizesOf(FirstSearch(s)) == SizesFor(capacity, limit)
            && Taken(FirstSearch(s)) <= End(FirstSearch(s)) && Left(FirstSearch(s)) == Lengths(Streams(file))
  {
    hide IsSlice, SearchNext, Left, End, Lengths, Streams, Idle;
    var s := Init(file, capacity, limit);
    HeaderComplete(file, 0);
    FirstLoop(file, capacity, limit);
    FirstSearchVerdict(file, capacity, limit);
    assert s.(status := false) == s;
    LeftAtStart(FirstSearch(s));
    hide HeaderAt;
  }

  /** Where every segment of every stream but the last ends, and which of them are empty,
      follows from the lengths of the streams and the sizes of the buffers. */
  lemma SegmentsAreForetold(file: seq<Byte>, capacity: nat, limit: nat)
    requires 1 <= limit && HeaderAt(file, 0)
    ensures var b := SizesFor(capacity, limit);
            Foretold(AllSegments(file, capacity, limit), SegmentSizes(b, Fresh(b), Lengths(Streams(file))))
  {
    hide HeaderAt, IsSlice, FirstSearch, Drain, SegmentSizes, Foretold, Left, Streams, Idle, SizesFor, SizesOf, SameGauge;
    FirstGauge(file, capacity, limit);
    DrainIsForetold(FirstSearch(Init(file, capacity, limit)), Fresh(SizesFor(capacity, limit)));
  }

  lemma FirstEmptyIsZero(all: seq<Segment>, sizes: seq<nat>)
    requires Foretold(all, sizes)
    ensures FirstEmpty(all) == |all| <==> 0 !in sizes
  {
    if i :| 0 <= i < |sizes| && sizes[i] == 0 {
      assert all[i].bytes == [];
    }
  }

  /** So whether the file meets no empty segment can be told from the stream lengths. */
  lemma NeverEmptyExactly(file: seq<Byte>, capacity: nat, limit: nat)
    requires 1 <= limit && HeaderAt(file, 0)
    ensures var all := AllSegments(file, capacity, limit);
            var b := SizesFor(capacity, limit);
            FirstEmpty(all) == |all| <==> NeverEmpty(b, Fresh(b), Lengths(Streams(file)))
  {
    hide AllSegments, HeaderAt, Streams, SegmentSizes, NeverEmpty, Foretold, FirstEmpty;
    var b := SizesFor(capacity, limit);
    SegmentsAreForetold(file, capacity, limit);
    FirstEmptyIsZero(AllSegments(file, capacity, limit), SegmentSizes(b, Fresh(b), Lengths(Streams(file))));
    NeverEmptyIsNoZero(b, Fresh(b), Lengths(Streams(file)));
  }

  /** The limit and a chunk: streams shorter than this are never cut empty. */
  function Bound(capacity: nat, limit: nat): nat {
    limit + Max(capacity, 2 * HEADER_SIZE) - TAIL
  }

  predicate ShortStreams(file: seq<Byte>, bound: nat) {
    forall k | 0 <= k < |Streams(file)| - 1 :: |Streams(file)[k]| < bound
  }

  /** Where every stream but the last is shorter than the limit and a chunk, no segment is empty. */
  lemma ShortStreamsAreWhole(file: seq<Byte>, capacity: nat, limit: nat)
    requires 1 <= limit && HeaderAt(file, 0) && ShortStreams(file, Bound(capacity, limit))
    ensures var all := AllSegments(file, capacity, limit); FirstEmpty(all) == |all|
  {
    StreamsPartition(file, 0);
    hide AllSegments, HeaderAt, StreamsFrom, NeverEmpty, FirstEmpty;
    var b := SizesFor(capacity, limit);
    ShortIsNeverEmpty(b, Fresh(b), Lengths(Streams(file)));
    NeverEmptyExactly(file, capacity, limit);
  }

  /** And for no buffers can that bound be raised. */
  lemma BoundIsSharp(capacity: nat, limit: nat) returns (file: seq<Byte>)
    requires 1 <= limit
    ensures HeaderAt(file, 0) && ShortStreams(file, Bound(capacity, limit) + 1)
    ensures var all := AllSegments(file, capacity, limit); FirstEmpty(all) < |all|
  {
    hide AllSegments, HeaderAt, Streams, NeverEmpty, FirstEmpty;
    var b := SizesFor(capacity, limit);
    var lengths := SharpLengths(b);
    file := FileOfLengths(lengths);
    assert Lengths(Streams(file)) == lengths;
    NeverEmptyExactly(file, capacity, limit);
  }

  /** Size 0 is not the end of the file: for all buffers that pass the limit at the tenth read
      or later, and every file whose first stream ends a chunk behind that, the first call hands
      this stream out whole and open, and the second an empty segment, with more to come. */
  lemma EmptySegmentOccurs(file: seq<Byte>, capacity: nat, limit: nat, n: nat)
    requires 1 <= limit && HeaderAt(file, 0) && 10 <= n
    requires var chunk := SizesFor(capacity, limit).chunk;
             && n * chunk - chunk < limit < n * chunk
             && |Streams(file)| > 1 && |Streams(file)[0]| == n * chunk + chunk
    ensures var all := AllSegments(file, capacity, limit);
            && |all| >= 2 && FirstEmpty(all) == 1
            && all[0] == Segment(Streams(file)[0], 0, 1, false)
            && all[1].bytes == [] && all[1].blockNumber == 0 && all[1].sequenceNumber == 2
  {
    hide AllSegments, HeaderAt, StreamsFrom, SegmentSizes;
    var all := AllSegments(file, capacity, limit);
    var b := SizesFor(capacity, limit);
    SegmentsAreForetold(file, capacity, limit);
    FirstStreamIsCut(b, n, Lengths(Streams(file)));
    FirstEmptyIs(all, 1);
    EmptyExactly(file, capacity, limit, 1);
    assert all[..1] == [all[0]];
    SplitIsCutAtHeaders(file, capacity, limit);
    assert FollowsAt(all, 1);
    FirstOfFile(all);
    FirstStream(file);
  }

  lemma {:induction false} FirstOfFile(h: seq<Segment>)
    requires h != []
    ensures |h[0].bytes| <= |Returned(h)| && Returned(h)[..|h[0].bytes|] == h[0].bytes
  {
    if |h| > 1 {
      FirstOfFile(h[..|h| - 1]);
    }
  }

  lemma FirstStream(file: seq<Byte>)
    requires |Streams(file)| > 0
    ensures |Streams(file)[0]| <= |file| && Streams(file)[0] == file[..|Streams(file)[0]|]
  {
  }

  /** With the shipped buffers of one megabyte each the bound is 2,097,143 bytes. */
  lemma ShippedBuffers() returns (file: seq<Byte>)
    ensures Bound(0x100000, 0x100000) == 2_097_143
    ensures HeaderAt(file, 0) && ShortStreams(file, 2_097_144)
    ensures var all := AllSegments(file, 0x100000, 0x100000); FirstEmpty(all) < |all|
  {
    hide AllSegments, HeaderAt, Streams, FirstEmpty, ShortStreams;
    file := BoundIsSharp(0x100000, 0x100000);
  }
}
