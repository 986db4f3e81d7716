/** The state of the pbzip2 stream scanner as a value, and what each of its
    operations does to it.  The class in StreamScanner.dfy is proved against these. */
module ScanSpec {
  import opened ByteSeq
  import opened Bz2Format
  import opened Segments

  const TAIL: nat := HEADER_SIZE - 1

  datatype Scan = Scan(
    file: seq<Byte>, filePos: nat, eof: bool,
    capacity: nat, window: seq<Byte>, current: nat, search: nat,
    out: seq<Byte>, outCapacity: nat, outHint: nat, limit: nat,
    headerFound: bool, status: bool, failed: bool,
    outSeq: nat, streamNo: nat)

  function Min(a: int, b: int): int { if a <= b then a else b }

  function Max(a: int, b: int): int { if a <= b then b else a }

  /** The buffers fit, and the input buffer is a window on the file. */
  predicate Wf(s: Scan) {
    && 2 * HEADER_SIZE <= s.capacity && 1 <= s.limit
    && |s.window| <= s.capacity && |s.window| <= s.filePos <= |s.file|
    && IsSlice(s.window, s.file, s.filePos - |s.window|)
    && s.current <= |s.window| && s.search <= |s.window|
    && |s.out| <= s.outCapacity
  }

  // ------------------------------------------------------- pieces of the file

  /** w is what the file holds from position lo on. */
  predicate IsSlice(w: seq<Byte>, f: seq<Byte>, lo: int) {
    0 <= lo && lo + |w| <= |f| && w == f[lo..lo + |w|]
  }

  lemma SlicePart(w: seq<Byte>, f: seq<Byte>, lo: int, a: nat, b: nat)
    requires IsSlice(w, f, lo) && a <= b <= |w|
    ensures IsSlice(w[a..b], f, lo + a)
  {
    var part, same := w[a..b], f[lo + a..lo + b];
    assert forall k | 0 <= k < b - a :: part[k] == same[k];
  }

  lemma SliceJoin(w: seq<Byte>, v: seq<Byte>, f: seq<Byte>, lo: int)
    requires IsSlice(w, f, lo) && IsSlice(v, f, lo + |w|)
    ensures IsSlice(w + v, f, lo)
  {
    assert f[lo..lo + |w|] + f[lo + |w|..lo + |w| + |v|] == f[lo..lo + |w| + |v|];
  }

  lemma SliceHeader(w: seq<Byte>, f: seq<Byte>, lo: int, i: int)
    requires IsSlice(w, f, lo) && 0 <= i
    ensures HeaderAt(w, i) <==> HeaderAt(f, lo + i) && i + HEADER_SIZE <= |w|
  {
    HeaderInWindow(f, lo, lo + |w|, i);
  }

  /** Position in the file of index i of the input buffer. */
  function Pos(s: Scan, i: int): int {
    s.filePos - |s.window| + i
  }

  /** How much of the file has been copied out or handed out. */
  function Taken(s: Scan): int {
    Pos(s, s.current)
  }

  // ------------------------------------------------------------- operations

  function Init(file: seq<Byte>, inBuffCapacity: nat, limit: nat): Scan {
    Scan(file, 0, false, Max(inBuffCapacity, 2 * HEADER_SIZE), [], 0, 0, [], 0, 0, limit, false, false, false, 0, 0)
  }

  /** ensureOutBuffCapacity: grow by a tenth, but do not step over the limit. */
  function Hint(limit: nat, hint: nat, newSize: nat): nat {
    if newSize <= hint then hint
    else
      var grown := (11 * newSize) / 10;
      if newSize <= limit && grown > limit then limit else grown
  }

  function GrownHint(s: Scan, newSize: nat): nat {
    Hint(s.limit, s.outHint, newSize)
  }

  function EnsureCapacity(s: Scan, newSize: nat): Scan {
    if newSize <= s.outCapacity then s
    else s.(outHint := GrownHint(s, newSize), outCapacity := GrownHint(s, newSize))
  }

  /** appendOutBuffData: before the first header bytes are skipped, afterwards copied. */
  function Append(s: Scan, end: int): Scan
    requires s.current <= |s.window| && end <= |s.window|
  {
    if end <= s.current then s
    else if !s.headerFound then s.(current := end)
    else EnsureCapacity(s, |s.out| + end - s.current).(out := s.out + s.window[s.current..end], current := end)
  }

  /** Where copying must stop: the last nine bytes may start the next header. */
  function CopyStop(s: Scan): int {
    if s.eof then |s.window| else Min(s.search, |s.window| - TAIL)
  }

  function AppendUpToLimit(s: Scan): Scan
    requires s.current <= |s.window| && s.search <= |s.window|
  {
    var maxAddition := Max(s.limit, s.outCapacity) - |s.out|;
    if maxAddition <= 0 then s
    else Append(s, Min(CopyStop(s), s.current + maxAddition))
  }

  /** rewindInBuff: copy out all but the last nine bytes and keep what was not copied. */
  function Rewind(s: Scan): Scan
    requires s.current <= |s.window|
  {
    var mark := |s.window| - TAIL;
    var a := Append(s, mark);
    var from := if mark <= s.current then s.current else mark;
    a.(window := s.window[from..], current := 0, search := 0)
  }

  function BytesToRead(s: Scan): nat {
    if s.capacity < |s.window| || |s.file| < s.filePos then 0
    else Min(s.capacity - |s.window|, |s.file| - s.filePos)
  }

  /** readData: a read of nothing means the end of the file. */
  function Read(s: Scan): Scan
    requires Wf(s)
  {
    var r := Rewind(s);
    var n := BytesToRead(r);
    r.(window := r.window + s.file[s.filePos..s.filePos + n], filePos := s.filePos + n, eof := s.eof || n == 0)
  }

  /** searchNextHeaderInBuff: the first search accepts a header only at the very beginning. */
  function SearchInBuff(s: Scan): Scan
    requires s.search <= |s.window|
  {
    if s.headerFound then
      var p := NextHeader(s.window, s.search);
      s.(search := p, status := p < |s.window|)
    else if s.search == 0 && HeaderAt(s.window, 0) then s.(status := true)
    else s.(search := |s.window|, status := false, failed := true)
  }

  lemma AppendFrame(s: Scan, end: int)
    requires Wf(s) && end <= |s.window|
    ensures var a := Append(s, end);
            && Wf(a) && a.current == Max(s.current, end)
            && a == s.(current := a.current, out := a.out, outCapacity := a.outCapacity, outHint := a.outHint)
  {
    hide IsSlice;
  }

  /** Rewinding keeps the last nine unconsumed bytes, so a read never meets a full buffer. */
  lemma RewindFrame(s: Scan)
    requires Wf(s)
    ensures var r := Rewind(s);
            && Wf(r) && |r.window| == Min(TAIL, |s.window| - s.current) && r.current == r.search == 0
            && r == s.(window := r.window, current := 0, search := 0, out := r.out, outCapacity := r.outCapacity, outHint := r.outHint)
  {
    hide IsSlice;
    var mark := |s.window| - TAIL;
    var from := if mark <= s.current then s.current else mark;
    AppendFrame(s, mark);
    assert s.window[from..] == s.window[from..|s.window|];
    SlicePart(s.window, s.file, s.filePos - |s.window|, from, |s.window|);
  }

  lemma ReadFrame(s: Scan)
    requires Wf(s)
    ensures var r := Read(s);
            var n := Min(s.capacity - Min(TAIL, |s.window| - s.current), |s.file| - s.filePos);
            && Wf(r) && r.filePos == s.filePos + n && |r.window| == Min(TAIL, |s.window| - s.current) + n
            && r.current == r.search == 0 && r.eof == (s.eof || n == 0)
            && r.out == Rewind(s).out
            && r == s.(window := r.window, current := 0, search := 0, out := r.out, outCapacity := r.outCapacity, outHint := r.outHint,
                       filePos := r.filePos, eof := r.eof)
  {
    hide IsSlice, Rewind;
    RewindFrame(s);
    var r := Rewind(s);
    var n := BytesToRead(r);
    SliceOf(s.file, s.filePos, n);
    SliceJoin(r.window, s.file[s.filePos..s.filePos + n], s.file, s.filePos - |r.window|);
  }

  lemma SliceOf(f: seq<Byte>, lo: nat, n: nat)
    requires lo + n <= |f|
    ensures IsSlice(f[lo..lo + n], f, lo)
  {
  }

  lemma SearchInBuffFrame(s: Scan)
    requires Wf(s)
    ensures var t := SearchInBuff(s);
            && Wf(t) && t == s.(search := t.search, status := t.status, failed := t.failed)
            && (!t.status ==> t.search == |t.window|)
  {
    hide IsSlice, HeaderAt;
  }

  function SearchLoop(s: Scan): Scan
    requires Wf(s)
    decreases |s.file| - s.filePos, if s.eof then 0 else 1
  {
    if !s.status && !s.eof && !s.failed && |s.out| < s.limit then
      ReadFrame(s);
      SearchInBuffFrame(Read(s));
      SearchLoop(SearchInBuff(Read(s)))
    else s
  }

  /** searchNextHeader */
  function SearchNext(s: Scan): Scan
    requires Wf(s)
  {
    SearchInBuffFrame(s);
    var t := SearchLoop(if s.search < |s.window| then SearchInBuff(s) else s);
    t.(headerFound := t.headerFound || t.status, search := if t.failed then |t.window| else t.search)
  }

  lemma {:induction false} SearchLoopFrame(s: Scan)
    requires Wf(s)
    ensures var t := SearchLoop(s);
            && Wf(t) && t.file == s.file && t.limit == s.limit && t.capacity == s.capacity
            && t.headerFound == s.headerFound && t.outSeq == s.outSeq && t.streamNo == s.streamNo
    decreases |s.file| - s.filePos, if s.eof then 0 else 1
  {
    if !s.status && !s.eof && !s.failed && |s.out| < s.limit {
      hide Read, SearchInBuff, IsSlice;
      ReadFrame(s);
      SearchInBuffFrame(Read(s));
      SearchLoopFrame(SearchInBuff(Read(s)));
    }
  }

  lemma SearchNextFrame(s: Scan)
    requires Wf(s)
    ensures var t := SearchNext(s);
            && Wf(t) && t.file == s.file && t.limit == s.limit && t.capacity == s.capacity
            && t.outSeq == s.outSeq && t.streamNo == s.streamNo
  {
    hide IsSlice, SearchInBuff, SearchLoop;
    SearchInBuffFrame(s);
    SearchLoopFrame(if s.search < |s.window| then SearchInBuff(s) else s);
  }

  // ---------------------------------------------------------- getNextStream

  datatype Outcome = Failed | EndOfFile | Handed(segment: Segment)

  /** initOutBuff */
  function EmptyOut(s: Scan): (t: Scan)
    ensures Wf(s) ==> Wf(t)
  {
    s.(out := [], outCapacity := 0)
  }

  function FirstSearch(s: Scan): (t: Scan)
    requires Wf(s)
    ensures Wf(t)
  {
    if s.headerFound then s
    else
      SearchNextFrame(s.(status := false));
      SearchNext(s.(status := false))
  }

  predicate Exhausted(s: Scan) {
    s.current == |s.window| && s.eof
  }

  /** Look for the next header unless it is already known (or there is none). */
  function NextSearch(s: Scan): (t: Scan)
    requires Wf(s)
    ensures Wf(t)
  {
    if s.current == s.search || (!s.status && !s.eof) then
      SearchNextFrame(PastHeader(s));
      SearchNext(PastHeader(s))
    else s
  }

  /** Slide over the current header in order to search for the next one. */
  function PastHeader(s: Scan): (t: Scan)
    ensures Wf(s) ==> Wf(t)
  {
    s.(search := Min(s.search + HEADER_SIZE, |s.window|), status := false)
  }

  /** The output struct: 0 numbers a whole stream, 1, 2, ... the parts of a long one. */
  function FillIn(u: Scan): Segment {
    var last := u.current == u.search;
    Segment(u.out, u.streamNo, if u.outSeq > 0 then u.outSeq + 1 else if last then 0 else 1, last)
  }

  function AfterSegment(u: Scan): Scan {
    var g := FillIn(u);
    u.(out := [], outCapacity := 0,
       outSeq := if g.isLast then 0 else g.sequenceNumber,
       streamNo := if g.isLast then u.streamNo + 1 else u.streamNo)
  }

  function GetNext(s: Scan): (r: (Scan, Outcome))
    requires Wf(s)
  {
    var s1 := FirstSearch(EmptyOut(s));
    if s1.failed then (s1, Failed)
    else if Exhausted(s1) then (s1, EndOfFile)
    else
      var s2 := NextSearch(s1);
      if s2.failed then (s2, Failed)
      else
        var u := AppendUpToLimit(s2);
        (AfterSegment(u), Handed(FillIn(u)))
  }

  lemma GetNextCases(s: Scan)
    requires Wf(s)
    ensures var s1 := FirstSearch(EmptyOut(s));
            && (s1.failed ==> GetNext(s) == (s1, Failed))
            && (!s1.failed && Exhausted(s1) ==> GetNext(s) == (s1, EndOfFile))
            && (!s1.failed && !Exhausted(s1) ==>
                  var s2 := NextSearch(s1);
                  GetNext(s) == if s2.failed then (s2, Failed)
                                else (AfterSegment(AppendUpToLimit(s2)), Handed(FillIn(AppendUpToLimit(s2)))))
  {
    hide FirstSearch, NextSearch, AppendUpToLimit, AfterSegment, FillIn, Exhausted, IsSlice;
  }
}
