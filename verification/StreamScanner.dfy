/** The single-pass splitter of pbzip2 (BZ2StreamScanner): a sliding input
    buffer, an output buffer that grows up to a limit, and a search that neither
    misses a header at a buffer boundary nor finds a stream's own header again.
    Every method is proved to do what its counterpart in ScanSpec does. */
module StreamScanner {
  import opened ByteSeq
  import opened Bz2Format
  import opened Segments
  import opened ScanSpec
  import opened ScanProofs
  import opened ScanBoundary
  import F = ScanForecast
  import N = ScanSizes

  /** The struct a call hands back; a null `buf` is an empty array here. */
  datatype OutBuff = OutBuff(buf: array<Byte>, bufSize: nat, blockNumber: nat, sequenceNumber: nat,
                             inSize: nat, isLastInSequence: bool)

  const MAX_UINT: nat := 0xFFFF_FFFF

  // ------------------------------------------------ the search within a buffer

  /** Stepping over a rejected "BZh" steps over no header. */
  lemma SkipPrefix(w: seq<Byte>, from: int, p: int)
    requires NoHeaderIn(w, from, p) && PrefixAt(w, p) && !HeaderAt(w, p)
    ensures NoHeaderIn(w, from, p + PREFIX_LEN)
  {
  }

  lemma JoinSearched(w: seq<Byte>, a: int, b: int, c: int)
    requires NoHeaderIn(w, a, b) && NoHeaderIn(w, b, c)
    ensures NoHeaderIn(w, a, c)
  {
  }

  /** With "BZh" at p, is a whole header there?  The fifth byte picks the candidate. */
  predicate MatchHeader(buf: seq<Byte>, p: nat): (found: bool)
    requires PrefixAt(buf, p) && p + HEADER_SIZE <= |buf|
    ensures found <==> HeaderAt(buf, p)
  {
    if buf[p + 4] == 0x31 then 0x31 <= buf[p + 3] <= 0x39 && BlockMagicAt(buf, p + 4)
    else if buf[p + 4] == 0x17 then 0x31 <= buf[p + 3] <= 0x39 && EndMagicAt(buf, p + 4)
    else false
  }

  /** std::search of the three prefix bytes in [from, end). */
  method FindPrefix(buf: seq<Byte>, from: nat) returns (p: nat)
    requires from <= |buf|
    ensures from <= p <= |buf| && NoHeaderIn(buf, from, p)
    ensures p < |buf| ==> PrefixAt(buf, p)
  {
    p := from;
    while p + PREFIX_LEN <= |buf|
      invariant from <= p <= |buf| && NoHeaderIn(buf, from, p)
    {
      if PrefixAt(buf, p) {
        return;
      }
      p := p + 1;
    }
    p := |buf|;
  }

  /** The first search accepts only the beginning of the file; later ones look for
      the next "BZh" from the search pointer on. */
  method LocateHeaderPrefix(buf: seq<Byte>, from: nat, first: bool) returns (p: nat, failed: bool)
    requires from <= |buf|
    ensures from <= p <= |buf|
    ensures !first ==> !failed && NoHeaderIn(buf, from, p) && (p < |buf| ==> PrefixAt(buf, p))
    ensures first ==> failed == (from != 0 || |buf| < HEADER_SIZE || !PrefixAt(buf, 0))
    ensures first ==> p == if failed then |buf| else 0
  {
    failed := false;
    if first {
      p := from;
      if from != 0 || |buf| < HEADER_SIZE {
        p, failed := |buf|, true;
      } else if !PrefixAt(buf, 0) {
        p, failed := |buf|, true;
      }
    } else {
      p := FindPrefix(buf, from);
    }
  }

  /** The next whole header in the buffer, or its end; on the first search anything
      but a header at the very beginning is a format error. */
  method SearchHeader(buf: seq<Byte>, from: nat, first: bool) returns (p: nat, found: bool, failed: bool)
    requires from <= |buf|
    ensures !first ==> !failed && p == NextHeader(buf, from) && found == (p < |buf|)
    ensures first ==> failed == !(from == 0 && HeaderAt(buf, 0)) && found == !failed && p == if found then 0 else |buf|
  {
    p, failed := LocateHeaderPrefix(buf, from, first);
    while !failed && |buf| - p >= HEADER_SIZE
      invariant from <= p <= |buf|
      invariant !first ==> !failed && NoHeaderIn(buf, from, p) && (p < |buf| ==> PrefixAt(buf, p))
      invariant first && !failed ==> from == p == 0 && PrefixAt(buf, 0) && HEADER_SIZE <= |buf|
      invariant first && failed ==> !(from == 0 && HeaderAt(buf, 0))
      decreases |buf| - p
    {
      if MatchHeader(buf, p) {
        if !first {
          NextHeaderUnique(buf, from, p);
        }
        return p, true, false;
      }
      if first {
        failed := true;
        break;
      } else {
        SkipPrefix(buf, from, p);
        var skipped := p + PREFIX_LEN;
        p, failed := LocateHeaderPrefix(buf, skipped, first);
        JoinSearched(buf, from, skipped, p);
      }
    }
    if !first {
      JoinSearched(buf, from, p, |buf|);
      NextHeaderUnique(buf, from, |buf|);
    }
    p, found := |buf|, false;
  }

  /** The struct says what the call's outcome is. */
  ghost predicate Carries(r: OutBuff, o: Outcome)
    reads r.buf
  {
    match o
    case Failed => r.bufSize == MAX_UINT
    case EndOfFile => r.bufSize == 0
    case Handed(g) =>
      && r.bufSize <= r.buf.Length
      && g == Segment(r.buf[..r.bufSize], r.blockNumber, r.sequenceNumber, r.isLastInSequence)
  }

  // --------------------------------------------------------------- the class

  class BZ2StreamScanner {
    // the input file and the read position
    const file: seq<Byte>
    var filePos: nat
    var eof: bool

    var bz2HeaderFound: bool
    var searchStatus: bool

    const inBuff: array<Byte>
    var inBuffEnd: nat
    var inBuffCurrent: nat
    var inBuffSearchPtr: nat

    var outBuf: array<Byte>
    var outBufSize: nat
    var outBuffCapacity: nat
    var outBuffCapacityHint: nat
    const outBuffCapacityLimit: nat

    var errState: bool  // ERR_INVALID_FILE_FORMAT; no other error bit is ever set
    var outSequenceNumber: nat
    var streamNumber: nat

    ghost var segments: seq<Segment>  // what has been handed out

    ghost predicate Ok()
      reads this
    {
      && inBuffEnd <= inBuff.Length && outBuf != inBuff
      && outBufSize <= outBuffCapacity == outBuf.Length
    }

    ghost function View(): Scan
      requires Ok()
      reads this, inBuff, outBuf
    {
      Scan(file, filePos, eof, inBuff.Length, inBuff[..inBuffEnd], inBuffCurrent, inBuffSearchPtr,
           outBuf[..outBufSize], outBuffCapacity, outBuffCapacityHint, outBuffCapacityLimit,
           bz2HeaderFound, searchStatus, errState, outSequenceNumber, streamNumber)
    }

    /** Between calls, as long as no error was met. */
    ghost predicate Valid()
      reads this, inBuff, outBuf
    {
      Ok() && ValidScan(View(), segments)
    }

    /** init(): a too small input capacity is raised to two header sizes. */
    constructor (input: seq<Byte>, inBuffCapacity: nat, limit: nat)
      requires 1 <= limit
      ensures Valid() && file == input && View() == Init(input, inBuffCapacity, limit)
      ensures segments == [] && fresh(inBuff) && fresh(outBuf)
    {
      file := input;
      filePos, eof := 0, false;
      bz2HeaderFound, searchStatus := false, false;
      inBuff := new Byte[Max(inBuffCapacity, 2 * HEADER_SIZE)];
      inBuffEnd, inBuffCurrent, inBuffSearchPtr := 0, 0, 0;
      outBuf, outBufSize, outBuffCapacity, outBuffCapacityHint := new Byte[0], 0, 0, 0;
      outBuffCapacityLimit := limit;
      errState := false;
      outSequenceNumber, streamNumber := 0, 0;
      segments := [];
    }

    method InitOutBuff()
      requires Ok()
      modifies `outBuf, `outBufSize, `outBuffCapacity
      ensures Ok() && View() == EmptyOut(old(View())) && fresh(outBuf)
    {
      outBuf, outBufSize, outBuffCapacity := new Byte[0], 0, 0;
    }

    /** A new output buffer of the hinted size, with the old bytes in front. */
    method Regrow()
      requires Ok() && outBufSize <= outBuffCapacityHint
      modifies `outBuf, `outBuffCapacity
      ensures Ok() && fresh(outBuf) && outBuffCapacity == outBuffCapacityHint
      ensures outBuf[..outBufSize] == old(outBuf[..outBufSize])
    {
      var newBuff := new Byte[outBuffCapacityHint];
      forall k | 0 <= k < outBufSize { newBuff[k] := outBuf[k]; }
      outBuf, outBuffCapacity := newBuff, outBuffCapacityHint;
    }

    method EnsureOutBuffCapacity(newSize: nat)
      requires Ok() && outBufSize <= newSize
      modifies `outBuf, `outBuffCapacity, `outBuffCapacityHint
      ensures Ok() && View() == EnsureCapacity(old(View()), newSize) && newSize <= outBuffCapacity
      ensures fresh(outBuf) || outBuf == old(outBuf)
    {
      if newSize > outBuffCapacity {
        if newSize > outBuffCapacityHint {
          outBuffCapacityHint := (11 * newSize) / 10;
          if newSize <= outBuffCapacityLimit && outBuffCapacityHint > outBuffCapacityLimit {
            outBuffCapacityHint := outBuffCapacityLimit;
          }
        }
        Regrow();
      }
    }

    /** The memcpy to the end of the output buffer. */
    method CopyToOut(count: nat)
      requires Ok() && outBufSize + count <= outBuffCapacity && inBuffCurrent + count <= inBuff.Length
      modifies `outBufSize, outBuf
      ensures Ok() && outBufSize == old(outBufSize) + count
      ensures outBuf[..outBufSize] == old(outBuf[..outBufSize]) + inBuff[inBuffCurrent..inBuffCurrent + count]
    {
      forall k | 0 <= k < count { outBuf[outBufSize + k] := inBuff[inBuffCurrent + k]; }
      outBufSize := outBufSize + count;
    }

    /** The overlapping std::copy of [from, end) to the beginning of the input buffer. */
    method CopyTailToFront(from: nat)
      requires Ok() && from <= inBuffEnd
      modifies inBuff
      ensures inBuff[..inBuffEnd - from] == old(inBuff[..inBuffEnd][from..])
    {
      forall k | 0 <= k < inBuffEnd - from { inBuff[k] := inBuff[from + k]; }
    }

    /** The copying part of appendOutBuffData: room first, then the bytes. */
    method CopyUpTo(end: nat)
      requires Ok() && inBuffCurrent < end <= inBuffEnd
      modifies `outBuf, `outBufSize, `outBuffCapacity, `outBuffCapacityHint, outBuf
      ensures Ok()
      ensures var s := old(View());
              View() == EnsureCapacity(s, |s.out| + end - s.current).(out := s.out + s.window[s.current..end])
      ensures fresh(outBuf) || outBuf == old(outBuf)
    {
      assert inBuff[..inBuffEnd][inBuffCurrent..end] == inBuff[inBuffCurrent..end];
      EnsureOutBuffCapacity(outBufSize + (end - inBuffCurrent));
      CopyToOut(end - inBuffCurrent);
    }

    /** Copy (or, before the first header, skip) the bytes in [current, end). */
    method AppendOutBuffData(end: int) returns (added: nat)
      requires Ok() && inBuffCurrent <= inBuffEnd && end <= inBuffEnd
      modifies `outBuf, `outBufSize, `outBuffCapacity, `outBuffCapacityHint, `inBuffCurrent, outBuf
      ensures Ok() && View() == Append(old(View()), end)
      ensures added == Max(0, end - old(inBuffCurrent))
      ensures fresh(outBuf) || outBuf == old(outBuf)
    {
      hide EnsureCapacity;
      added := Max(0, end - inBuffCurrent);
      if added > 0 {
        if bz2HeaderFound {
          CopyUpTo(end);
        }
        inBuffCurrent := end;
      }
    }

    /** Fill the output buffer from the bytes known to belong to the current stream. */
    method AppendOutBuffDataUpToLimit()
      requires Ok() && inBuffCurrent <= inBuffEnd && inBuffSearchPtr <= inBuffEnd
      modifies `outBuf, `outBufSize, `outBuffCapacity, `outBuffCapacityHint, `inBuffCurrent, outBuf
      ensures Ok() && View() == AppendUpToLimit(old(View()))
      ensures fresh(outBuf) || outBuf == old(outBuf)
    {
      hide Append;
      var maxCapacity := Max(outBuffCapacityLimit, outBuffCapacity);
      var maxAddition := maxCapacity - outBufSize;
      if maxAddition <= 0 {
        return;
      }
      var end1 := if eof then inBuffEnd else Min(inBuffSearchPtr, inBuffEnd - (HEADER_SIZE - 1));
      var end2 := inBuffCurrent + maxAddition;
      var _ := AppendOutBuffData(Min(end1, end2));
    }

    /** Keep the last nine unconsumed bytes, where the next header may have begun. */
    method RewindInBuff()
      requires Ok() && inBuffCurrent <= inBuffEnd
      modifies `outBuf, `outBufSize, `outBuffCapacity, `outBuffCapacityHint, outBuf
      modifies `inBuffEnd, `inBuffCurrent, `inBuffSearchPtr, inBuff
      ensures Ok() && View() == Rewind(old(View()))
      ensures fresh(outBuf) || outBuf == old(outBuf)
    {
      var mark := inBuffEnd - (HEADER_SIZE - 1);
      var ret := AppendOutBuffData(mark);
      var from := if ret == 0 then inBuffCurrent else mark;
      CopyTailToFront(from);
      inBuffEnd := inBuffEnd - from;
      inBuffCurrent, inBuffSearchPtr := 0, 0;
    }

    /** do_read: as many bytes as asked for, fewer only at the end of the file. */
    method DoRead(count: nat) returns (bytesRead: nat)
      requires inBuffEnd + count <= inBuff.Length && filePos <= |file|
      modifies `filePos, inBuff
      ensures bytesRead == Min(count, |file| - old(filePos)) && filePos == old(filePos) + bytesRead
      ensures inBuff[..inBuffEnd + bytesRead] == old(inBuff[..inBuffEnd]) + file[old(filePos)..filePos]
    {
      bytesRead := Min(count, |file| - filePos);
      forall k | 0 <= k < bytesRead { inBuff[inBuffEnd + k] := file[filePos + k]; }
      filePos := filePos + bytesRead;
    }

    /** The read itself; reading nothing means the end of the file. */
    method FillInBuff()
      requires Ok() && inBuffEnd < inBuff.Length && filePos <= |file| && !eof
      modifies `inBuffEnd, inBuff, `filePos, `eof
      ensures Ok()
      ensures var s := old(View());
              var n := BytesToRead(s);
              View() == s.(window := s.window + s.file[s.filePos..s.filePos + n], filePos := s.filePos + n, eof := n == 0)
    {
      var bytesRead := DoRead(inBuff.Length - inBuffEnd);
      if bytesRead > 0 {
        inBuffEnd := inBuffEnd + bytesRead;
      } else {
        eof := true;
      }
    }

    method ReadData()
      requires Ok() && Wf(View()) && !eof
      modifies `outBuf, `outBufSize, `outBuffCapacity, `outBuffCapacityHint, outBuf
      modifies `inBuffEnd, `inBuffCurrent, `inBuffSearchPtr, inBuff, `filePos, `eof
      ensures Ok() && View() == Read(old(View()))
      ensures fresh(outBuf) || outBuf == old(outBuf)
    {
      hide IsSlice;
      hide Rewind;
      RewindFrame(View());
      RewindInBuff();
      if inBuffEnd >= inBuff.Length {
        assert false;  // "not enough buffer free space" cannot happen
      }
      FillInBuff();
    }

    /** Search the bytes already read, without reading more. */
    method SearchNextHeaderInBuff()
      requires Ok() && inBuffSearchPtr <= inBuffEnd && !errState
      modifies `inBuffSearchPtr, `searchStatus, `errState
      ensures Ok() && View() == SearchInBuff(old(View()))
    {
      hide HeaderAt, NextHeader;
      var p, found, failed := SearchHeader(inBuff[..inBuffEnd], inBuffSearchPtr, !bz2HeaderFound);
      inBuffSearchPtr, searchStatus, errState := p, found, failed;
    }

    /** Read and search until a header is found, the file ends, the format is wrong or the
        output buffer is full enough. */
    method ReadAndSearch()
      requires Ok() && Wf(View())
      modifies `outBuf, `outBufSize, `outBuffCapacity, `outBuffCapacityHint, outBuf
      modifies `inBuffEnd, `inBuffCurrent, `inBuffSearchPtr, inBuff, `filePos, `eof
      modifies `searchStatus, `errState
      ensures Ok() && View() == SearchLoop(old(View()))
      ensures fresh(outBuf) || outBuf == old(outBuf)
    {
      hide IsSlice, HeaderAt, SearchInBuff, Read;
      ghost var s := View();
      while !searchStatus && !eof && !errState && outBufSize < outBuffCapacityLimit
        invariant Ok() && Wf(View()) && SearchLoop(View()) == SearchLoop(s)
        invariant fresh(outBuf) || outBuf == old(outBuf)
        decreases |file| - filePos, if eof then 0 else 1
      {
        ReadFrame(View());
        ReadData();
        SearchInBuffFrame(View());
        SearchNextHeaderInBuff();
      }
    }

    /** Search for the next header, first in what was read already. */
    method SearchNextHeader()
      requires Ok() && Wf(View()) && !errState && !searchStatus
      modifies `outBuf, `outBufSize, `outBuffCapacity, `outBuffCapacityHint, outBuf
      modifies `inBuffEnd, `inBuffCurrent, `inBuffSearchPtr, inBuff, `filePos, `eof
      modifies `searchStatus, `errState, `bz2HeaderFound
      ensures Ok() && View() == SearchNext(old(View()))
      ensures fresh(outBuf) || outBuf == old(outBuf)
    {
      hide IsSlice, HeaderAt, SearchInBuff, SearchLoop;
      SearchInBuffFrame(View());
      if inBuffEnd - inBuffSearchPtr > 0 {
        SearchNextHeaderInBuff();
      }
      ReadAndSearch();
      if searchStatus {
        bz2HeaderFound := true;
      }
      if errState {
        inBuffSearchPtr := inBuffEnd;
      }
    }

    /** Look for the first header if none was found yet. */
    method FirstSearchIfNeeded()
      requires Ok() && Wf(View()) && !errState
      modifies `outBuf, `outBufSize, `outBuffCapacity, `outBuffCapacityHint, outBuf
      modifies `inBuffEnd, `inBuffCurrent, `inBuffSearchPtr, inBuff, `filePos, `eof
      modifies `searchStatus, `errState, `bz2HeaderFound
      ensures Ok() && View() == FirstSearch(old(View()))
      ensures fresh(outBuf) || outBuf == old(outBuf)
    {
      if !bz2HeaderFound {
        hide IsSlice, SearchNext;
        searchStatus := false;
        SearchNextHeader();
      }
    }

    /** Look for the next header unless it is already known (or there is none). */
    method NextSearchIfNeeded()
      requires Ok() && Wf(View()) && !errState
      modifies `outBuf, `outBufSize, `outBuffCapacity, `outBuffCapacityHint, outBuf
      modifies `inBuffEnd, `inBuffCurrent, `inBuffSearchPtr, inBuff, `filePos, `eof
      modifies `searchStatus, `errState, `bz2HeaderFound
      ensures Ok() && View() == NextSearch(old(View()))
      ensures fresh(outBuf) || outBuf == old(outBuf)
    {
      if inBuffCurrent == inBuffSearchPtr || (!searchStatus && !eof) {
        hide Wf, SearchNext;
        ghost var past := PastHeader(View());
        inBuffSearchPtr := Min(inBuffSearchPtr + HEADER_SIZE, inBuffEnd);
        searchStatus := false;
        assert View() == past;
        SearchNextHeader();
      }
    }

    /** The numbering part of getNextStream, and the struct copied to the caller. */
    method FillInStruct() returns (r: OutBuff)
      requires Ok()
      modifies `outBuf, `outBufSize, `outBuffCapacity, `outSequenceNumber, `streamNumber
      ensures Ok() && View() == AfterSegment(old(View())) && fresh(outBuf)
      ensures r.buf == old(outBuf) && r.bufSize <= r.buf.Length && r.inSize == r.bufSize
      ensures FillIn(old(View())) == Segment(r.buf[..r.bufSize], r.blockNumber, r.sequenceNumber, r.isLastInSequence)
    {
      if outSequenceNumber > 0 {
        outSequenceNumber := outSequenceNumber + 1;
      } else if inBuffCurrent != inBuffSearchPtr {
        outSequenceNumber := 1;
      }
      var isLast := inBuffCurrent == inBuffSearchPtr;
      r := OutBuff(outBuf, outBufSize, streamNumber, outSequenceNumber, outBufSize, isLast);
      if isLast {
        outSequenceNumber := 0;
        streamNumber := streamNumber + 1;
      }
      InitOutBuff();
    }

    method HandOut() returns (r: OutBuff)
      requires Ok() && inBuffCurrent <= inBuffEnd && inBuffSearchPtr <= inBuffEnd
      modifies `outBuf, `outBufSize, `outBuffCapacity, `outBuffCapacityHint, `inBuffCurrent, outBuf
      modifies `outSequenceNumber, `streamNumber
      ensures Ok() && fresh(outBuf) && View() == AfterSegment(AppendUpToLimit(old(View())))
      ensures (fresh(r.buf) || r.buf == old(outBuf)) && r.buf != outBuf && r.bufSize <= r.buf.Length
      ensures FillIn(AppendUpToLimit(old(View())))
           == Segment(r.buf[..r.bufSize], r.blockNumber, r.sequenceNumber, r.isLastInSequence)
    {
      hide AppendUpToLimit, AfterSegment, FillIn;
      AppendOutBuffDataUpToLimit();
      r := FillInStruct();
    }

    /** The body of getNextStream. */
    method NextSegment() returns (r: OutBuff)
      requires Ok() && Wf(View()) && !errState
      modifies `outBuf, `outBufSize, `outBuffCapacity, `outBuffCapacityHint, outBuf
      modifies `inBuffEnd, `inBuffCurrent, `inBuffSearchPtr, inBuff, `filePos, `eof
      modifies `searchStatus, `errState, `bz2HeaderFound, `outSequenceNumber, `streamNumber
      ensures Ok() && fresh(outBuf) && fresh(r.buf) && r.buf != outBuf
      ensures View() == GetNext(old(View())).0 && Carries(r, GetNext(old(View())).1)
    {
      hide IsSlice, FirstSearch, NextSearch, AppendUpToLimit, AfterSegment, FillIn, GetNext;
      GetNextCases(View());
      var none := new Byte[0];
      r := OutBuff(none, MAX_UINT, 0, 0, 0, true);
      InitOutBuff();
      FirstSearchIfNeeded();
      if !errState {
        if inBuffCurrent == inBuffEnd && eof {
          r := r.(bufSize := 0);
        } else {
          NextSearchIfNeeded();
          if !errState {
            r := HandOut();
          }
        }
      }
    }

    /** getNextStream: the next segment, or an empty buffer at the end of the file, or
        a failure when the file does not begin with a header. */
    method GetNextStream() returns (r: OutBuff, ghost o: Outcome)
      requires Valid()
      modifies this, inBuff, outBuf
      ensures Ok() && fresh(outBuf) && fresh(r.buf) && r.buf != outBuf
      ensures (View(), o) == GetNext(old(View())) && Carries(r, o)
      ensures Answer(file, old(segments), View(), o)
      ensures segments == if o.Handed? then old(segments) + [o.segment] else old(segments)
    {
      hide HeaderAt, IsSlice, GetNext, Answer, ValidScan;
      ValidIsWf(View(), segments);
      NextIsValid(View(), segments);
      o := GetNext(View()).1;
      r := NextSegment();
      if o.Handed? {
        segments := segments + [o.segment];
      }
    }
  }

  lemma ValidIsWf(s: Scan, h: seq<Segment>)
    requires ValidScan(s, h)
    ensures Wf(s) && !s.failed
  {
  }

  // -------------------------------------------------------------- the caller

  datatype ProduceResult = Produced | ScannerFailed | NotAValidStream

  /** What was produced and what is to come are all the segments of the file. */
  ghost predicate Accounted(file: seq<Byte>, capacity: nat, limit: nat, produced: seq<Segment>, s: Scan, o: Outcome)
    requires 1 <= limit && Answer(file, produced, s, o)
  {
    HeaderAt(file, 0) ==>
      AllSegments(file, capacity, limit)
      == produced + if o.Handed? then [o.segment] + Coming(s, produced + [o.segment]) else []
  }

  lemma FirstAccounted(file: seq<Byte>, capacity: nat, limit: nat)
    requires 1 <= limit
    ensures var s := Init(file, capacity, limit);
            ValidScan(s, []) && Answer(file, [], GetNext(s).0, GetNext(s).1)
            && Accounted(file, capacity, limit, [], GetNext(s).0, GetNext(s).1)
  {
    hide GetNext, IsSlice, HeaderAt, AllSegments;
    var s := Init(file, capacity, limit);
    FirstSearchVerdict(file, capacity, limit);
    assert Init(file, s.capacity, limit) == s;
    NextIsHead(s, []);
    SameSegments(file, capacity, limit);
  }

  lemma SameSegments(file: seq<Byte>, capacity: nat, limit: nat)
    requires 1 <= limit
    ensures HeaderAt(file, 0) ==>
              AllSegments(file, Init(file, capacity, limit).capacity, limit) == AllSegments(file, capacity, limit)
  {
    hide Drain, FirstSearch, HeaderAt;
  }

  lemma HandedIsValid(file: seq<Byte>, produced: seq<Segment>, s: Scan, o: Outcome)
    requires Answer(file, produced, s, o) && o.Handed?
    ensures ValidScan(s, produced + [o.segment]) && s.file == file
  {
  }

  lemma NextAccounted(file: seq<Byte>, capacity: nat, limit: nat, produced: seq<Segment>, s: Scan, o: Outcome)
    requires 1 <= limit && Answer(file, produced, s, o) && o.Handed?
    requires Accounted(file, capacity, limit, produced, s, o)
    ensures var h := produced + [o.segment];
            && ValidScan(s, h) && Answer(file, h, GetNext(s).0, GetNext(s).1)
            && Accounted(file, capacity, limit, h, GetNext(s).0, GetNext(s).1)
  {
    hide GetNext, IsSlice, HeaderAt, AllSegments, ValidScan, Coming;
    var h := produced + [o.segment];
    HandedIsValid(file, produced, s, o);
    ValidIsWf(s, h);
    NextIsHead(s, h);
    var (s', o') := GetNext(s);
    assert produced + ([o.segment] + Coming(s, h)) == h + Coming(s, h);
  }

  /** The loop ends at the first empty segment, or at the end. */
  lemma ProducedAll(file: seq<Byte>, capacity: nat, limit: nat, produced: seq<Segment>, s: Scan, o: Outcome)
    requires 1 <= limit && Answer(file, produced, s, o) && Accounted(file, capacity, limit, produced, s, o)
    requires (o.Handed? ==> o.segment.bytes == []) && forall i | 0 <= i < |produced| :: produced[i].bytes != []
    ensures HeaderAt(file, 0) ==>
              var all := AllSegments(file, capacity, limit);
              && produced == all[..FirstEmpty(all)]
              && (FirstEmpty(all) == |all| <==> !o.Handed?)
  {
    hide GetNext, IsSlice, HeaderAt, AllSegments, ValidScan, Coming, Answer;
    if HeaderAt(file, 0) {
      FirstEmptyIs(AllSegments(file, capacity, limit), |produced|);
    }
  }

  /** producer_decompress without the queue: it takes a buffer of size 0 for the end of
      the file, and then checks that the scanner agrees.  So it produces the segments up to
      the first empty one, and is content exactly when there is none. */
  method ProducerDecompress(file: seq<Byte>, inBuffCapacity: nat, limit: nat)
    returns (produced: seq<Segment>, result: ProduceResult)
    requires 1 <= limit
    ensures WellSequenced(produced) && forall i | 0 <= i < |produced| :: produced[i].bytes != []
    ensures result.ScannerFailed? <==> !HeaderAt(file, 0)
    ensures HeaderAt(file, 0) ==>
              var all := AllSegments(file, inBuffCapacity, limit);
              && produced == all[..FirstEmpty(all)]
              && (result.Produced? <==> FirstEmpty(all) == |all|)
    ensures HeaderAt(file, 0) ==>
              var b := F.SizesFor(inBuffCapacity, limit);
              && (result.Produced? <==> N.NeverEmpty(b, F.Fresh(b), F.Lengths(Streams(file))))
              && (F.ShortStreams(file, F.Bound(inBuffCapacity, limit)) ==> result.Produced?)
    ensures result.Produced? ==> SplitOf(file, produced)
    ensures result.NotAValidStream? ==>
              && |Returned(produced)| < |file| && Returned(produced) == file[..|Returned(produced)|]
              && OpenEnded(produced) && HeaderAt(file, |Returned(produced)|)
  {
    hide IsSlice, HeaderAt, SplitOf, ValidScan, GetNext, WellSequenced, Returned, Accounted, AllSegments, FirstEmpty,
      N.NeverEmpty, F.ShortStreams, Streams;
    FirstAccounted(file, inBuffCapacity, limit);
    var scanner := new BZ2StreamScanner(file, inBuffCapacity, limit);
    produced := [];
    var r, o := scanner.GetNextStream();
    while !scanner.errState && r.bufSize > 0
      invariant scanner.Ok() && scanner.file == file && fresh(scanner.inBuff) && fresh(scanner.outBuf)
      invariant Answer(file, produced, scanner.View(), o)
      invariant Accounted(file, inBuffCapacity, limit, produced, scanner.View(), o)
      invariant scanner.errState == o.Failed?
      invariant o.EndOfFile? ==> r.bufSize == 0
      invariant o.Handed? ==>
                  && scanner.segments == produced + [o.segment] && r.bufSize <= r.buf.Length
                  && o.segment == Segment(r.buf[..r.bufSize], r.blockNumber, r.sequenceNumber, r.isLastInSequence)
      invariant forall i | 0 <= i < |produced| :: produced[i].bytes != []
      decreases |file| - |Returned(produced)|, if o.Handed? then 1 else 0
    {
      ReturnedGrows(produced, o.segment);
      NextAccounted(file, inBuffCapacity, limit, produced, scanner.View(), o);
      produced := produced + [Segment(r.buf[..r.bufSize], r.blockNumber, r.sequenceNumber, r.isLastInSequence)];
      r, o := scanner.GetNextStream();
    }
    if !o.Failed? { ProducedAll(file, inBuffCapacity, limit, produced, scanner.View(), o); }
    ToldFromLengths(file, inBuffCapacity, limit);
    if scanner.errState {
      result := ScannerFailed;
    } else if !scanner.bz2HeaderFound || !scanner.eof {
      result := NotAValidStream;
    } else {
      result := Produced;
    }
  }

  lemma ToldFromLengths(file: seq<Byte>, capacity: nat, limit: nat)
    requires 1 <= limit
    ensures HeaderAt(file, 0) ==>
              var all := AllSegments(file, capacity, limit);
              var b := F.SizesFor(capacity, limit);
              && (FirstEmpty(all) == |all| <==> N.NeverEmpty(b, F.Fresh(b), F.Lengths(Streams(file))))
              && (F.ShortStreams(file, F.Bound(capacity, limit)) ==> FirstEmpty(all) == |all|)
  {
    hide AllSegments, HeaderAt, Streams, N.NeverEmpty, FirstEmpty, F.ShortStreams;
    if HeaderAt(file, 0) {
      F.NeverEmptyExactly(file, capacity, limit);
      if F.ShortStreams(file, F.Bound(capacity, limit)) { F.ShortStreamsAreWhole(file, capacity, limit); }
    }
  }

  lemma ReturnedGrows(h: seq<Segment>, g: Segment)
    ensures |Returned(h + [g])| == |Returned(h)| + |g.bytes|
  {
    assert (h + [g])[..|h|] == h;
  }
}
