/** The scanner's buffers as sizes only.  Where segments end depends on the lengths of the
    streams and not on a single byte, so whether any of them is empty can be told beforehand. */
module ScanSizes {
  import opened Bz2Format
  import opened ScanSpec

  /** Bytes by which a read moves the window on, and the output limit. */
  datatype Sizes = Sizes(chunk: nat, limit: nat)

  predicate Fits(b: Sizes) {
    11 <= b.chunk && 1 <= b.limit
  }

  /** Between calls: bytes in the window in front of its last nine, and the capacity hint. */
  datatype Gauge = Gauge(room: nat, hint: nat)

  /** Within a call: the same room, and size, capacity and hint of the output. */
  datatype Fill = Fill(room: nat, size: nat, cap: nat, hint: nat)

  predicate FillOk(b: Sizes, f: Fill) {
    Fits(b) && f.size <= f.cap && f.room <= b.chunk
  }

  /** n more bytes of the window go to the output. */
  function Put(b: Sizes, f: Fill, n: nat): (r: Fill)
    requires FillOk(b, f) && n <= f.room
    ensures FillOk(b, r) && r.room == f.room - n && r.size == f.size + n && r.hint >= f.hint
  {
    var size := f.size + n;
    if size <= f.cap then Fill(f.room - n, size, f.cap, f.hint)
    else Fill(f.room - n, size, Hint(b.limit, f.hint, size), Hint(b.limit, f.hint, size))
  }

  /** The read loop, with the next header d bytes behind the output: it ends when that
      header lies in the window or the output has reached its limit. */
  function Reads(b: Sizes, f: Fill, d: nat): (r: (Fill, nat))
    requires FillOk(b, f)
    ensures FillOk(b, r.0) && r.0.size + r.1 == f.size + d && r.0.hint >= f.hint
    ensures r.1 < r.0.room || r.0.size >= b.limit
    ensures r == (f, d) || r.0.room == b.chunk
    ensures r.0.size >= b.limit ==> f.size >= b.limit || r.0.room == b.chunk
    decreases d, if f.room == 0 then 1 else 0
  {
    if d < f.room || f.size >= b.limit then (f, d)
    else Reads(b, Put(b, f, f.room).(room := b.chunk), d - f.room)
  }

  /** What is then copied up to the next header or the last nine bytes, as far as it fits. */
  function FillUp(b: Sizes, f: Fill, left: nat): (r: Fill)
    requires FillOk(b, f)
    ensures FillOk(b, r) && f.size <= r.size <= f.size + left && r.hint >= f.hint
  {
    var add := Min(Min(left, f.room), Max(b.limit, f.cap) - f.size);
    if add <= 0 then f else Put(b, f, add)
  }

  /** A call: the size of its segment, what is left of the stream, and whether it ends it. */
  datatype Cut = Cut(size: nat, left: nat, isLast: bool, gauge: Gauge)

  function Call(b: Sizes, g: Gauge, d: nat): (c: Cut)
    requires Fits(b) && g.room <= b.chunk
    ensures c.size + c.left == d && c.gauge.room <= b.chunk && c.gauge.hint >= g.hint
    ensures c.isLast ==> c.left == 0
    ensures if d > 0 then c.size > 0 else c.isLast
    ensures c.left == 0 && !c.isLast ==> c.size >= b.limit + b.chunk
  {
    var (f, left) := Reads(b, Fill(g.room, 0, 0, g.hint), d);
    var u := FillUp(b, f, left);
    var rest := left - (u.size - f.size);
    Cut(u.size, rest, rest == 0 && left < f.room, Gauge(u.room, u.hint))
  }

  /** With these streams to come, the first of them perhaps handed out in part, is no segment
      empty?  A stream with none behind it always ends with the file. */
  predicate NeverEmpty(b: Sizes, g: Gauge, lengths: seq<nat>)
    requires Fits(b) && g.room <= b.chunk
    decreases |lengths|, if lengths == [] then 0 else lengths[0]
  {
    |lengths| <= 1 ||
    (var c := Call(b, g, lengths[0]);
     c.size > 0 && NeverEmpty(b, c.gauge, if c.isLast then lengths[1..] else lengths[0 := c.left]))
  }

  /** The sizes of the segments of all streams but the last. */
  function SegmentSizes(b: Sizes, g: Gauge, lengths: seq<nat>): seq<nat>
    requires Fits(b) && g.room <= b.chunk
    decreases |lengths|, if lengths == [] then 0 else lengths[0]
  {
    if |lengths| <= 1 then []
    else
      var c := Call(b, g, lengths[0]);
      [c.size] + SegmentSizes(b, c.gauge, if c.isLast then lengths[1..] else lengths[0 := c.left])
  }

  lemma {:induction false} NeverEmptyIsNoZero(b: Sizes, g: Gauge, lengths: seq<nat>)
    requires Fits(b) && g.room <= b.chunk
    ensures NeverEmpty(b, g, lengths) <==> 0 !in SegmentSizes(b, g, lengths)
    decreases |lengths|, if lengths == [] then 0 else lengths[0]
  {
    hide Call;
    if |lengths| > 1 {
      var c := Call(b, g, lengths[0]);
      var rest := if c.isLast then lengths[1..] else lengths[0 := c.left];
      assert SegmentSizes(b, g, lengths) == [c.size] + SegmentSizes(b, c.gauge, rest);
      if c.size > 0 {
        NeverEmptyIsNoZero(b, c.gauge, rest);
      }
    }
  }

  // ------------------------------------------------------- a sufficient bound

  /** Streams but for the last that are shorter than the limit and a chunk. */
  predicate AllShort(b: Sizes, lengths: seq<nat>) {
    forall k | 0 <= k < |lengths| - 1 :: 0 < lengths[k] < b.limit + b.chunk
  }

  lemma {:induction false} ShortIsNeverEmpty(b: Sizes, g: Gauge, lengths: seq<nat>)
    requires Fits(b) && g.room <= b.chunk && AllShort(b, lengths)
    ensures NeverEmpty(b, g, lengths)
    decreases |lengths|, if lengths == [] then 0 else lengths[0]
  {
    hide Call;
    if |lengths| > 1 {
      var c := Call(b, g, lengths[0]);
      ShortIsNeverEmpty(b, c.gauge, if c.isLast then lengths[1..] else lengths[0 := c.left]);
    }
  }

  // -------------------------------------------------- which cannot be raised

  lemma Unroll(b: Sizes, g: Gauge, lengths: seq<nat>)
    requires Fits(b) && g.room <= b.chunk && |lengths| > 1 && lengths[0] > 0
    ensures var c := Call(b, g, lengths[0]);
            NeverEmpty(b, g, lengths) == NeverEmpty(b, c.gauge, if c.isLast then lengths[1..] else lengths[0 := c.left])
  {
    hide Call;
  }

  lemma CallWithin(b: Sizes, g: Gauge, d: nat)
    requires Fits(b) && g.room <= b.chunk && 0 < d < g.room
    ensures var c := Call(b, g, d);
            && c.gauge.room - c.left == g.room - d && c.isLast == (c.left == 0)
            && g.hint <= c.gauge.hint <= Max(b.limit, g.hint)
  {
    assert Reads(b, Fill(g.room, 0, 0, g.hint), d) == (Fill(g.room, 0, 0, g.hint), d);
    hide Reads;
  }

  /** A stream that ends within the window is handed out without a read, in one piece or in
      several, and none of them is empty. */
  lemma {:induction false} WithinWindow(b: Sizes, g: Gauge, lengths: seq<nat>) returns (hint: nat)
    requires Fits(b) && g.room <= b.chunk && |lengths| > 1 && 0 < lengths[0] < g.room
    ensures g.hint <= hint <= Max(b.limit, g.hint)
    ensures NeverEmpty(b, g, lengths) == NeverEmpty(b, Gauge(g.room - lengths[0], hint), lengths[1..])
    decreases lengths[0]
  {
    hide Call, NeverEmpty;
    var c := Call(b, g, lengths[0]);
    CallWithin(b, g, lengths[0]);
    Unroll(b, g, lengths);
    hint := c.gauge.hint;
    if !c.isLast {
      hint := WithinWindow(b, c.gauge, lengths[0 := c.left]);
      assert lengths[0 := c.left][1..] == lengths[1..];
    }
  }

  lemma ReadsOnce(b: Sizes, g: Gauge)
    requires Fits(b) && 2 <= g.room <= b.chunk
    ensures var f := Put(b, Fill(g.room, 0, 0, g.hint), g.room).(room := b.chunk);
            && Reads(b, Fill(g.room, 0, 0, g.hint), b.chunk + 1) == (f, b.chunk + 1 - g.room)
            && f.hint == f.cap <= Max(g.hint, (11 * g.room) / 10) && f.hint >= g.hint
  {
    var f := Put(b, Fill(g.room, 0, 0, g.hint), g.room).(room := b.chunk);
    assert Reads(b, f, b.chunk + 1 - g.room) == (f, b.chunk + 1 - g.room);
  }

  lemma CallFurther(b: Sizes, g: Gauge, most: nat)
    requires Fits(b) && 2 <= g.room <= b.chunk
    requires g.hint <= most && b.limit <= most && (11 * g.room) / 10 <= most
    ensures var c := Call(b, g, b.chunk + 1);
            && c.gauge.room - c.left == g.room - 1 && c.isLast == (c.left == 0)
            && g.hint <= c.gauge.hint <= most
  {
    ReadsOnce(b, g);
    hide Reads;
  }

  /** A stream one longer than a chunk leaves one byte less in the window. */
  lemma OneFurther(b: Sizes, g: Gauge, lengths: seq<nat>, most: nat) returns (hint: nat)
    requires Fits(b) && 2 <= g.room <= b.chunk && |lengths| > 1 && lengths[0] == b.chunk + 1
    requires g.hint <= most && b.limit <= most && (11 * g.room) / 10 <= most
    ensures g.hint <= hint <= most
    ensures NeverEmpty(b, g, lengths) == NeverEmpty(b, Gauge(g.room - 1, hint), lengths[1..])
  {
    hide Call, NeverEmpty;
    var c := Call(b, g, lengths[0]);
    CallFurther(b, g, most);
    Unroll(b, g, lengths);
    hint := c.gauge.hint;
    if !c.isLast {
      hint := WithinWindow(b, c.gauge, lengths[0 := c.left]);
      assert lengths[0 := c.left][1..] == lengths[1..];
    }
  }

  function Repeat(n: nat, v: nat): (r: seq<nat>)
    ensures |r| == n && forall i | 0 <= i < n :: r[i] == v
  {
    seq(n, i => v)
  }

  lemma {:induction false} Further(b: Sizes, g: Gauge, n: nat, lengths: seq<nat>, most: nat) returns (hint: nat)
    requires Fits(b) && n < g.room <= b.chunk && lengths != []
    requires g.hint <= most && b.limit <= most && (11 * g.room) / 10 <= most
    ensures g.hint <= hint <= most
    ensures NeverEmpty(b, g, Repeat(n, b.chunk + 1) + lengths) == NeverEmpty(b, Gauge(g.room - n, hint), lengths)
    decreases n
  {
    hide NeverEmpty;
    hint := g.hint;
    var all := Repeat(n, b.chunk + 1) + lengths;
    if n == 0 {
      assert all == lengths;
    } else {
      hint := OneFurther(b, g, all, most);
      assert all[1..] == Repeat(n - 1, b.chunk + 1) + lengths;
      hint := Further(b, Gauge(g.room - 1, hint), n - 1, lengths, most);
    }
  }

  lemma PutHint(b: Sizes, f: Fill, n: nat)
    requires FillOk(b, f) && 0 < n <= f.room && (f.cap == f.hint || f.cap == 0)
    ensures var r := Put(b, f, n);
            && r.hint == r.cap
            && (f.hint >= r.size ==> r.hint == f.hint)
            && (f.hint < r.size && b.limit < r.size ==> r.hint == (11 * r.size) / 10)
            && (f.hint < r.size <= b.limit ==> r.hint <= b.limit)
  {
  }

  /** n + 1 reads take the output to `end`, if it passes the limit only there. */
  lemma {:induction false} ReadsTo(b: Sizes, f: Fill, d: nat, n: nat, end: nat)
    requires FillOk(b, f) && f.size < b.limit <= end && d >= f.room + n * b.chunk
    requires 0 < f.room && f.size + f.room + n * b.chunk == end && end - b.chunk < b.limit
    requires f.cap == f.hint || f.cap == 0
    ensures var (r, left) := Reads(b, f, d);
            && r.room == b.chunk && r.size == end && left == f.size + d - end && r.hint == r.cap
            && (f.hint >= end ==> r.hint == f.hint)
            && (f.hint < end && b.limit < end ==> r.hint == (11 * end) / 10)
    decreases n
  {
    hide Hint, Put;
    PutHint(b, f, f.room);
    var next := Put(b, f, f.room).(room := b.chunk);
    if n > 0 {
      assert n * b.chunk == b.chunk + (n - 1) * b.chunk;
      assert (n - 1) * b.chunk >= 0;
      ReadsTo(b, next, d - f.room, n - 1, end);
    }
  }

  /** A stream of `end` bytes that the last read brings to the output whole raises the hint,
      and leaves a full window. */
  lemma RaisesHint(b: Sizes, g: Gauge, n: nat, end: nat, lengths: seq<nat>)
    requires Fits(b) && 0 < g.room <= b.chunk && g.room + n * b.chunk == end
    requires end - b.chunk < b.limit < end && g.hint < end && |lengths| > 1 && lengths[0] == end
    ensures NeverEmpty(b, g, lengths) == NeverEmpty(b, Gauge(b.chunk, (11 * end) / 10), lengths[1..])
  {
    ReadsTo(b, Fill(g.room, 0, 0, g.hint), end, n, end);
    Unroll(b, g, lengths);
    hide NeverEmpty, Reads;
  }

  /** A stream of the limit and a chunk, lying so that the reads reach the limit exactly, is
      handed out up to the last nine bytes of the window, where the next header begins. */
  lemma CutEmpty(b: Sizes, g: Gauge, n: nat, lengths: seq<nat>)
    requires Fits(b) && 0 < g.room <= b.chunk && g.room + n * b.chunk == b.limit
    requires g.hint >= b.limit + b.chunk && |lengths| > 1 && lengths[0] == b.limit + b.chunk
    ensures !NeverEmpty(b, g, lengths)
  {
    var c := Call(b, g, lengths[0]);
    assert c.left == 0 && !c.isLast && c.gauge.room == 0 by {
      ReadsTo(b, Fill(g.room, 0, 0, g.hint), lengths[0], n, b.limit);
      hide Reads;
    }
    var again := lengths[0 := 0];
    assert Call(b, c.gauge, 0).size == 0 by {
      NothingLeft(b, c.gauge);
    }
    Unroll(b, g, lengths);
    hide Call;
  }

  lemma NothingLeft(b: Sizes, g: Gauge)
    requires Fits(b) && g.room == 0
    ensures Call(b, g, 0).size == 0
  {
  }

  /** Lengths of streams, all but the last at most the limit and a chunk. */
  predicate AtMostBound(b: Sizes, lengths: seq<nat>) {
    && |lengths| >= 2
    && (forall k | 0 <= k < |lengths| :: HEADER_SIZE <= lengths[k])
    && (forall k | 0 <= k < |lengths| - 1 :: lengths[k] <= b.limit + b.chunk)
  }

  lemma Longer(b: Sizes, first: seq<nat>, lengths: seq<nat>)
    requires AtMostBound(b, lengths) && forall k | 0 <= k < |first| :: HEADER_SIZE <= first[k] <= b.limit + b.chunk
    ensures AtMostBound(b, first + lengths)
  {
  }

  /** The room that a number of whole reads turn into `end` bytes of output. */
  function Room(b: Sizes, end: nat): (room: nat)
    requires Fits(b) && 1 <= end
    ensures 1 <= room <= b.chunk
  {
    (end - 1) % b.chunk + 1
  }

  lemma WholeReads(b: Sizes, end: nat) returns (n: nat)
    requires Fits(b) && 1 <= end
    ensures Room(b, end) + n * b.chunk == end
  {
    n := (end - 1) / b.chunk;
  }

  /** Streams that move a full window to where the last but one is cut empty. */
  function Misaligned(b: Sizes): (lengths: seq<nat>)
    requires Fits(b)
    ensures AtMostBound(b, lengths)
  {
    Repeat(b.chunk - Room(b, b.limit), b.chunk + 1) + [b.limit + b.chunk, HEADER_SIZE]
  }

  lemma MisalignedIsCut(b: Sizes, hint: nat)
    requires Fits(b) && hint >= b.limit + b.chunk
    ensures !NeverEmpty(b, Gauge(b.chunk, hint), Misaligned(b))
  {
    hide NeverEmpty;
    var room, tail := Room(b, b.limit), [b.limit + b.chunk, HEADER_SIZE];
    var n := WholeReads(b, b.limit);
    var kept := Further(b, Gauge(b.chunk, hint), b.chunk - room, tail, Max(hint, Max(b.limit, (11 * b.chunk) / 10)));
    CutEmpty(b, Gauge(room, kept), n, tail);
  }

  /** The same behind a stream that raises the hint, and others that take the window there. */
  function Raised(b: Sizes, further: nat, end: nat): (lengths: seq<nat>)
    requires Fits(b) && HEADER_SIZE <= end <= b.limit + b.chunk
    ensures AtMostBound(b, lengths)
  {
    Repeat(further, b.chunk + 1) + ([end] + Misaligned(b))
  }

  lemma RaisedIsCut(b: Sizes, g: Gauge, end: nat, most: nat)
    requires Fits(b) && g.room <= b.chunk && HEADER_SIZE <= end <= b.limit + b.chunk && Room(b, end) <= g.room
    requires end - b.chunk < b.limit < end && (11 * end) / 10 >= b.limit + b.chunk
    requires g.hint < end
    requires Room(b, end) < g.room ==> b.limit <= most && (11 * g.room) / 10 <= most && g.hint <= most < end
    ensures !NeverEmpty(b, g, Raised(b, g.room - Room(b, end), end))
  {
    hide NeverEmpty;
    var room, tail := Room(b, end), [end] + Misaligned(b);
    var hint := g.hint;
    if room < g.room {
      hint := Further(b, g, g.room - room, tail, most);
    } else {
      assert Raised(b, 0, end) == tail;
    }
    var n := WholeReads(b, end);
    RaisesHint(b, Gauge(room, hint), n, end, tail);
    assert tail[1..] == Misaligned(b);
    MisalignedIsCut(b, (11 * end) / 10);
  }

  /** The bound is sharp for all buffers: there are streams no longer than it, one segment of
      which is empty. */
  lemma SharpLengths(b: Sizes) returns (lengths: seq<nat>)
    requires Fits(b)
    ensures AtMostBound(b, lengths) && !NeverEmpty(b, Gauge(b.chunk, 0), lengths)
  {
    hide NeverEmpty, Raised, Room;
    var grown, end, full := (11 * b.chunk) / 10, b.limit + b.chunk - 1, Gauge(b.chunk, 0);
    if grown > end {
      RoomOfChunk(b);
      lengths := Raised(b, 0, b.chunk);
      RaisedIsCut(b, full, b.chunk, 0);
    } else if grown < end {
      lengths := Raised(b, b.chunk - Room(b, end), end);
      RaisedIsCut(b, full, end, Max(b.limit, grown));
    } else {
      RoomOfSmall(b);
      var later := Raised(b, b.chunk - HEADER_SIZE - Room(b, end), end);
      lengths := [HEADER_SIZE] + later;
      var hint := WithinWindow(b, full, lengths);
      assert lengths[1..] == later;
      RaisedIsCut(b, Gauge(b.chunk - HEADER_SIZE, hint), end, Max(b.limit, (11 * (b.chunk - HEADER_SIZE)) / 10));
    }
  }

  lemma RoomOfChunk(b: Sizes)
    requires Fits(b)
    ensures Room(b, b.chunk) == b.chunk
  {
  }

  lemma RoomOfSmall(b: Sizes)
    requires Fits(b) && (11 * b.chunk) / 10 == b.limit + b.chunk - 1
    ensures Room(b, b.limit + b.chunk - 1) == b.limit - 1 <= b.chunk - HEADER_SIZE
  {
    OneChunkMore(b.chunk, b.limit - 2);
    assert b.limit + b.chunk - 2 == b.chunk + (b.limit - 2);
  }

  lemma OneChunkMore(chunk: nat, k: nat)
    requires k < chunk
    ensures (chunk + k) % chunk == k
  {
  }

  /** With a first stream of n + 1 chunks, n >= 10, and a limit passed at the n-th read, the
      first segment takes all of it and leaves it open; the second is empty. */
  lemma FirstStreamIsCut(b: Sizes, n: nat, lengths: seq<nat>)
    requires Fits(b) && n >= 10 && n * b.chunk - b.chunk < b.limit < n * b.chunk
    requires |lengths| > 1 && lengths[0] == n * b.chunk + b.chunk
    ensures var sizes := SegmentSizes(b, Gauge(b.chunk, 0), lengths); |sizes| >= 2 && sizes[0] == lengths[0] && sizes[1] == 0
  {
    var g := Gauge(b.chunk, 0);
    var c := Call(b, g, lengths[0]);
    assert n * b.chunk == b.chunk + (n - 1) * b.chunk;
    TenAtLeast(n, b.chunk);
    assert c.left == 0 && !c.isLast && c.gauge.room == 0 by {
      ReadsTo(b, Fill(b.chunk, 0, 0, 0), lengths[0], n - 1, n * b.chunk);
      hide Reads;
    }
    NothingLeft(b, c.gauge);
    hide Call;
    assert SegmentSizes(b, g, lengths) == [c.size] + SegmentSizes(b, c.gauge, lengths[0 := 0]);
  }

  lemma TenAtLeast(n: nat, chunk: nat)
    requires n >= 10
    ensures 10 * chunk <= n * chunk
  {
  }
}
