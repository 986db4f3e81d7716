/** What a stream splitter hands out: numbered segments, and what a history of
    them means for the file they came from. */
module Segments {
  import opened ByteSeq
  import opened Bz2Format

  datatype Segment = Segment(bytes: seq<Byte>, blockNumber: nat, sequenceNumber: nat, isLast: bool)

  /** All bytes of a history, in order. */
  function Returned(h: seq<Segment>): seq<Byte> {
    if h == [] then [] else Returned(h[..|h| - 1]) + h[|h| - 1].bytes
  }

  /** The bytes that carry block number k, in order. */
  function BlockBytes(h: seq<Segment>, k: nat): seq<Byte> {
    if h == [] then []
    else BlockBytes(h[..|h| - 1], k) + if h[|h| - 1].blockNumber == k then h[|h| - 1].bytes else []
  }

  /** A stream in one piece is numbered 0; a longer one starts with an unfinished segment 1. */
  predicate Starts(s: Segment) {
    s.sequenceNumber == if s.isLast then 0 else 1
  }

  predicate Follows(prev: Segment, s: Segment) {
    if prev.isLast then Starts(s) && s.blockNumber == prev.blockNumber + 1
    else s.sequenceNumber == prev.sequenceNumber + 1 && s.blockNumber == prev.blockNumber
  }

  /** The numbering rule the chained queue relies on. */
  predicate WellSequenced(h: seq<Segment>) {
    && (h != [] ==> Starts(h[0]) && h[0].blockNumber == 0)
    && forall i | 1 <= i < |h| :: FollowsAt(h, i)
  }

  predicate FollowsAt(h: seq<Segment>, i: int) {
    1 <= i < |h| && Follows(h[i - 1], h[i])
  }

  /** Where stream k begins: 0, then each next header, then the end of the file. */
  function CutPoint(f: seq<Byte>, k: nat): (p: nat)
    ensures p <= |f|
  {
    if k == 0 then 0 else NextCut(f, CutPoint(f, k - 1))
  }

  function NextCut(f: seq<Byte>, i: nat): (p: nat)
    requires i <= |f|
    ensures i <= p <= |f|
  {
    if i == |f| then |f| else NextHeader(f, i + 1)
  }

  function StreamAt(f: seq<Byte>, k: nat): seq<Byte> {
    f[CutPoint(f, k)..NextCut(f, CutPoint(f, k))]
  }

  /** The history h holds exactly the first `total` bytes of f: n whole streams and
      the beginning of the next one, each under its own block number. */
  ghost predicate Delivered(f: seq<Byte>, h: seq<Segment>, n: nat, total: nat) {
    && CutPoint(f, n) <= total <= |f|
    && Returned(h) == f[..total]
    && (forall j: nat | j < n :: PieceIs(f, h, j))
    && BlockBytes(h, n) == f[CutPoint(f, n)..total]
    && forall i | 0 <= i < |h| :: h[i].blockNumber <= n
  }

  /** Block j of the history is stream j, whole. */
  predicate PieceIs(f: seq<Byte>, h: seq<Segment>, j: nat) {
    BlockBytes(h, j) == StreamAt(f, j)
  }

  lemma NothingDelivered(f: seq<Byte>)
    ensures Delivered(f, [], 0, 0) && WellSequenced([])
  {
  }

  lemma DeliverPart(f: seq<Byte>, h: seq<Segment>, n: nat, total: nat, s: Segment, to: nat)
    requires Delivered(f, h, n, total) && total <= to <= |f|
    requires s.bytes == f[total..to] && s.blockNumber == n
    ensures Delivered(f, h + [s], n, to)
  {
    var h' := h + [s];
    assert h'[..|h|] == h;
    forall j: nat | j < n ensures PieceIs(f, h', j) {
      assert PieceIs(f, h, j);
    }
    assert f[..total] + f[total..to] == f[..to];
    assert f[CutPoint(f, n)..total] + f[total..to] == f[CutPoint(f, n)..to];
  }

  lemma {:induction false} BlockBytesAbsent(h: seq<Segment>, k: nat)
    requires forall i | 0 <= i < |h| :: h[i].blockNumber != k
    ensures BlockBytes(h, k) == []
  {
    if h != [] {
      BlockBytesAbsent(h[..|h| - 1], k);
    }
  }

  lemma DeliverEnd(f: seq<Byte>, h: seq<Segment>, n: nat, total: nat)
    requires Delivered(f, h, n, total) && total == NextCut(f, CutPoint(f, n))
    ensures Delivered(f, h, n + 1, total)
  {
    BlockBytesAbsent(h, n + 1);
    assert CutPoint(f, n + 1) == total;
    assert PieceIs(f, h, n);
  }

  function Rest(f: seq<Byte>, k: nat): seq<seq<Byte>> {
    StreamsFrom(f, CutPoint(f, k))
  }

  lemma RestStep(f: seq<Byte>, k: nat)
    ensures CutPoint(f, k) == |f| ==> Rest(f, k) == []
    ensures CutPoint(f, k) < |f| ==> Rest(f, k) == [StreamAt(f, k)] + Rest(f, k + 1) && CutPoint(f, k) < CutPoint(f, k + 1)
  {
    assert CutPoint(f, k + 1) == NextCut(f, CutPoint(f, k));
  }

  lemma {:induction false} StreamIsPiece(f: seq<Byte>, k: nat, j: nat)
    requires j < |Rest(f, k)|
    ensures Rest(f, k)[j] == StreamAt(f, k + j)
    decreases j
  {
    hide CutPoint, StreamAt, Rest;
    RestStep(f, k);
    if j > 0 {
      StreamIsPiece(f, k + 1, j - 1);
    }
  }

  /** There is a j-th stream from cut point k on exactly when that cut point is inside the file. */
  lemma {:induction false} PiecesEnd(f: seq<Byte>, k: nat, j: nat)
    ensures j < |Rest(f, k)| <==> CutPoint(f, k + j) < |f|
    decreases j
  {
    hide CutPoint, StreamAt, Rest;
    RestStep(f, k);
    if CutPoint(f, k) == |f| {
      CutsEnd(f, k, k + j);
    } else if j > 0 {
      PiecesEnd(f, k + 1, j - 1);
    }
  }

  lemma {:induction false} CutsEnd(f: seq<Byte>, j: nat, k: nat)
    requires j <= k && CutPoint(f, j) == |f|
    ensures CutPoint(f, k) == |f|
    decreases k - j
  {
    if j < k {
      CutsEnd(f, j, k - 1);
    }
  }

  lemma DeliveredPiece(f: seq<Byte>, h: seq<Segment>, n: nat, k: nat)
    requires Delivered(f, h, n, |f|) && CutPoint(f, n) == |f|
    ensures BlockBytes(h, k) == if k < n then StreamAt(f, k) else []
  {
    hide CutPoint, StreamAt, Returned;
    if n < k {
      BlockBytesAbsent(h, k);
    } else if k < n {
      assert PieceIs(f, h, k);
    }
  }

  /** Stream k of the reference split is the piece between cut points k and k + 1. */
  lemma StreamLookup(f: seq<Byte>, k: nat)
    ensures k < |Streams(f)| <==> CutPoint(f, k) < |f|
    ensures k < |Streams(f)| ==> Streams(f)[k] == StreamAt(f, k)
  {
    assert Streams(f) == Rest(f, 0);
    hide CutPoint, StreamAt, Rest, Streams;
    PiecesEnd(f, 0, k);
    if k < |Rest(f, 0)| {
      StreamIsPiece(f, 0, k);
    }
  }

  /** Once the whole file is out, the segments grouped by block number are the streams. */
  lemma AllStreamsDelivered(f: seq<Byte>, h: seq<Segment>, n: nat, k: nat)
    requires Delivered(f, h, n, |f|) && CutPoint(f, n) == |f|
    ensures BlockBytes(h, k) == if k < |Streams(f)| then Streams(f)[k] else []
  {
    hide CutPoint, StreamAt, Streams, Delivered, BlockBytes;
    DeliveredPiece(f, h, n, k);
    StreamLookup(f, k);
    if n <= k {
      CutsEnd(f, n, k);
    } else if CutPoint(f, k) == |f| {
      EmptyPiece(f, k);
    }
  }

  lemma EmptyPiece(f: seq<Byte>, k: nat)
    requires CutPoint(f, k) == |f|
    ensures StreamAt(f, k) == []
  {
  }
}
