/** The bzip2 stream headers pbzip2 looks for, and the reference meaning of
    "cut the file at every header".  Nothing here knows about buffers. */
module Bz2Format {

  import opened ByteSeq

  const HEADER_SIZE: nat := 10
  const PREFIX_LEN: nat := 3

  /** "BZh" */
  predicate PrefixAt(f: seq<Byte>, i: int) {
    0 <= i && i + PREFIX_LEN <= |f| && f[i] == 0x42 && f[i + 1] == 0x5A && f[i + 2] == 0x68
  }

  /** "1AY&SY", the magic of a compressed block */
  predicate BlockMagicAt(f: seq<Byte>, i: int) {
    && 0 <= i && i + 6 <= |f|
    && f[i] == 0x31 && f[i + 1] == 0x41 && f[i + 2] == 0x59
    && f[i + 3] == 0x26 && f[i + 4] == 0x53 && f[i + 5] == 0x59
  }

  /** The magic that ends a stream, and so follows the header of an empty one. */
  predicate EndMagicAt(f: seq<Byte>, i: int) {
    && 0 <= i && i + 6 <= |f|
    && f[i] == 0x17 && f[i + 1] == 0x72 && f[i + 2] == 0x45
    && f[i + 3] == 0x38 && f[i + 4] == 0x50 && f[i + 5] == 0x90
  }

  /** A complete 10-byte stream header starts at offset i. */
  predicate HeaderAt(f: seq<Byte>, i: int) {
    && PrefixAt(f, i)
    && i + HEADER_SIZE <= |f|
    && 0x31 <= f[i + 3] <= 0x39
    && (BlockMagicAt(f, i + 4) || EndMagicAt(f, i + 4))
  }

  ghost predicate NoHeaderIn(f: seq<Byte>, lo: int, hi: int) {
    forall j | lo <= j < hi :: !HeaderAt(f, j)
  }

  /** The first header at or after i, or the end of the file. */
  function NextHeader(f: seq<Byte>, i: nat): (n: nat)
    requires i <= |f|
    ensures i <= n <= |f|
    ensures n < |f| ==> HeaderAt(f, n)
    ensures NoHeaderIn(f, i, n)
    decreases |f| - i
  {
    if i == |f| || HeaderAt(f, i) then i else NextHeader(f, i + 1)
  }

  /** The reference meaning of the split: the stream starting at i, then the rest. */
  function StreamsFrom(f: seq<Byte>, i: nat): (s: seq<seq<Byte>>)
    requires i <= |f|
    decreases |f| - i
  {
    if i == |f| then []
    else var n := NextHeader(f, i + 1); [f[i..n]] + StreamsFrom(f, n)
  }

  function Streams(f: seq<Byte>): seq<seq<Byte>> {
    StreamsFrom(f, 0)
  }

  lemma {:induction false} NextHeaderUnique(f: seq<Byte>, i: nat, n: nat)
    requires i <= n <= |f| && NoHeaderIn(f, i, n)
    requires n == |f| || HeaderAt(f, n)
    ensures NextHeader(f, i) == n
    decreases n - i
  {
    if i < n {
      NextHeaderUnique(f, i + 1, n);
    }
  }

  /** Inside a header only the first byte is a 'B'. */
  lemma OneBPerHeader(f: seq<Byte>, i: int, j: int)
    requires HeaderAt(f, i) && i < j < i + HEADER_SIZE
    ensures f[j] != 0x42
  {
    assert j == i + 1 || j == i + 2 || j == i + 3 || j == i + 4 || j == i + 5
        || j == i + 6 || j == i + 7 || j == i + 8 || j == i + 9;
  }

  /** Two headers never overlap, so a scanner that skips a whole header loses none. */
  lemma HeadersDisjoint(f: seq<Byte>, i: int, j: int)
    requires HeaderAt(f, i) && HeaderAt(f, j) && i < j
    ensures i + HEADER_SIZE <= j
  {
    if j < i + HEADER_SIZE {
      OneBPerHeader(f, i, j);
    }
  }

  /** Seeing a header depends only on its own ten bytes. */
  lemma HeaderInWindow(f: seq<Byte>, lo: nat, hi: nat, i: int)
    requires lo <= hi <= |f| && 0 <= i
    ensures PrefixAt(f[lo..hi], i) <==> (PrefixAt(f, lo + i) && lo + i + PREFIX_LEN <= hi)
    ensures HeaderAt(f[lo..hi], i) <==> (HeaderAt(f, lo + i) && lo + i + HEADER_SIZE <= hi)
  {
  }

  /** A piece has no header inside, and keeps the one it starts with. */
  lemma PieceHeaders(f: seq<Byte>, i: nat, n: nat)
    requires i < |f| && n == NextHeader(f, i + 1)
    ensures i < n <= |f| && forall j | 1 <= j :: !HeaderAt(f[i..n], j)
    ensures HeaderAt(f, i) ==> HeaderAt(f[i..n], 0)
  {
    hide HeaderAt;
    forall j | 1 <= j ensures !HeaderAt(f[i..n], j) {
      HeaderInWindow(f, i, n, j);
    }
    if HeaderAt(f, i) {
      HeaderFits(f, i, n);
      HeaderInWindow(f, i, n, 0);
    }
  }

  lemma HeaderFits(f: seq<Byte>, i: nat, n: nat)
    requires HeaderAt(f, i) && i < n && (n == |f| || HeaderAt(f, n))
    ensures i + HEADER_SIZE <= n
  {
    if n < |f| { HeadersDisjoint(f, i, n); }
  }

  /** The reference split loses nothing, and every piece but the first starts at a header. */
  lemma {:induction false} StreamsPartition(f: seq<Byte>, i: nat)
    requires i <= |f|
    ensures Flatten(StreamsFrom(f, i)) == f[i..]
    ensures forall k | 0 <= k < |StreamsFrom(f, i)| :: StreamsFrom(f, i)[k] != []
    ensures forall k | 0 <= k < |StreamsFrom(f, i)| && (k == 0 ==> HeaderAt(f, i)) :: HeaderAt(StreamsFrom(f, i)[k], 0)
    ensures forall k, j | 0 <= k < |StreamsFrom(f, i)| && 1 <= j :: !HeaderAt(StreamsFrom(f, i)[k], j)
    decreases |f| - i
  {
    hide HeaderAt, NextHeader;
    if i < |f| {
      var n := NextHeader(f, i + 1);
      PieceHeaders(f, i, n);
      StreamsPartition(f, n);
      assert f[i..n] + f[n..] == f[i..];
      assert StreamsFrom(f, i)[1..] == StreamsFrom(f, n);
    }
  }
}
