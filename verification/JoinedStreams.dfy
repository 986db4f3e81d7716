/** Streams joined to one file, and cutting them apart again. */
module JoinedStreams {
  import opened ByteSeq
  import opened Bz2Format

  /** Joined blocks have no stream header but those they start with. */
  ghost predicate OnlyOwnHeaders(packed: seq<Bytes>) {
    && (forall k | 0 <= k < |packed| :: HeaderAt(packed[k], 0))
    && (forall p | HeaderAt(Flatten(packed), p) :: StartsBlock(packed, p))
  }

  ghost predicate StartsBlock(packed: seq<Bytes>, p: int) {
    exists k :: 0 <= k < |packed| && p == |Flatten(packed[..k])|
  }

  /** The file from block k on. */
  lemma FlattenFrom(packed: seq<Bytes>, k: nat)
    requires k <= |packed|
    ensures |Flatten(packed[..k])| <= |Flatten(packed)|
    ensures Flatten(packed)[|Flatten(packed[..k])|..] == Flatten(packed[k..])
  {
    FlattenSplit(packed[..k], packed[k..]);
    assert packed[..k] + packed[k..] == packed;
  }

  lemma StartsGrow(packed: seq<Bytes>, j: nat, k: nat)
    requires j <= k <= |packed|
    ensures |Flatten(packed[..j])| <= |Flatten(packed[..k])|
  {
    FlattenFrom(packed[..k], j);
    assert packed[..k][..j] == packed[..j];
  }

  /** A header inside a block's own bytes is one of the file. */
  lemma HeaderOfBlock(packed: seq<Bytes>, k: nat)
    requires k < |packed| && HeaderAt(packed[k], 0)
    ensures var p := |Flatten(packed[..k])|;
            && p + |packed[k]| == |Flatten(packed[..k + 1])| <= |Flatten(packed)|
            && Flatten(packed)[p..p + |packed[k]|] == packed[k] && HeaderAt(Flatten(packed), p)
  {
    var f, p := Flatten(packed), |Flatten(packed[..k])|;
    FlattenFrom(packed, k);
    FlattenNext(packed, k);
    FlattenFrom(packed, k + 1);
    assert f[p..] == packed[k] + Flatten(packed[k + 1..]) by { assert packed[k..][1..] == packed[k + 1..]; }
    assert f[p..p + |packed[k]|] == f[p..][..|packed[k]|];
    HeaderInWindow(f, p, p + |packed[k]|, 0);
  }

  /** No header of the file lies strictly between two starts. */
  lemma NoHeaderInside(packed: seq<Bytes>, k: nat)
    requires OnlyOwnHeaders(packed) && k < |packed|
    ensures NoHeaderIn(Flatten(packed), |Flatten(packed[..k])| + 1, |Flatten(packed[..k + 1])|)
  {
    hide HeaderAt, Flatten;
    forall p | |Flatten(packed[..k])| + 1 <= p < |Flatten(packed[..k + 1])| ensures !HeaderAt(Flatten(packed), p) {
      if HeaderAt(Flatten(packed), p) {
        assert StartsBlock(packed, p);
        var j :| 0 <= j < |packed| && p == |Flatten(packed[..j])|;
        if j <= k { StartsGrow(packed, j, k); } else { StartsGrow(packed, k + 1, j); }
      }
    }
  }

  /** Cutting the joined file at its headers gives the blocks back. */
  lemma {:induction false} StreamsOfBlocks(packed: seq<Bytes>, k: nat)
    requires OnlyOwnHeaders(packed) && k <= |packed|
    ensures |Flatten(packed[..k])| <= |Flatten(packed)|
    ensures StreamsFrom(Flatten(packed), |Flatten(packed[..k])|) == packed[k..]
    decreases |packed| - k
  {
    hide HeaderAt, NextHeader, Flatten;
    var f, p := Flatten(packed), |Flatten(packed[..k])|;
    FlattenFrom(packed, k);
    if k == |packed| {
      assert packed[..k] == packed;
    } else {
      HeaderOfBlock(packed, k);
      NotEmptyWithHeader(packed[k]);
      NoHeaderInside(packed, k);
      var n := |Flatten(packed[..k + 1])|;
      if k + 1 < |packed| {
        HeaderOfBlock(packed, k + 1);
      } else {
        assert packed[..k + 1] == packed;
      }
      NextHeaderUnique(f, p + 1, n);
      StreamsOfBlocks(packed, k + 1);
      assert packed[k..] == [packed[k]] + packed[k + 1..];
    }
  }

  lemma NotEmptyWithHeader(b: Bytes)
    requires HeaderAt(b, 0)
    ensures b != []
  {
  }

  lemma JoinAndCut(packed: seq<Bytes>)
    requires OnlyOwnHeaders(packed)
    ensures Streams(Flatten(packed)) == packed
  {
    hide OnlyOwnHeaders, StreamsFrom;
    assert packed[..0] == [] && packed[0..] == packed;
    NothingFlat();
    StreamsOfBlocks(packed, 0);
  }

  lemma NothingFlat()
    ensures Flatten([]) == []
  {
  }

  // ------------------------------------------------ streams of given lengths

  function HeaderByte(i: nat): Byte {
    match i
    case 0 => 0x42
    case 1 => 0x5A
    case 2 => 0x68
    case 3 => 0x39
    case 4 => 0x31
    case 5 => 0x41
    case 6 => 0x59
    case 7 => 0x26
    case 8 => 0x53
    case 9 => 0x59
    case _ => 0
  }

  /** A stream header and zeros. */
  function Blank(n: nat): (b: Bytes)
    ensures |b| == n && forall i | 0 <= i < n :: b[i] == HeaderByte(i)
  {
    seq(n, i requires 0 <= i < n => HeaderByte(i))
  }

  function Blanks(lengths: seq<nat>): (r: seq<Bytes>)
    ensures |r| == |lengths| && forall k | 0 <= k < |r| :: r[k] == Blank(lengths[k])
  {
    seq(|lengths|, k requires 0 <= k < |lengths| => Blank(lengths[k]))
  }

  lemma BlankHasHeader(n: nat)
    requires HEADER_SIZE <= n
    ensures HeaderAt(Blank(n), 0)
  {
    var b := Blank(n);
    assert b[0] == 0x42 && b[1] == 0x5A && b[2] == 0x68 && b[3] == 0x39 && b[4] == 0x31 && b[5] == 0x41;
    assert b[6] == 0x59 && b[7] == 0x26 && b[8] == 0x53 && b[9] == 0x59;
  }

  /** Only at the beginning of a block is there a 'B'. */
  lemma {:induction false} OnlyAtStarts(blocks: seq<Bytes>, p: nat)
    requires forall k | 0 <= k < |blocks| :: forall i | 1 <= i < |blocks[k]| :: blocks[k][i] != 0x42
    requires p < |Flatten(blocks)| && Flatten(blocks)[p] == 0x42
    ensures StartsBlock(blocks, p)
  {
    if p == 0 {
      NothingFlat();
      assert blocks[..0] == [];
      assert p == |Flatten(blocks[..0])|;
    } else {
      var rest := blocks[1..];
      assert forall k | 0 <= k < |rest| :: rest[k] == blocks[k + 1];
      assert p >= |blocks[0]|;
      OnlyAtStarts(rest, p - |blocks[0]|);
      var k :| 0 <= k < |rest| && p - |blocks[0]| == |Flatten(rest[..k])|;
      assert blocks[..k + 1][1..] == rest[..k];
      assert p == |Flatten(blocks[..k + 1])|;
    }
  }

  /** There is a file whose streams have given lengths. */
  lemma FileOfLengths(lengths: seq<nat>) returns (file: Bytes)
    requires forall k | 0 <= k < |lengths| :: HEADER_SIZE <= lengths[k]
    ensures |Streams(file)| == |lengths| && forall k | 0 <= k < |lengths| :: |Streams(file)[k]| == lengths[k]
    ensures lengths != [] ==> HeaderAt(file, 0)
  {
    hide HeaderAt, Flatten, Streams, HeaderByte;
    var blocks := Blanks(lengths);
    file := Flatten(blocks);
    forall k | 0 <= k < |blocks| ensures HeaderAt(blocks[k], 0) && forall i | 1 <= i < |blocks[k]| :: blocks[k][i] != 0x42 {
      BlankHasHeader(lengths[k]);
      OneB(lengths[k]);
    }
    forall p | HeaderAt(file, p) ensures StartsBlock(blocks, p) {
      HeaderStartsWithB(file, p);
      OnlyAtStarts(blocks, p);
    }
    JoinAndCut(blocks);
    if lengths != [] {
      FirstHeader(blocks);
    }
  }

  lemma OneB(n: nat)
    ensures forall i | 1 <= i < n :: Blank(n)[i] != 0x42
  {
  }

  lemma HeaderStartsWithB(f: Bytes, p: int)
    requires HeaderAt(f, p)
    ensures 0 <= p < |f| && f[p] == 0x42
  {
  }

  lemma FirstHeader(blocks: seq<Bytes>)
    requires blocks != [] && HeaderAt(blocks[0], 0)
    ensures HeaderAt(Flatten(blocks), 0)
  {
    assert blocks[..0] == [];
    NothingFlat();
    HeaderOfBlock(blocks, 0);
  }
}
