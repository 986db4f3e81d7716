/** The perf_event ring buffer and its sample records, as bytes.  Layout: "MMAP layout" of
    perf_event_open(2); numbers are little-endian. */
module PerfSpec {
  import opened ByteSeq

  const DATA_SIZE: nat := 0x2000
  const BUF_SIZE: nat := 4096
  /** u32 type, u16 misc, u16 size */
  const HEADER: nat := 8

  // ---------------------------------------------------------------- numbers

  function Encode(v: nat, n: nat): (r: Bytes)
    ensures |r| == n
  {
    if n == 0 then [] else [v % 256] + Encode(v / 256, n - 1)
  }

  function Decode(b: Bytes): nat {
    if b == [] then 0 else b[0] + 256 * Decode(b[1..])
  }

  function Pow256(n: nat): nat {
    if n == 0 then 1 else 256 * Pow256(n - 1)
  }

  lemma {:induction false} DecodeEncode(v: nat, n: nat)
    requires v < Pow256(n)
    ensures Decode(Encode(v, n)) == v
  {
    if n > 0 {
      DecodeEncode(v / 256, n - 1);
    }
  }

  // --------------------------------------------------------------- the ring

  /** The n bytes of the ring from a position on, wrapping round. */
  function Window(ring: Bytes, index: nat, n: nat): (r: Bytes)
    requires |ring| == DATA_SIZE
    ensures |r| == n
  {
    seq(n, k requires 0 <= k < n => ring[(index + k) % DATA_SIZE])
  }

  /** copy_from_ring_buffer: one piece, or two when it wraps. */
  function Copied(ring: Bytes, index: nat, n: nat): Bytes
    requires |ring| == DATA_SIZE && n <= DATA_SIZE
  {
    var start := index % DATA_SIZE;
    if start + n <= DATA_SIZE then ring[start..start + n] else ring[start..] + ring[..start + n - DATA_SIZE]
  }

  lemma CopiedIsWindow(ring: Bytes, index: nat, n: nat)
    requires |ring| == DATA_SIZE && n <= DATA_SIZE
    ensures Copied(ring, index, n) == Window(ring, index, n)
  {
    var c, w := Copied(ring, index, n), Window(ring, index, n);
    forall k | 0 <= k < n ensures c[k] == w[k] {
      WrapAt(index, k);
    }
  }

  lemma WrapAt(index: nat, k: nat)
    requires k < DATA_SIZE
    ensures var at := index % DATA_SIZE + k; (index + k) % DATA_SIZE == if at < DATA_SIZE then at else at - DATA_SIZE
  {
  }

  lemma WindowSplit(ring: Bytes, index: nat, a: nat, b: nat)
    requires |ring| == DATA_SIZE
    ensures Window(ring, index, a + b) == Window(ring, index, a) + Window(ring, index + a, b)
  {
    var w, l, r := Window(ring, index, a + b), Window(ring, index, a), Window(ring, index + a, b);
    forall k | 0 <= k < a + b ensures w[k] == (l + r)[k] {
      if k >= a {
        assert (l + r)[k] == r[k - a];
        assert index + a + (k - a) == index + k;
      }
    }
  }

  // ---------------------------------------------------------------- records

  /** The size a header states. */
  function SizeOf(r: Bytes): nat
    requires |r| >= HEADER
  {
    (r[6] as int) + 256 * (r[7] as int)
  }

  predicate WellFormed(r: Bytes) {
    HEADER <= |r| <= BUF_SIZE && SizeOf(r) == |r|
  }

  predicate AllWellFormed(rs: seq<Bytes>) {
    forall k | 0 <= k < |rs| :: WellFormed(rs[k])
  }

  /** The records lie in the ring one after the other from index to head. */
  ghost predicate LaidOut(ring: Bytes, index: nat, head: nat, rs: seq<Bytes>) {
    && |ring| == DATA_SIZE && AllWellFormed(rs)
    && head == index + |Flatten(rs)|
    && Window(ring, index, |Flatten(rs)|) == Flatten(rs)
  }

  /** iterator::has_data */
  predicate HasData(ring: Bytes, index: nat, head: nat)
    requires |ring| == DATA_SIZE
  {
    index + HEADER < head && index + SizeOf(Window(ring, index, HEADER)) <= head
  }

  /** What the iterator yields: all records, but for a bare header at the very end. */
  function Yielded(rs: seq<Bytes>): seq<Bytes> {
    if rs == [] || (|rs| == 1 && |rs[0]| == HEADER) then [] else [rs[0]] + Yielded(rs[1..])
  }

  /** The first record: there is data exactly when it is not a bare header at the end, its
      header gives its size, and its bytes are the next ones in the ring. */
  lemma FirstRecord(ring: Bytes, index: nat, head: nat, rs: seq<Bytes>)
    requires LaidOut(ring, index, head, rs) && rs != []
    ensures SizeOf(Window(ring, index, HEADER)) == |rs[0]|
    ensures Window(ring, index, |rs[0]|) == rs[0]
    ensures HasData(ring, index, head) <==> Yielded(rs) != []
    ensures LaidOut(ring, index + |rs[0]|, head, rs[1..])
  {
    var r, rest := rs[0], Flatten(rs[1..]);
    assert WellFormed(r);
    assert Flatten(rs) == r + rest;
    WindowSplit(ring, index, |r|, |rest|);
    var a, b := Window(ring, index, |r|), Window(ring, index + |r|, |rest|);
    assert (a + b)[..|r|] == a && (r + rest)[..|r|] == r;
    assert (a + b)[|r|..] == b && (r + rest)[|r|..] == rest;
    WindowSplit(ring, index, HEADER, |r| - HEADER);
    assert a[..HEADER] == Window(ring, index, HEADER);
    if |rs| > 1 {
      assert WellFormed(rs[1]) && Flatten(rs[1..]) == rs[1] + Flatten(rs[2..]) by { assert rs[1..][1..] == rs[2..]; }
    } else {
      assert rs[1..] == [];
    }
  }

  lemma NoRecord(ring: Bytes, index: nat, head: nat)
    requires LaidOut(ring, index, head, [])
    ensures !HasData(ring, index, head)
  {
  }

  /** Everything is read exactly when the last record is more than a header. */
  lemma {:induction false} AllYielded(rs: seq<Bytes>)
    requires AllWellFormed(rs)
    ensures Yielded(rs) == rs <==> rs == [] || |rs[|rs| - 1]| > HEADER
    ensures Yielded(rs) != rs ==> Yielded(rs) == rs[..|rs| - 1]
  {
    if rs != [] {
      assert WellFormed(rs[0]);
      assert rs == [rs[0]] + rs[1..];
      if |rs| > 1 {
        AllYielded(rs[1..]);
        assert rs[..|rs| - 1] == [rs[0]] + rs[1..][..|rs[1..]| - 1];
      }
    }
  }

  // ------------------------------------------------------------ sample layout

  /** The fields of a sample in the order of the layout, as far as the getters go. */
  const IDENTIFIER := 0
  const IP := 1
  const TID := 2
  const TIME := 3
  const ADDR := 4
  const ID := 5
  const STREAM_ID := 6
  const CPU := 7
  const PERIOD := 8
  const READ := 9
  const CALLCHAIN := 10
  const FIELDS := 11

  /** Which fields a sample type asks for. */
  type SampleType = t: seq<bool> | |t| == FIELDS witness seq(FIELDS, i => false)

  /** A sample's fields as bytes, absent ones included. */
  type Sample = s: seq<Bytes> | |s| == FIELDS && forall i | IDENTIFIER <= i <= PERIOD :: |s[i]| == 8
    witness seq(FIELDS, i => Encode(0, 8))

  /** The pieces a sample type puts into a record. */
  function Pieces(t: SampleType, s: Sample): (r: seq<Bytes>)
    ensures |r| == FIELDS && forall i | 0 <= i < FIELDS :: r[i] == if t[i] then s[i] else []
  {
    seq(FIELDS, i requires 0 <= i < FIELDS => if t[i] then s[i] else [])
  }

  /** A record: header, the asked fields, and what may follow them. */
  function SampleRecord(header: Bytes, t: SampleType, s: Sample, rest: Bytes): Bytes
    requires |header| == HEADER
  {
    header + Flatten(Pieces(t, s)) + rest
  }

  /** locate_field's walk: eight bytes for every asked field before the wanted one.  It knows
      neither the identifier nor, its macro being misspelt, the read values. */
  function Walk(t: SampleType, field: nat): nat
    requires IP <= field < FIELDS
  {
    if field == IP then HEADER
    else Walk(t, field - 1) + if t[field - 1] && field - 1 != READ then 8 else 0
  }

  /** Where a field really starts. */
  function Start(t: SampleType, s: Sample, field: nat): nat
    requires field < FIELDS
  {
    HEADER + |Flatten(Pieces(t, s)[..field])|
  }

  lemma StartNext(t: SampleType, s: Sample, field: nat)
    requires field + 1 < FIELDS
    ensures Start(t, s, field + 1) == Start(t, s, field) + if t[field] then |s[field]| else 0
  {
    FlattenNext(Pieces(t, s), field);
  }

  /** The walk is right exactly when the record has no identifier and, for the call chain, no
      read values. */
  lemma {:induction false} WalkIsStart(t: SampleType, s: Sample, field: nat)
    requires IP <= field < FIELDS
    ensures Start(t, s, field) == Walk(t, field) + (if t[IDENTIFIER] then 8 else 0)
                                  + (if field == CALLCHAIN && t[READ] then |s[READ]| else 0)
  {
    StartNext(t, s, field - 1);
    if field == IP {
      assert Pieces(t, s)[..0] == [];
    } else {
      WalkIsStart(t, s, field - 1);
    }
  }

  /** At its start a field's bytes can be read back. */
  lemma FieldAtStart(header: Bytes, t: SampleType, s: Sample, rest: Bytes, field: nat)
    requires |header| == HEADER && field < FIELDS && t[field]
    ensures var r, at := SampleRecord(header, t, s, rest), Start(t, s, field);
            at + |s[field]| <= |r| && r[at..at + |s[field]|] == s[field]
  {
    var p := Pieces(t, s);
    var before, after := Flatten(p[..field]), Flatten(p[field + 1..]);
    assert p == p[..field] + ([p[field]] + p[field + 1..]);
    FlattenSplit(p[..field], [p[field]] + p[field + 1..]);
    assert ([p[field]] + p[field + 1..])[1..] == p[field + 1..];
    assert SampleRecord(header, t, s, rest) == (header + before) + s[field] + (after + rest);
  }

  /** What a getter of an eight-byte field, or of its first or second half, reads. */
  function Get(r: Bytes, t: SampleType, field: nat, offset: nat, n: nat): nat
    requires IP <= field < FIELDS
  {
    var at := Walk(t, field) + offset;
    if at + n <= |r| then Decode(r[at..at + n]) else 0
  }

  /** get_ip, get_time, and the halves for get_pid, get_tid and get_cpu: for every sample type
      without the identifier, asked or unasked fields in any combination, the getter returns
      the encoded field. */
  lemma GetterReturnsField(header: Bytes, t: SampleType, s: Sample, rest: Bytes,
                                              field: nat, offset: nat, n: nat)
    requires |header| == HEADER && IP <= field <= PERIOD && t[field] && offset + n <= 8 && !t[IDENTIFIER]
    ensures Get(SampleRecord(header, t, s, rest), t, field, offset, n) == Decode(s[field][offset..offset + n])
  {
    WalkIsStart(t, s, field);
    FieldAtStart(header, t, s, rest, field);
    var r, at := SampleRecord(header, t, s, rest), Walk(t, field);
    assert r[at..at + 8][offset..offset + n] == r[at + offset..at + offset + n];
  }

  /** The values come back: a whole word for get_ip and get_time, its halves for get_pid,
      get_tid and get_cpu. */
  lemma {:induction false} NumbersReadBack(header: Bytes, t: SampleType, s: Sample, rest: Bytes, field: nat, a: nat, b: nat)
    requires |header| == HEADER && IP <= field <= PERIOD && t[field] && !t[IDENTIFIER]
    ensures a < Pow256(8) && s[field] == Encode(a, 8) ==> Get(SampleRecord(header, t, s, rest), t, field, 0, 8) == a
    ensures a < Pow256(4) && b < Pow256(4) && s[field] == Encode(a, 4) + Encode(b, 4) ==>
              && Get(SampleRecord(header, t, s, rest), t, field, 0, 4) == a
              && Get(SampleRecord(header, t, s, rest), t, field, 4, 4) == b
  {
    hide Pow256, Get, SampleRecord, Encode;
    GetterReturnsField(header, t, s, rest, field, 0, 8);
    GetterReturnsField(header, t, s, rest, field, 0, 4);
    GetterReturnsField(header, t, s, rest, field, 4, 4);
    assert s[field][0..8] == s[field];
    if a < Pow256(8) { DecodeEncode(a, 8); }
    if a < Pow256(4) && b < Pow256(4) {
      DecodeEncode(a, 4);
      DecodeEncode(b, 4);
      var both := Encode(a, 4) + Encode(b, 4);
      assert both[0..4] == Encode(a, 4) && both[4..8] == Encode(b, 4);
    }
  }

  /** A call chain: its length, then its addresses. */
  function Chain(pcs: seq<nat>): Bytes {
    Encode(|pcs|, 8) + Addresses(pcs)
  }

  function Addresses(pcs: seq<nat>): (r: Bytes)
    ensures |r| == 8 * |pcs|
  {
    if pcs == [] then [] else Encode(pcs[0], 8) + Addresses(pcs[1..])
  }

  /** get_callchain: as many words as the first one says. */
  function ReadWords(b: Bytes, at: nat, n: nat): seq<nat>
    requires at + 8 * n <= |b|
    decreases n
  {
    if n == 0 then [] else [Decode(b[at..at + 8])] + ReadWords(b, at + 8, n - 1)
  }

  lemma {:induction false} WordsReadBack(b: Bytes, at: nat, pcs: seq<nat>)
    requires at + 8 * |pcs| <= |b| && b[at..at + 8 * |pcs|] == Addresses(pcs)
    requires forall k | 0 <= k < |pcs| :: pcs[k] < Pow256(8)
    ensures ReadWords(b, at, |pcs|) == pcs
    decreases |pcs|
  {
    if pcs != [] {
      hide Pow256;
      var here, rest := Encode(pcs[0], 8), Addresses(pcs[1..]);
      var all := b[at..at + 8 * |pcs|];
      assert all[..8] == b[at..at + 8] && (here + rest)[..8] == here;
      assert all[8..] == b[at + 8..at + 8 + 8 * |pcs[1..]|] && (here + rest)[8..] == rest;
      DecodeEncode(pcs[0], 8);
      WordsReadBack(b, at + 8, pcs[1..]);
      assert pcs == [pcs[0]] + pcs[1..];
    }
  }

  /** get_callchain returns the encoded chain for every sample type without identifier and
      read values. */
  lemma {:induction false} ChainReadBack(header: Bytes, t: SampleType, s: Sample, rest: Bytes, pcs: seq<nat>)
    requires |header| == HEADER && t[CALLCHAIN] && !t[IDENTIFIER] && !t[READ]
    requires s[CALLCHAIN] == Chain(pcs) && |pcs| < Pow256(8) && forall k | 0 <= k < |pcs| :: pcs[k] < Pow256(8)
    ensures var r, at := SampleRecord(header, t, s, rest), Walk(t, CALLCHAIN);
            && Get(r, t, CALLCHAIN, 0, 8) == |pcs|
            && at + 8 + 8 * |pcs| <= |r|
            && ReadWords(r, at + 8, |pcs|) == pcs
  {
    hide Pow256;
    WalkIsStart(t, s, CALLCHAIN);
    FieldAtStart(header, t, s, rest, CALLCHAIN);
    var r, at := SampleRecord(header, t, s, rest), Walk(t, CALLCHAIN);
    var c := s[CALLCHAIN];
    var size, words := Encode(|pcs|, 8), Addresses(pcs);
    assert r[at..at + |c|] == size + words;
    assert r[at..at + |c|][..8] == r[at..at + 8] && (size + words)[..8] == size;
    assert r[at..at + |c|][8..] == r[at + 8..at + 8 + 8 * |pcs|] && (size + words)[8..] == words;
    DecodeEncode(|pcs|, 8);
    WordsReadBack(r, at + 8, pcs);
  }
}
