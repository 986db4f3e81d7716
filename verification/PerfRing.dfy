/** The perf_event iterator as it is: an index into the mapped ring that each record moves
    on, a buffer the current record is copied into, and the tail written back at the end. */
module PerfRing {
  import opened ByteSeq
  import opened PerfSpec

  /** The mapped pages: the kernel moves the head, the reader the tail. */
  class Mapping {
    const data: array<Byte>
    var dataHead: nat
    var dataTail: nat

    constructor (bytes: Bytes, head: nat, tail: nat)
      ensures data[..] == bytes && dataHead == head && dataTail == tail && fresh(data)
    {
      data := new Byte[|bytes|](i requires 0 <= i < |bytes| => bytes[i]);
      dataHead, dataTail := head, tail;
    }
  }

  /** copy_from_ring_buffer */
  method CopyFromRingBuffer(mapping: Mapping, index: nat, dest: array<Byte>, bytes: nat)
    requires mapping.data.Length == DATA_SIZE && dest != mapping.data && bytes <= dest.Length && bytes <= DATA_SIZE
    modifies dest
    ensures dest[..bytes] == Window(mapping.data[..], index, bytes)
  {
    var startIndex := index % DATA_SIZE;
    var endIndex := startIndex + bytes;
    CopiedIsWindow(mapping.data[..], index, bytes);
    hide Window;
    if endIndex <= DATA_SIZE {
      forall k | 0 <= k < bytes {
        dest[k] := mapping.data[startIndex + k];
      }
    } else {
      var chunk2Size := endIndex - DATA_SIZE;
      var chunk1Size := bytes - chunk2Size;
      forall k | 0 <= k < chunk1Size {
        dest[k] := mapping.data[startIndex + k];
      }
      forall k | 0 <= k < chunk2Size {
        dest[chunk1Size + k] := mapping.data[k];
      }
    }
  }

  class Iterator {
    const mapping: Mapping?
    const head: nat
    const buf: array<Byte>
    var index: nat

    ghost predicate Valid()
      reads this
    {
      buf.Length == BUF_SIZE && (mapping != null ==> mapping.data.Length == DATA_SIZE && mapping.data != buf)
    }

    constructor (m: Mapping?)
      requires m != null ==> m.data.Length == DATA_SIZE
      ensures Valid() && mapping == m && fresh(buf)
      ensures index == (if m != null then m.dataTail else 0) && head == if m != null then m.dataHead else 0
    {
      mapping := m;
      index := if m != null then m.dataTail else 0;
      head := if m != null then m.dataHead else 0;
      buf := new Byte[BUF_SIZE](i => 0);
    }

    /** The size in the header at the index; every use of the iterator starts with it. */
    method HeaderSize() returns (size: nat)
      requires Valid() && mapping != null
      ensures size == SizeOf(Window(mapping.data[..], index, HEADER))
    {
      var hdr := new Byte[HEADER](i => 0);
      CopyFromRingBuffer(mapping, index, hdr, HEADER);
      size := (hdr[..HEADER][6] as int) + 256 * (hdr[..HEADER][7] as int);
    }

    method HasData() returns (r: bool)
      requires Valid()
      ensures r <==> mapping != null && PerfSpec.HasData(mapping.data[..], index, head)
    {
      r := false;
      if mapping != null && index + HEADER < head {
        var size := HeaderSize();
        r := index + size <= head;
      }
    }

    method Next()
      requires Valid() && mapping != null
      modifies this`index
      ensures index == old(index) + SizeOf(Window(mapping.data[..], old(index), HEADER))
    {
      var size := HeaderSize();
      index := index + size;
    }

    /** The record at the index, copied into the iterator's buffer. */
    method Get() returns (size: nat)
      requires Valid() && mapping != null && SizeOf(Window(mapping.data[..], index, HEADER)) <= BUF_SIZE
      modifies buf
      ensures size == SizeOf(Window(mapping.data[..], index, HEADER)) && buf[..size] == Window(mapping.data[..], index, size)
    {
      size := HeaderSize();
      CopyFromRingBuffer(mapping, index, buf, size);
    }

    /** One turn of a loop over the records: the record at the index, and on to the next. */
    method Take(ghost rest: seq<Bytes>) returns (record: Bytes)
      requires Valid() && mapping != null && LaidOut(mapping.data[..], index, head, rest) && rest != []
      modifies buf, this`index
      ensures record == rest[0] && LaidOut(mapping.data[..], index, head, rest[1..])
    {
      hide LaidOut, PerfSpec.HasData, Window, SizeOf;
      FirstRecord(mapping.data[..], index, head, rest);
      LaidOutMeans(mapping.data[..], index, head, rest);
      var size := Get();
      record := buf[..size];
      Next();
    }

    /** The destructor. */
    method Close()
      modifies if mapping == null then {} else {mapping}
      ensures mapping != null ==> mapping.dataTail == index && mapping.dataHead == old(mapping.dataHead)
    {
      if mapping != null {
        mapping.dataTail := index;
      }
    }
  }

  /** A whole pass over the ring, as a loop over the records makes it.  Any records laid out
      from tail to head come back in order, across the wrap; the tail ends at the head unless
      a bare header is last. */
  method ReadAll(mapping: Mapping, ghost records: seq<Bytes>) returns (result: seq<Bytes>)
    requires LaidOut(mapping.data[..], mapping.dataTail, mapping.dataHead, records)
    modifies mapping
    ensures result == Yielded(records) && mapping.dataHead == old(mapping.dataHead)
    ensures (records == [] || |records[|records| - 1]| > HEADER) ==> result == records && mapping.dataTail == mapping.dataHead
  {
    hide Yielded, LaidOut, HasData, Window, SizeOf;
    LaidOutMeans(mapping.data[..], mapping.dataTail, mapping.dataHead, records);
    var it := new Iterator(mapping);
    ghost var rest := records;
    result := [];
    AllYielded(records);
    var more := it.HasData();
    while more
      invariant it.mapping == mapping && it.head == mapping.dataHead && it.Valid() && fresh(it) && fresh(it.buf)
      invariant LaidOut(mapping.data[..], it.index, it.head, rest)
      invariant rest != [] ==> records != [] && rest[|rest| - 1] == records[|records| - 1]
      invariant result + Yielded(rest) == Yielded(records)
      invariant more <==> HasData(mapping.data[..], it.index, it.head)
      decreases |rest|
    {
      NonEmpty(mapping.data[..], it.index, it.head, rest);
      FirstRecord(mapping.data[..], it.index, it.head, rest);
      YieldedFirst(rest);
      var record := it.Take(rest);
      result := result + [record];
      rest := rest[1..];
      more := it.HasData();
    }
    Finished(mapping.data[..], it.index, it.head, rest);
    it.Close();
  }

  lemma LaidOutMeans(ring: Bytes, index: nat, head: nat, rs: seq<Bytes>)
    requires LaidOut(ring, index, head, rs)
    ensures |ring| == DATA_SIZE && AllWellFormed(rs) && (rs != [] ==> |rs[0]| <= BUF_SIZE) && index <= head
    ensures rs == [] ==> index == head
  {
    assert rs != [] ==> WellFormed(rs[0]);
  }

  lemma NonEmpty(ring: Bytes, index: nat, head: nat, rs: seq<Bytes>)
    requires LaidOut(ring, index, head, rs) && HasData(ring, index, head)
    ensures rs != []
  {
    if rs == [] {
      NoRecord(ring, index, head);
    }
  }

  lemma YieldedFirst(rs: seq<Bytes>)
    requires rs != [] && Yielded(rs) != []
    ensures Yielded(rs) == [rs[0]] + Yielded(rs[1..])
  {
  }

  lemma Finished(ring: Bytes, index: nat, head: nat, rs: seq<Bytes>)
    requires LaidOut(ring, index, head, rs) && !HasData(ring, index, head)
    ensures Yielded(rs) == [] && (rs == [] || (|rs| == 1 && |rs[0]| == HEADER))
    ensures index == head <==> rs == []
  {
    if rs != [] {
      FirstRecord(ring, index, head, rs);
      assert WellFormed(rs[0]);
      assert Flatten(rs) == rs[0] + Flatten(rs[1..]);
    }
  }
}
