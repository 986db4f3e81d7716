/** The shared output window and the file writer of pbzip2 as they are: a circular buffer
    and counters changed in place, one method for each stretch of code under a mutex. */
module Pipeline {
  import opened ByteSeq
  import opened JoinedStreams
  import opened Options
  import opened PipelineProofs
  import opened PipelineSpec

  class OutputBuffer {
    const slots: array<Option<Bytes>>
    var nextBlockToWrite: nat
    var outBufferPosToWrite: nat

    ghost function View(): Window
      reads this, slots
    {
      Window(slots[..], nextBlockToWrite, outBufferPosToWrite)
    }

    constructor (size: nat)
      ensures View() == EmptyWindow(size) && fresh(slots)
    {
      slots := new Option<Bytes>[size](i => None);
      nextBlockToWrite, outBufferPosToWrite := 0, 0;
    }

    method GetOutputBufferPos(blockNum: nat) returns (pos: nat)
      requires WindowOk(View()) && InWindow(View(), blockNum)
      ensures pos == Slot(View(), blockNum) < slots.Length
    {
      pos := outBufferPosToWrite + blockNum - nextBlockToWrite;
      if pos >= slots.Length {
        pos := pos - slots.Length;
      }
    }

    /** The wait for the window is the precondition. */
    method Add(blockNum: nat, data: Bytes)
      requires WindowOk(View()) && InWindow(View(), blockNum)
      modifies slots
      ensures View() == PutBlock(old(View()), blockNum, data)
    {
      var pos := GetOutputBufferPos(blockNum);
      slots[pos] := Some(data);
    }
  }

  class FileWriter {
    const out: OutputBuffer
    var phase: Phase
    var currBlock: nat
    var outBufferPos: nat
    var file: Bytes

    ghost function View(): Writer
      reads this
    {
      Writer(phase, currBlock, outBufferPos, file)
    }

    constructor (buffer: OutputBuffer)
      ensures out == buffer && View() == Writer(Waiting, 0, 0, [])
    {
      out := buffer;
      phase, currBlock, outBufferPos, file := Waiting, 0, 0, [];
    }

    /** One look at the head slot, under the mutex. */
    method See()
      requires phase == Waiting && outBufferPos < out.slots.Length
      modifies this`phase
      ensures View() == if out.slots[outBufferPos].Some? then old(View()).(phase := Writing) else old(View())
    {
      if out.slots[outBufferPos].Some? {
        phase := Writing;
      }
    }

    method Write()
      requires phase == Writing && outBufferPos < out.slots.Length && out.slots[outBufferPos].Some?
      modifies this`phase, this`file
      ensures View() == Append(old(View()), out.slots[outBufferPos].value)
    {
      file := file + out.slots[outBufferPos].value;
      phase := Written;
    }

    /** Dispose of the written block and step to the next slot, outside the mutex. */
    method Clear()
      requires phase == Written && outBufferPos < out.slots.Length
      modifies this, out.slots
      ensures out.View() == Empty(old(out.View()), old(outBufferPos))
      ensures View() == MoveOn(old(View()), out.slots.Length)
    {
      out.slots[outBufferPos] := None;
      outBufferPos := outBufferPos + 1;
      if outBufferPos == out.slots.Length {
        outBufferPos := 0;
      }
      currBlock := currBlock + 1;
      phase := Cleared;
    }

    method Publish()
      requires phase == Cleared
      modifies this`phase, out`nextBlockToWrite, out`outBufferPosToWrite
      ensures out.View() == Advance(old(out.View()), outBufferPos)
      ensures View() == old(View()).(phase := Waiting)
    {
      out.nextBlockToWrite := out.nextBlockToWrite + 1;
      out.outBufferPosToWrite := outBufferPos;
      phase := Waiting;
    }

    /** The end of the writer, with the special case of an empty input. */
    method Quit()
      requires phase == Waiting
      modifies this`phase, this`file
      ensures View() == Stop(old(View()))
    {
      if currBlock == 0 {
        file := file + EmptyFile();
      }
      phase := Stopped;
    }
  }

  /** The loop of producer: read up to blockSize bytes and queue them, until a read gives
      nothing.  The queued blocks are returned. */
  method ReadBlocks(file: Bytes, blockSize: nat) returns (blocks: seq<Bytes>)
    requires 1 <= blockSize
    ensures blocks == Blocks(file, blockSize)
  {
    hide Blocks, Flatten;
    blocks := [];
    var pos := 0;
    assert Flatten(blocks) == file[..0] by { NothingFlat(); }
    while true
      invariant pos <= |file| && Flatten(blocks) == file[..pos]
      invariant forall k | 0 <= k < |blocks| :: 1 <= |blocks[k]| <= blockSize
      invariant forall k | 0 <= k < |blocks| && pos < |file| :: |blocks[k]| == blockSize
      invariant CutBy(blocks, blockSize)
      decreases |file| - pos
    {
      var inSize := if blockSize <= |file| - pos then blockSize else |file| - pos;
      if inSize == 0 {
        break;
      }
      var block := file[pos..pos + inSize];
      OneMore(blocks, block);
      assert file[..pos] + block == file[..pos + inSize];
      blocks := blocks + [block];
      pos := pos + inSize;
    }
    assert file[..pos] == file;
    BlocksAreUnique(file, blockSize, blocks);
  }

  lemma OneMore(blocks: seq<Bytes>, block: Bytes)
    ensures Flatten(blocks + [block]) == Flatten(blocks) + block
  {
    FlattenNext(blocks + [block], |blocks|);
    assert (blocks + [block])[..|blocks|] == blocks && (blocks + [block])[..|blocks| + 1] == blocks + [block];
  }
}
