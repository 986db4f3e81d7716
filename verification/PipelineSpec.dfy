/** The compression pipeline of pbzip2 as a state machine.  One step is what a thread
    does while it holds a mutex, or between two of them; a wait is a step's guard. */
module PipelineSpec {
  import opened ByteSeq
  import opened Options

  /** The compressed blocks in file order, and the two bounds. */
  datatype Job = Job(packed: seq<Bytes>, queueSize: nat, window: nat)

  datatype Consumer = Idle | Busy(block: nat) | Exited

  /** Where the writer is: waiting for the head slot, having seen it filled, having written
      it, having emptied it, or gone. */
  datatype Phase = Waiting | Writing | Written | Cleared | Stopped

  /** OutputBuffer, NextBlockToWrite and OutBufferPosToWrite. */
  datatype Window = Window(slots: seq<Option<Bytes>>, next: nat, pos: nat)

  /** The writer's own currBlock and outBufferPos, and the output file. */
  datatype Writer = Writer(phase: Phase, curr: nat, pos: nat, file: Bytes)

  datatype State = State(produced: nat, done: bool, queue: seq<nat>, consumers: seq<Consumer>, out: Window, writer: Writer)

  // ------------------------------------------------------------- the window

  /** outputBufferInit */
  function EmptyWindow(n: nat): Window {
    Window(seq(n, i => None), 0, 0)
  }

  /** getOutputBufferPos */
  function Slot(w: Window, b: int): int {
    var p := w.pos + b - w.next;
    if p >= |w.slots| then p - |w.slots| else p
  }

  predicate InWindow(w: Window, b: int) {
    w.next <= b < w.next + |w.slots|
  }

  predicate WindowOk(w: Window) {
    w.pos < |w.slots|
  }

  /** outputBufferAdd, once the block is inside the window */
  function PutBlock(w: Window, b: nat, data: Bytes): Window
    requires WindowOk(w) && InWindow(w, b)
  {
    w.(slots := w.slots[Slot(w, b) := Some(data)])
  }

  function NextPos(pos: nat, n: nat): nat {
    if pos + 1 == n then 0 else pos + 1
  }

  function Empty(w: Window, pos: nat): Window
    requires pos < |w.slots|
  {
    w.(slots := w.slots[pos := None])
  }

  function Advance(w: Window, pos: nat): Window {
    w.(next := w.next + 1, pos := pos)
  }

  // -------------------------------------------------------------- the steps

  /** The 14 bytes written for an empty input. */
  function EmptyFile(): Bytes {
    [0x42, 0x5A, 0x68, 0x39, 0x17, 0x72, 0x45, 0x38, 0x50, 0x90, 0, 0, 0, 0]
  }

  function Append(w: Writer, data: Bytes): Writer {
    w.(phase := Written, file := w.file + data)
  }

  function MoveOn(w: Writer, n: nat): Writer {
    w.(phase := Cleared, curr := w.curr + 1, pos := NextPos(w.pos, n))
  }

  function Stop(w: Writer): Writer {
    w.(phase := Stopped, file := w.file + if w.curr == 0 then EmptyFile() else [])
  }

  function Init(job: Job, consumers: nat): State {
    State(0, false, [], seq(consumers, i => Idle), EmptyWindow(job.window), Writer(Waiting, 0, 0, []))
  }

  datatype Step = Produce | Finish | Take(i: nat) | Exit(i: nat) | Put(i: nat) | See | Write | Clear | Publish | Quit

  predicate HeadFilled(st: State) {
    st.writer.pos < |st.out.slots| && st.out.slots[st.writer.pos].Some?
  }

  predicate Enabled(job: Job, st: State, step: Step) {
    match step
    case Produce => !st.done && st.produced < |job.packed| && |st.queue| < job.queueSize
    case Finish => !st.done && st.produced == |job.packed|
    case Take(i) => i < |st.consumers| && st.consumers[i].Idle? && st.queue != []
    case Exit(i) => i < |st.consumers| && st.consumers[i].Idle? && st.queue == [] && st.done
    case Put(i) =>
      && i < |st.consumers| && st.consumers[i].Busy? && st.consumers[i].block < |job.packed|
      && WindowOk(st.out) && InWindow(st.out, st.consumers[i].block)
    case See => st.writer.phase == Waiting && HeadFilled(st)
    case Write => st.writer.phase == Writing && HeadFilled(st)
    case Clear => st.writer.phase == Written && st.writer.pos < |st.out.slots|
    case Publish => st.writer.phase == Cleared
    case Quit => st.writer.phase == Waiting && st.done && st.writer.curr >= st.produced
  }

  function Do(job: Job, st: State, step: Step): State
    requires Enabled(job, st, step)
  {
    match step
    case Produce => st.(queue := st.queue + [st.produced], produced := st.produced + 1)
    case Finish => st.(done := true)
    case Take(i) => st.(consumers := st.consumers[i := Busy(st.queue[0])], queue := st.queue[1..])
    case Exit(i) => st.(consumers := st.consumers[i := Exited])
    case Put(i) =>
      var b := st.consumers[i].block;
      st.(consumers := st.consumers[i := Idle], out := PutBlock(st.out, b, job.packed[b]))
    case See => st.(writer := st.writer.(phase := Writing))
    case Write =>
      st.(writer := Append(st.writer, st.out.slots[st.writer.pos].value))
    case Clear =>
      st.(out := Empty(st.out, st.writer.pos), writer := MoveOn(st.writer, |st.out.slots|))
    case Publish => st.(out := Advance(st.out, st.writer.pos), writer := st.writer.(phase := Waiting))
    case Quit => st.(writer := Stop(st.writer))
  }

  // ----------------------------------------------------------- the invariant

  /** Blocks below this have left the queue. */
  function Taken(st: State): int {
    st.produced - |st.queue|
  }

  predicate Held(st: State, b: nat) {
    Busy(b) in st.consumers
  }

  /** How many whole blocks are in the file. */
  function Emitted(st: State): nat {
    st.out.next + if st.writer.phase == Written || st.writer.phase == Cleared then 1 else 0
  }

  /** The queue is the run of blocks between those taken and those produced. */
  predicate QueueOk(job: Job, st: State) {
    && |st.queue| <= job.queueSize && |st.queue| <= st.produced <= |job.packed|
    && (st.done ==> st.produced == |job.packed|)
    && (forall k | 0 <= k < |st.queue| :: st.queue[k] == Taken(st) + k)
  }

  predicate ConsumerOk(st: State, i: nat)
    requires i < |st.consumers|
  {
    match st.consumers[i]
    case Idle => true
    case Busy(b) => st.writer.curr <= b < Taken(st)
    case Exited => st.done && st.queue == []
  }

  predicate ConsumersOk(st: State) {
    && (forall i | 0 <= i < |st.consumers| :: ConsumerOk(st, i))
    && (forall i, j | 0 <= i < j < |st.consumers| && st.consumers[i].Busy? :: st.consumers[i] != st.consumers[j])
  }

  predicate WriterOk(job: Job, st: State) {
    var w := st.writer;
    && |st.out.slots| == job.window && WindowOk(st.out)
    && w.curr == st.out.next + (if w.phase == Cleared then 1 else 0) && w.curr <= Taken(st)
    && w.pos == (if w.phase == Cleared then NextPos(st.out.pos, job.window) else st.out.pos)
    && (w.phase == Writing || w.phase == Written ==> st.out.next < Taken(st) && !Held(st, st.out.next))
    && (w.phase == Stopped ==> st.done && st.out.next == st.produced)
  }

  predicate FileOk(job: Job, st: State) {
    && Emitted(st) <= |job.packed|
    && st.writer.file == Flatten(job.packed[..Emitted(st)])
                         + if st.writer.phase == Stopped && st.out.next == 0 then EmptyFile() else []
  }

  /** What the slot of block b holds: the block, if it is finished and not yet written. */
  function Content(job: Job, st: State, b: nat): Option<Bytes> {
    if st.writer.curr <= b < Taken(st) && b < |job.packed| && !Held(st, b) then Some(job.packed[b]) else None
  }

  predicate SlotOk(job: Job, st: State, b: nat) {
    0 <= Slot(st.out, b) < |st.out.slots| && st.out.slots[Slot(st.out, b)] == Content(job, st, b)
  }

  predicate SlotsOk(job: Job, st: State) {
    forall b: nat | st.out.next <= b < st.out.next + |st.out.slots| :: SlotOk(job, st, b)
  }

  /** A taken block past the window is still with its consumer. */
  ghost predicate FarHeld(st: State) {
    forall b: nat | st.out.next + |st.out.slots| <= b < Taken(st) :: Held(st, b)
  }

  ghost predicate Inv(job: Job, st: State) {
    QueueOk(job, st) && ConsumersOk(st) && WriterOk(job, st) && FileOk(job, st) && SlotsOk(job, st) && FarHeld(st)
  }

  // ------------------------------------------------------------------ runs

  predicate Legal(job: Job, st: State, steps: seq<Step>)
    decreases |steps|
  {
    steps == [] || (Enabled(job, st, steps[0]) && Legal(job, Do(job, st, steps[0]), steps[1..]))
  }

  function Run(job: Job, st: State, steps: seq<Step>): State
    requires Legal(job, st, steps)
    decreases |steps|
  {
    if steps == [] then st else Run(job, Do(job, st, steps[0]), steps[1..])
  }
}
