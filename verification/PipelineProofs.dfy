/** What the compression pipeline keeps under every interleaving, and that it ends. */
module PipelineProofs {
  import opened ByteSeq
  import opened Bz2Format
  import opened JoinedStreams
  import opened Options
  import opened PipelineSpec

  // ----------------------------------------------------- the circular window

  /** Blocks of the window have slots of their own. */
  lemma SlotsDiffer(w: Window, a: int, b: int)
    requires WindowOk(w) && InWindow(w, a) && InWindow(w, b) && a != b
    ensures 0 <= Slot(w, a) < |w.slots| && Slot(w, a) != Slot(w, b)
  {
  }

  /** Advancing the window does not move the blocks that stay in it; the block that
      enters gets the slot of the one that leaves. */
  lemma SlotKept(w: Window, b: int)
    requires WindowOk(w) && InWindow(w, b)
    ensures var w' := Advance(w, NextPos(w.pos, |w.slots|));
            WindowOk(w') && Slot(w', if b == w.next then b + |w.slots| else b) == Slot(w, b)
  {
  }

  // ------------------------------------------------------------- consumers

  lemma HeldAfter(s: seq<Consumer>, i: nat, x: Consumer, b: nat)
    requires i < |s| && forall k, l | 0 <= k < l < |s| && s[k].Busy? :: s[k] != s[l]
    ensures Busy(b) in s[i := x] <==> (x == Busy(b) || (Busy(b) in s && s[i] != Busy(b)))
  {
    var t := s[i := x];
    if Busy(b) in s && s[i] != Busy(b) {
      var k :| 0 <= k < |s| && s[k] == Busy(b);
      assert t[k] == Busy(b);
    }
    if x == Busy(b) {
      assert t[i] == Busy(b);
    }
  }

  lemma HeldIsTaken(st: State, b: nat)
    requires ConsumersOk(st) && Held(st, b)
    ensures st.writer.curr <= b < Taken(st)
  {
    var i :| 0 <= i < |st.consumers| && st.consumers[i] == Busy(b);
    assert ConsumerOk(st, i);
  }

  // ------------------------------------------------ every step keeps Inv

  lemma InitOk(job: Job, n: nat)
    requires 1 <= job.window
    ensures Inv(job, Init(job, n))
  {
    assert job.packed[..0] == [];
  }

  lemma QueueKept(job: Job, st: State, step: Step)
    requires Inv(job, st) && Enabled(job, st, step)
    ensures QueueOk(job, Do(job, st, step))
    ensures Taken(Do(job, st, step)) == Taken(st) + if step.Take? then 1 else 0
    ensures step.Take? ==> st.queue[0] == Taken(st)
  {
    hide ConsumersOk, WriterOk, FileOk, SlotsOk, FarHeld;
  }

  lemma ConsumersKept(job: Job, st: State, step: Step)
    requires Inv(job, st) && Enabled(job, st, step)
    ensures ConsumersOk(Do(job, st, step))
  {
    hide FileOk, SlotsOk, FarHeld;
    QueueKept(job, st, step);
    var st' := Do(job, st, step);
    forall i | 0 <= i < |st'.consumers| ensures ConsumerOk(st', i) {
      assert ConsumerOk(st, i);
      assert st.consumers[i].Busy? ==> Held(st, st.consumers[i].block);
    }
    forall i, j | 0 <= i < j < |st'.consumers| && st'.consumers[i].Busy? ensures st'.consumers[i] != st'.consumers[j] {
      assert ConsumerOk(st, i) && ConsumerOk(st, j);
    }
  }

  /** Who holds what changes only by taking and putting. */
  lemma HeldNow(job: Job, st: State, step: Step, b: nat)
    requires ConsumersOk(st) && Enabled(job, st, step)
    ensures Held(Do(job, st, step), b) <==>
            (step.Take? && b == st.queue[0]) || (Held(st, b) && !(step.Put? && st.consumers[step.i] == Busy(b)))
  {
    if step.Take? {
      HeldAfter(st.consumers, step.i, Busy(st.queue[0]), b);
    } else if step.Put? {
      HeldAfter(st.consumers, step.i, Idle, b);
    } else if step.Exit? {
      HeldAfter(st.consumers, step.i, Exited, b);
    }
  }

  lemma WriterKept(job: Job, st: State, step: Step)
    requires Inv(job, st) && Enabled(job, st, step)
    ensures WriterOk(job, Do(job, st, step))
  {
    hide FileOk, FarHeld, Held, ConsumersOk;
    QueueKept(job, st, step);
    HeldNow(job, st, step, st.out.next);
    assert SlotOk(job, st, st.out.next);
  }

  lemma FileKept(job: Job, st: State, step: Step)
    requires Inv(job, st) && Enabled(job, st, step)
    ensures FileOk(job, Do(job, st, step))
  {
    hide FarHeld, Held, ConsumersOk, Flatten, EmptyFile;
    assert SlotOk(job, st, st.out.next);
    if step.Write? {
      FlattenNext(job.packed, st.out.next);
    }
  }

  /** The block that enters the window finds the slot of the one that left, empty. */
  lemma SlotEntered(job: Job, st: State, b: nat)
    requires Inv(job, st) && Enabled(job, st, Publish) && b == st.out.next + |st.out.slots|
    ensures SlotOk(job, Do(job, st, Publish), b)
  {
    hide FileOk, QueueOk, Held, ConsumersOk;
    assert SlotOk(job, st, st.out.next);
    HeldNow(job, st, Publish, b);
    SlotKept(st.out, st.out.next);
  }

  lemma SlotPut(job: Job, st: State, i: nat, b: nat)
    requires Inv(job, st) && Enabled(job, st, Put(i)) && InWindow(st.out, b)
    ensures SlotOk(job, Do(job, st, Put(i)), b)
  {
    hide FarHeld, FileOk, QueueOk, Held, ConsumersOk;
    HeldNow(job, st, Put(i), b);
    assert SlotOk(job, st, b);
    var c := st.consumers[i].block;
    if b == c {
      assert Held(st, b) by { HeldAt(st, i); }
      HeldIsTaken(st, b);
    } else {
      SlotsDiffer(st.out, b, c);
    }
  }

  lemma HeldAt(st: State, i: nat)
    requires i < |st.consumers| && st.consumers[i].Busy?
    ensures Held(st, st.consumers[i].block)
  {
  }

  lemma SlotKeptBy(job: Job, st: State, step: Step, b: nat)
    requires Inv(job, st) && Enabled(job, st, step) && InWindow(Do(job, st, step).out, b)
    ensures SlotOk(job, Do(job, st, step), b)
  {
    hide FarHeld, FileOk, QueueOk, Held, ConsumersOk;
    if step.Put? {
      SlotPut(job, st, step.i, b);
    } else if step.Publish? && !InWindow(st.out, b) {
      SlotEntered(job, st, b);
    } else {
      QueueKept(job, st, step);
      HeldNow(job, st, step, b);
      assert SlotOk(job, st, b);
      if step.Publish? {
        SlotKept(st.out, b);
      } else if step.Clear? && b != st.out.next {
        SlotsDiffer(st.out, b, st.out.next);
      }
    }
  }

  lemma FarKept(job: Job, st: State, step: Step)
    requires Inv(job, st) && Enabled(job, st, step)
    ensures FarHeld(Do(job, st, step))
  {
    hide FileOk, QueueOk, Held, ConsumersOk, SlotsOk;
    QueueKept(job, st, step);
    var st' := Do(job, st, step);
    forall b: nat | st'.out.next + |st'.out.slots| <= b < Taken(st') ensures Held(st', b) {
      HeldNow(job, st, step, b);
    }
  }

  lemma StepKeepsInv(job: Job, st: State, step: Step)
    requires Inv(job, st) && Enabled(job, st, step)
    ensures Inv(job, Do(job, st, step))
  {
    hide Enabled, Do, QueueOk, ConsumersOk, WriterOk, FileOk, SlotOk, FarHeld;
    QueueKept(job, st, step);
    ConsumersKept(job, st, step);
    WriterKept(job, st, step);
    FileKept(job, st, step);
    FarKept(job, st, step);
    var st' := Do(job, st, step);
    forall b: nat | st'.out.next <= b < st'.out.next + |st'.out.slots| ensures SlotOk(job, st', b) {
      SlotKeptBy(job, st, step, b);
    }
  }

  // -------------------------------------------------------- safety, stated

  /** A finished block never lands on one that is still to be written. */
  lemma PutFindsEmptySlot(job: Job, st: State, i: nat)
    requires Inv(job, st) && Enabled(job, st, Put(i))
    ensures st.out.slots[Slot(st.out, st.consumers[i].block)] == None
  {
    hide FarHeld, FileOk, QueueOk, ConsumersOk, Held;
    HeldAt(st, i);
    assert SlotOk(job, st, st.consumers[i].block);
  }

  /** If every consumer is stuck behind the window and the writer is waiting, then the
      block it waits for is there: blocks leave the queue in order, so somebody took it
      and is not the one being throttled. */
  lemma ThrottledMeansReady(job: Job, st: State)
    requires Inv(job, st) && st.consumers != [] && st.writer.phase == Waiting
    requires forall i | 0 <= i < |st.consumers| :: st.consumers[i].Busy? && !InWindow(st.out, st.consumers[i].block)
    ensures HeadFilled(st) && Enabled(job, st, See)
  {
    hide FarHeld, FileOk;
    assert ConsumerOk(st, 0);
    assert !Held(st, st.out.next);
    assert SlotOk(job, st, st.out.next);
  }

  predicate Final(st: State) {
    st.done && st.writer.phase == Stopped && forall i | 0 <= i < |st.consumers| :: st.consumers[i].Exited?
  }

  lemma WriterWaits(job: Job, st: State) returns (step: Step)
    requires Inv(job, st) && 1 <= job.queueSize && st.consumers != []
    requires st.writer.phase == Waiting && !HeadFilled(st)
    ensures Enabled(job, st, step)
  {
    hide FarHeld, FileOk, ConsumersOk;
    assert SlotOk(job, st, st.out.next);
    if Held(st, st.out.next) {
      var i :| 0 <= i < |st.consumers| && st.consumers[i] == Busy(st.out.next);
      step := ConsumerPuts(job, st, i);
    } else if st.queue != [] {
      step := SomeoneTakes(job, st);
    } else if st.done {
      step := Quit;
    } else if st.produced < |job.packed| {
      step := Produce;
    } else {
      step := Finish;
    }
  }

  lemma ConsumerPuts(job: Job, st: State, i: nat) returns (step: Step)
    requires Inv(job, st) && i < |st.consumers| && st.consumers[i] == Busy(st.out.next)
    ensures Enabled(job, st, step)
  {
    hide FarHeld, FileOk, SlotsOk;
    assert ConsumerOk(st, i);
    step := Put(i);
  }

  /** With every taken block written and a queued one left, consumer 0 is idle. */
  lemma SomeoneTakes(job: Job, st: State) returns (step: Step)
    requires Inv(job, st) && st.consumers != [] && st.queue != [] && st.out.next >= Taken(st)
    ensures Enabled(job, st, step)
  {
    hide FarHeld, FileOk, SlotsOk;
    assert ConsumerOk(st, 0);
    step := Take(0);
  }

  /** No deadlock: as long as anything is left to do, some thread can do it. */
  lemma NoDeadlock(job: Job, st: State) returns (step: Step)
    requires Inv(job, st) && 1 <= job.queueSize && st.consumers != [] && !Final(st)
    ensures Enabled(job, st, step)
  {
    hide FarHeld, FileOk, SlotsOk;
    match st.writer.phase
    case Waiting =>
      if HeadFilled(st) { step := See; } else { step := WriterWaits(job, st); }
    case Writing =>
      WritingHasBlock(job, st);
      step := Write;
    case Written => step := Clear;
    case Cleared => step := Publish;
    case Stopped =>
      var i :| 0 <= i < |st.consumers| && !st.consumers[i].Exited?;
      assert ConsumerOk(st, i);
      step := Exit(i);
  }

  lemma WritingHasBlock(job: Job, st: State)
    requires Inv(job, st) && st.writer.phase == Writing
    ensures HeadFilled(st)
  {
    hide FarHeld, ConsumersOk, Held;
    assert SlotOk(job, st, st.out.next);
  }

  // ------------------------------------------------- the circular position

  lemma ModNext(a: nat, n: nat)
    requires 1 <= n
    ensures (a + 1) % n == NextPos(a % n, n)
  {
    var q, r := a / n, a % n;
    assert a + 1 == q * n + (r + 1);
    if r + 1 == n {
      assert a + 1 == (q + 1) * n;
      ModOf(a + 1, q + 1, 0, n);
    } else {
      ModOf(a + 1, q, r + 1, n);
    }
  }

  lemma SmallMultiple(d: int, n: int)
    requires n >= 1
    ensures d >= 1 ==> d * n >= n
    ensures d <= -1 ==> d * n <= -n
  {
    if d >= 1 {
      assert d * n - n == (d - 1) * n;
    } else if d <= -1 {
      assert d * n + n == (d + 1) * n;
    }
  }

  lemma ModOf(a: int, q: int, r: int, n: int)
    requires 0 <= r < n && a == q * n + r
    ensures a % n == r
  {
    var q', r' := a / n, a % n;
    assert a == q' * n + r';
    assert (q - q') * n == q * n - q' * n;
    SmallMultiple(q - q', n);
  }

  /** In the window, the code's wrap-around position is the block number modulo the window. */
  lemma {:induction false} SlotIsModulo(w: Window, b: nat)
    requires |w.slots| >= 1 && w.pos == w.next % |w.slots| && InWindow(w, b)
    ensures Slot(w, b) == b % |w.slots|
    decreases b - w.next
  {
    if b > w.next {
      SlotIsModulo(w, b - 1);
      ModNext(b - 1, |w.slots|);
    }
  }

  lemma PosKept(job: Job, st: State, step: Step)
    requires Inv(job, st) && Enabled(job, st, step) && st.out.pos == st.out.next % job.window
    ensures var st' := Do(job, st, step); st'.out.pos == st'.out.next % job.window
  {
    hide FarHeld, FileOk, QueueOk, ConsumersOk, SlotsOk, Held;
    ModNext(st.out.next, job.window);
  }

  // --------------------------------------------------- counting the steps

  function Weight(c: Consumer): int {
    match c
    case Idle => 0
    case Busy(_) => -1
    case Exited => 1
  }

  function Weights(s: seq<Consumer>): int {
    if s == [] then 0 else Weight(s[0]) + Weights(s[1..])
  }

  lemma {:induction false} WeightsSet(s: seq<Consumer>, i: nat, x: Consumer)
    requires i < |s|
    ensures Weights(s[i := x]) == Weights(s) - Weight(s[i]) + Weight(x)
  {
    if i == 0 {
      assert s[i := x][1..] == s[1..];
    } else {
      assert s[i := x][1..] == s[1..][i - 1 := x];
      WeightsSet(s[1..], i - 1, x);
    }
  }

  lemma {:induction false} WeightsBound(s: seq<Consumer>)
    ensures Weights(s) <= |s|
    ensures Weights(s) == |s| <==> forall i | 0 <= i < |s| :: s[i].Exited?
  {
    if s != [] {
      WeightsBound(s[1..]);
      assert s == [s[0]] + s[1..];
    }
  }

  function PhaseSteps(p: Phase): nat {
    match p
    case Waiting => 0
    case Writing => 1
    case Written => 2
    case Cleared => 3
    case Stopped => 1
  }

  /** The number of steps taken to reach a state. */
  function Progress(st: State): int {
    st.produced + (if st.done then 1 else 0) + 2 * Taken(st) + Weights(st.consumers)
    + 4 * st.out.next + PhaseSteps(st.writer.phase)
  }

  /** Seven steps a block, one for each consumer to leave, one each for producer and writer. */
  function TotalSteps(job: Job, consumers: nat): nat {
    7 * |job.packed| + 2 + consumers
  }

  lemma EachStepCounts(job: Job, st: State, step: Step)
    requires Inv(job, st) && Enabled(job, st, step)
    ensures Progress(Do(job, st, step)) == Progress(st) + 1
    ensures |Do(job, st, step).consumers| == |st.consumers|
  {
    hide FarHeld, FileOk, QueueOk, ConsumersOk, SlotsOk, Held, Weights;
    if step.Take? {
      WeightsSet(st.consumers, step.i, Busy(st.queue[0]));
    } else if step.Exit? {
      WeightsSet(st.consumers, step.i, Exited);
    } else if step.Put? {
      WeightsSet(st.consumers, step.i, Idle);
    }
  }

  lemma InitCounts(job: Job, n: nat)
    ensures Progress(Init(job, n)) == 0
  {
    IdleWeighNothing(seq(n, i => Idle));
  }

  lemma {:induction false} IdleWeighNothing(s: seq<Consumer>)
    requires forall i | 0 <= i < |s| :: s[i] == Idle
    ensures Weights(s) == 0
  {
    if s != [] { IdleWeighNothing(s[1..]); }
  }

  lemma ProgressBound(job: Job, st: State)
    requires Inv(job, st)
    ensures Progress(st) <= TotalSteps(job, |st.consumers|)
    ensures Final(st) <==> Progress(st) == TotalSteps(job, |st.consumers|)
  {
    hide FarHeld, FileOk, ConsumersOk, SlotsOk, Held, Weights;
    WeightsBound(st.consumers);
  }

  // -------------------------------------------------------- whole runs

  lemma {:induction false} RunKeeps(job: Job, st: State, steps: seq<Step>)
    requires Inv(job, st) && st.out.pos == st.out.next % |st.out.slots| && Legal(job, st, steps)
    ensures var end := Run(job, st, steps);
            && Inv(job, end) && |end.consumers| == |st.consumers|
            && end.out.pos == end.out.next % |end.out.slots|
            && Progress(end) == Progress(st) + |steps|
    decreases |steps|
  {
    hide QueueOk, ConsumersOk, SlotsOk, FarHeld, FileOk, Enabled, Do, Progress, Held;
    if steps != [] {
      var next := Do(job, st, steps[0]);
      StepKeepsInv(job, st, steps[0]);
      PosKept(job, st, steps[0]);
      EachStepCounts(job, st, steps[0]);
      RunKeeps(job, next, steps[1..]);
    }
  }

  /** Ordered output: under every interleaving, until the writer stops, the file is the
      compressed blocks in file order, as many as were written. */
  lemma OutputInOrder(job: Job, n: nat, steps: seq<Step>)
    requires 1 <= job.window && Legal(job, Init(job, n), steps)
    ensures var st := Run(job, Init(job, n), steps);
            && Emitted(st) <= |job.packed|
            && (st.writer.phase != Stopped ==> st.writer.file == Flatten(job.packed[..Emitted(st)]))
  {
    hide QueueOk, ConsumersOk, SlotsOk, FarHeld, Enabled, Do, Progress, Held, Legal, Run, Flatten, EmptyFile;
    InitOk(job, n);
    RunKeeps(job, Init(job, n), steps);
  }

  function Expected(job: Job): Bytes {
    Flatten(job.packed) + if job.packed == [] then EmptyFile() else []
  }

  /** Every run stops, all complete runs take the same number of steps, and a run that
      cannot go on has written the whole file: no interleaving hangs or differs. */
  lemma EveryRunCompletes(job: Job, n: nat, steps: seq<Step>)
    requires 1 <= job.window && 1 <= job.queueSize && 1 <= n && Legal(job, Init(job, n), steps)
    ensures var st := Run(job, Init(job, n), steps);
            && |steps| <= TotalSteps(job, n)
            && ((forall step :: !Enabled(job, st, step)) <==> |steps| == TotalSteps(job, n))
            && (|steps| == TotalSteps(job, n) ==> Final(st) && st.writer.file == Expected(job))
  {
    var st := Run(job, Init(job, n), steps);
    InitOk(job, n);
    InitCounts(job, n);
    RunKeeps(job, Init(job, n), steps);
    ProgressBound(job, st);
    hide QueueOk, ConsumersOk, SlotsOk, FarHeld, Enabled, Do, Progress, Held, Legal, Run, Flatten, EmptyFile;
    if Final(st) {
      FinalFile(job, st);
      forall step ensures !Enabled(job, st, step) {
        FinalStops(job, st, step);
      }
    } else {
      var step := NoDeadlock(job, st);
    }
  }

  lemma FinalStops(job: Job, st: State, step: Step)
    requires Inv(job, st) && Final(st)
    ensures !Enabled(job, st, step)
  {
    if Enabled(job, st, step) {
      StepKeepsInv(job, st, step);
      EachStepCounts(job, st, step);
      ProgressBound(job, st);
      ProgressBound(job, Do(job, st, step));
    }
  }

  lemma FinalFile(job: Job, st: State)
    requires Inv(job, st) && Final(st)
    ensures st.writer.file == Expected(job)
  {
    hide ConsumersOk, SlotsOk, FarHeld, Held, Flatten, EmptyFile;
    assert job.packed[..|job.packed|] == job.packed;
  }

  /** What is written for an empty input is one bzip2 stream, by the scanner's own notion. */
  lemma EmptyFileIsStream()
    ensures HeaderAt(EmptyFile(), 0) && Streams(EmptyFile()) == [EmptyFile()]
    ensures EndMagicAt(EmptyFile(), 4) && |EmptyFile()| == 14 && forall i | 10 <= i < 14 :: EmptyFile()[i] == 0
  {
    var f := EmptyFile();
    forall j | 1 <= j < |f| ensures !HeaderAt(f, j) {
    }
    NextHeaderUnique(f, 1, |f|);
    assert f[0..|f|] == f;
    assert StreamsFrom(f, |f|) == [];
  }

  // ------------------------------------------------------ from file to file

  /** No piece is empty or too long, and all but the last are full. */
  predicate CutBy(pieces: seq<Bytes>, blockSize: nat) {
    && (forall k | 0 <= k < |pieces| :: 1 <= |pieces[k]| <= blockSize)
    && (forall k | 0 <= k < |pieces| - 1 :: |pieces[k]| == blockSize)
  }

  /** The producer's reads: blockSize bytes at a time, the last one shorter. */
  function Blocks(file: Bytes, blockSize: nat): (r: seq<Bytes>)
    requires 1 <= blockSize
    ensures Flatten(r) == file
    ensures CutBy(r, blockSize)
    decreases |file|
  {
    if file == [] then []
    else if |file| <= blockSize then
      assert Flatten([file]) == file + Flatten([]);
      [file]
    else
      var rest := Blocks(file[blockSize..], blockSize);
      assert file == file[..blockSize] + file[blockSize..];
      assert ([file[..blockSize]] + rest)[1..] == rest;
      [file[..blockSize]] + rest
  }

  /** There is one way to cut a file like that. */
  lemma {:induction false} BlocksAreUnique(file: Bytes, blockSize: nat, pieces: seq<Bytes>)
    requires 1 <= blockSize && CutBy(pieces, blockSize) && Flatten(pieces) == file
    ensures pieces == Blocks(file, blockSize)
    decreases |pieces|
  {
    if |pieces| > 1 {
      var rest := pieces[1..];
      assert forall k | 0 <= k < |rest| :: rest[k] == pieces[k + 1];
      assert file[blockSize..] == Flatten(rest) && file[..blockSize] == pieces[0];
      assert |Flatten(rest)| >= 1;
      BlocksAreUnique(file[blockSize..], blockSize, rest);
    } else if |pieces| == 1 {
      assert pieces[1..] == [];
      assert Flatten(pieces) == pieces[0] + Flatten([]);
      assert file == pieces[0] && Blocks(file, blockSize) == [file];
    }
  }

  /** What the file has from lo on, up to hi or the end. */
  function Stretch(file: Bytes, lo: nat, hi: nat): Bytes {
    if lo <= hi <= |file| then file[lo..hi] else if lo <= |file| then file[lo..] else []
  }

  /** So there are as many as the length divided by blockSize, rounded up, and block k is what
      the file has from k times blockSize on, up to the next multiple or the end. */
  lemma {:induction false} BlockIs(file: Bytes, blockSize: nat, k: nat)
    requires 1 <= blockSize
    ensures k < |Blocks(file, blockSize)| <==> k * blockSize < |file|
    ensures k < |Blocks(file, blockSize)| ==>
              Blocks(file, blockSize)[k] == Stretch(file, k * blockSize, (k + 1) * blockSize)
    decreases k
  {
    hide Blocks, Stretch;
    NextMultiple(k, blockSize);
    BlocksBegin(file, blockSize);
    if |file| > blockSize && k > 0 {
      BlockIs(file[blockSize..], blockSize, k - 1);
      StretchBehind(file, blockSize, (k - 1) * blockSize, k * blockSize);
    }
  }

  lemma BlocksBegin(file: Bytes, blockSize: nat)
    requires 1 <= blockSize
    ensures file == [] ==> Blocks(file, blockSize) == []
    ensures 0 < |file| <= blockSize ==> Blocks(file, blockSize) == [file]
    ensures |file| > blockSize ==> Blocks(file, blockSize) == [file[..blockSize]] + Blocks(file[blockSize..], blockSize)
    ensures file != [] ==> Blocks(file, blockSize)[0] == Stretch(file, 0, blockSize)
  {
  }

  lemma StretchBehind(file: Bytes, n: nat, lo: nat, hi: nat)
    requires n <= |file|
    ensures Stretch(file[n..], lo, hi) == Stretch(file, n + lo, n + hi)
  {
    var rest := file[n..];
    if lo <= hi <= |rest| {
      assert rest[lo..hi] == file[n + lo..n + hi];
    } else if lo <= |rest| {
      assert rest[lo..] == file[n + lo..];
    }
  }

  lemma NextMultiple(k: nat, blockSize: nat)
    ensures (k + 1) * blockSize == k * blockSize + blockSize
    ensures k > 0 ==> k * blockSize == (k - 1) * blockSize + blockSize && (k - 1) * blockSize >= 0
  {
  }

  function CompressAll(compress: Bytes -> Bytes, blocks: seq<Bytes>): (r: seq<Bytes>)
    ensures |r| == |blocks| && forall k | 0 <= k < |r| :: r[k] == compress(blocks[k])
  {
    seq(|blocks|, k requires 0 <= k < |blocks| => compress(blocks[k]))
  }

  /** From input file to output file: whatever the threads' timing, the number of threads,
      the queue size and the window, the complete run writes the same bytes: the compressed
      stretches of blockSize bytes of the file, one after the other; and when the
      compressed blocks are streams that hide no further header, cutting those bytes at the
      headers and expanding each stream gives the file back. */
  lemma {:induction false} CompressedFile(file: Bytes, blockSize: nat, compress: Bytes -> Bytes, expand: Bytes -> Bytes,
                                          queueSize: nat, window: nat, n: nat, steps: seq<Step>)
    requires 1 <= blockSize && 1 <= queueSize && 1 <= window && 1 <= n
    requires forall b: Bytes :: expand(compress(b)) == b
    requires var job := Job(CompressAll(compress, Blocks(file, blockSize)), queueSize, window);
             Legal(job, Init(job, n), steps) && |steps| == TotalSteps(job, n)
    ensures var job := Job(CompressAll(compress, Blocks(file, blockSize)), queueSize, window);
            && Run(job, Init(job, n), steps).writer.file == Expected(job)
            && (forall k: nat :: k < |job.packed| <==> k * blockSize < |file|)
            && (forall k: nat | k < |job.packed| ::
                  job.packed[k] == compress(Stretch(file, k * blockSize, (k + 1) * blockSize)))
            && (file != [] && OnlyOwnHeaders(job.packed) ==>
                  Flatten(CompressAll(expand, Streams(Run(job, Init(job, n), steps).writer.file))) == file)
  {
    hide Legal, Run, Init, Flatten, Blocks, OnlyOwnHeaders, StreamsFrom, Stretch;
    var job := Job(CompressAll(compress, Blocks(file, blockSize)), queueSize, window);
    EveryRunCompletes(job, n, steps);
    assert CompressAll(expand, job.packed) == Blocks(file, blockSize);
    forall k: nat
      ensures k < |job.packed| <==> k * blockSize < |file|
      ensures k < |job.packed| ==> job.packed[k] == compress(Stretch(file, k * blockSize, (k + 1) * blockSize))
    {
      BlockIs(file, blockSize, k);
    }
    if file != [] && OnlyOwnHeaders(job.packed) {
      assert Flatten(CompressAll(expand, job.packed)) == file;
      NothingFlat();
      JoinAndCut(job.packed);
      assert Flatten(job.packed) + [] == Flatten(job.packed);
    }
  }
}
