/** Coz's virtual-speedup delays as a state machine over any number of threads.  Reading
    the global delay and adding to it later are separate steps, so other threads may run
    in between; a sleep may take longer than asked. */
module DelaySpec {
  import opened Options

  /** `seen` is the snapshot a thread took in add_delays, `pre` the one taken in pre_block. */
  datatype Thread = Thread(started: bool, local: nat, pre: Option<nat>, seen: Option<nat>)

  datatype State = State(global: nat, threads: seq<Thread>)

  datatype Step =
    | Hit(t: nat, delay: nat)
    | Look(t: nat)
    | Publish(t: nat)
    | Sleep(t: nat, slept: nat)
    | Even(t: nat)
    | SkipAhead(t: nat)
    | PreBlock(t: nat)
    | PostBlock(t: nat, skip: bool)
    | Spawn(t: nat)
    | Start(t: nat)

  /** One thread's part of a step, given the global delay it reads. */
  function Local(th: Thread, global: nat, step: Step): Thread {
    match step
    case Hit(_, d) => th.(local := th.local + d)
    case Look(_) => th.(seen := Some(global))
    case Publish(_) => th.(seen := None)
    case Sleep(_, w) => th.(local := th.local + w, seen := None)
    case Even(_) => th.(seen := None)
    case SkipAhead(_) => th.(local := global)
    case PreBlock(_) => th.(pre := Some(global))
    case PostBlock(_, skip) => th.(local := th.local + if skip then Gained(th, global) else 0, pre := None)
    case Spawn(_) => th
    case Start(_) => th.(started := true)
  }

  /** Growth of the global delay since pre_block. */
  function Gained(th: Thread, global: nat): nat {
    if th.pre.Some? && th.pre.value <= global then global - th.pre.value else 0
  }

  /** How far a thread's local delay is ahead of a value of the global one. */
  function Lead(th: Thread, global: nat): nat {
    if th.local > global then th.local - global else 0
  }

  /** How far it is behind. */
  function Lag(th: Thread, global: nat): nat {
    if th.local < global then global - th.local else 0
  }

  predicate Ready(th: Thread, step: Step) {
    if step.Start? then !th.started
    else
      && th.started
      && match step
         case Publish(_) => th.seen.Some? && th.local > th.seen.value
         case Sleep(_, w) => th.seen.Some? && th.local < th.seen.value && th.local + w >= th.seen.value
         case Even(_) => th.seen.Some? && th.local == th.seen.value
         case PostBlock(_, _) => th.seen == None && th.pre.Some?
         case _ => th.seen == None
  }

  predicate Enabled(st: State, step: Step) {
    step.t < |st.threads| && Ready(st.threads[step.t], step)
  }

  function Do(st: State, step: Step): State
    requires Enabled(st, step)
  {
    var th := st.threads[step.t];
    var threads := st.threads[step.t := Local(th, st.global, step)];
    State(if step.Publish? then st.global + (th.local - th.seen.value) else st.global,
          if step.Spawn? then threads + [Thread(false, th.local, None, None)] else threads)
  }

  predicate Legal(st: State, steps: seq<Step>)
    decreases |steps|
  {
    steps == [] || (Enabled(st, steps[0]) && Legal(Do(st, steps[0]), steps[1..]))
  }

  function Run(st: State, steps: seq<Step>): State
    requires Legal(st, steps)
    decreases |steps|
  {
    if steps == [] then st else Run(Do(st, steps[0]), steps[1..])
  }

  // ---------------------------------------------------- what a run hands out

  /** delay_size for every credited hit */
  function Credits(steps: seq<Step>): nat {
    if steps == [] then 0 else (if steps[0].Hit? then steps[0].delay else 0) + Credits(steps[1..])
  }

  /** time slept beyond what was asked */
  function Oversleep(st: State, steps: seq<Step>): nat
    requires Legal(st, steps)
    decreases |steps|
  {
    if steps == [] then 0
    else (if steps[0].Sleep? then st.threads[steps[0].t].local + steps[0].slept - st.threads[steps[0].t].seen.value else 0)
         + Oversleep(Do(st, steps[0]), steps[1..])
  }

  /** lead with which new threads start */
  function Inherited(st: State, steps: seq<Step>): nat
    requires Legal(st, steps)
    decreases |steps|
  {
    if steps == [] then 0
    else (if steps[0].Start? then Lead(st.threads[steps[0].t], st.global) else 0)
         + Inherited(Do(st, steps[0]), steps[1..])
  }

  function Leads(threads: seq<Thread>, global: nat): nat {
    if threads == [] then 0
    else (if threads[0].started then Lead(threads[0], global) else 0) + Leads(threads[1..], global)
  }

  /** For each thread, the delay it has made up for since its last pre_block: post_block
      skips that stretch a second time. */
  function Handled(st: State, handled: seq<nat>, step: Step): seq<nat>
    requires Enabled(st, step) && |handled| == |st.threads|
  {
    var th := st.threads[step.t];
    match step
    case PreBlock(t) => handled[t := 0]
    case Publish(t) => handled[t := handled[t] + (th.local - th.seen.value)]
    case Sleep(t, _) => handled[t := handled[t] + (th.seen.value - th.local)]
    case SkipAhead(t) => handled[t := handled[t] + Lag(th, st.global)]
    case Spawn(_) => handled + [0]
    case _ => handled
  }

  /** delay counted twice because samples were processed between pre_block and post_block */
  function Doubled(st: State, handled: seq<nat>, steps: seq<Step>): nat
    requires Legal(st, steps) && |handled| == |st.threads|
    decreases |steps|
  {
    if steps == [] then 0
    else (if steps[0].PostBlock? && steps[0].skip then handled[steps[0].t] else 0)
         + Doubled(Do(st, steps[0]), Handled(st, handled, steps[0]), steps[1..])
  }
}
