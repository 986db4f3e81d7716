/** The profiler's delay bookkeeping as it is: one shared counter, and a record per thread
    whose fields its owner updates in place.  add_delays comes in two halves, because
    another thread may run after the snapshot is taken. */
module DelayProfiler {
  import opened Options
  import opened DelaySpec

  class ThreadState {
    var started: bool
    var localDelay: nat
    var preBlockTime: Option<nat>
    var snapshot: Option<nat>

    ghost function View(): Thread
      reads this
    {
      Thread(started, localDelay, preBlockTime, snapshot)
    }

    /** A new thread's record, with the delay handed over by its parent. */
    constructor (parentDelay: nat)
      ensures View() == Thread(false, parentDelay, None, None)
    {
      started, localDelay, preBlockTime, snapshot := false, parentDelay, None, None;
    }
  }

  /** delay_size for each sample that hit the selected line */
  function HitCredits(hits: seq<bool>, delaySize: nat): nat {
    if hits == [] then 0 else HitCredits(hits[..|hits| - 1], delaySize) + if hits[|hits| - 1] then delaySize else 0
  }

  /** The samples of one batch as steps of the state machine. */
  function HitSteps(t: nat, hits: seq<bool>, delaySize: nat): seq<Step> {
    if hits == [] then [] else [Hit(t, if hits[0] then delaySize else 0)] + HitSteps(t, hits[1..], delaySize)
  }

  lemma {:induction false} HitCreditsFront(hits: seq<bool>, delaySize: nat)
    requires hits != []
    ensures HitCredits(hits, delaySize) == (if hits[0] then delaySize else 0) + HitCredits(hits[1..], delaySize)
  {
    var n := |hits| - 1;
    if n > 0 {
      HitCreditsFront(hits[..n], delaySize);
      assert hits[..n][1..] == hits[1..][..n - 1];
    }
  }

  /** A batch of samples is a legal run that credits the thread with exactly its hits. */
  lemma {:induction false} BatchIsRun(st: State, t: nat, hits: seq<bool>, delaySize: nat)
    requires t < |st.threads| && st.threads[t].started && st.threads[t].seen == None
    ensures var steps := HitSteps(t, hits, delaySize);
            && Legal(st, steps) && Credits(steps) == HitCredits(hits, delaySize)
            && Run(st, steps).global == st.global
            && Run(st, steps).threads
               == st.threads[t := st.threads[t].(local := st.threads[t].local + HitCredits(hits, delaySize))]
    decreases |hits|
  {
    var steps := HitSteps(t, hits, delaySize);
    if hits == [] {
      assert st.threads[t := st.threads[t].(local := st.threads[t].local)] == st.threads;
    } else {
      HitCreditsFront(hits, delaySize);
      BatchIsRun(Do(st, steps[0]), t, hits[1..], delaySize);
      assert steps[1..] == HitSteps(t, hits[1..], delaySize);
    }
  }

  class Profiler {
    var globalDelay: nat

    constructor ()
      ensures globalDelay == 0
    {
      globalDelay := 0;
    }

    /** The loop of process_samples while an experiment is active. */
    method ProcessSamples(state: ThreadState, hits: seq<bool>, delaySize: nat)
      modifies state`localDelay
      ensures state.localDelay == old(state.localDelay) + HitCredits(hits, delaySize)
    {
      var k := 0;
      assert hits[..0] == [];
      while k < |hits|
        invariant k <= |hits|
        invariant state.localDelay == old(state.localDelay) + HitCredits(hits[..k], delaySize)
      {
        assert hits[..k + 1][..k] == hits[..k];
        if hits[k] {
          state.localDelay := state.localDelay + delaySize;
        }
        k := k + 1;
      }
      assert hits[..k] == hits;
    }

    /** First half of add_delays with an experiment running: the snapshot. */
    method Look(state: ThreadState)
      modifies state`snapshot
      ensures state.View() == Local(old(state.View()), globalDelay, Step.Look(0))
    {
      state.snapshot := Some(globalDelay);
    }

    /** Second half: publish a lead, or pause, `slept` being what the pause really took. */
    method Settle(state: ThreadState, slept: nat) returns (ghost step: Step)
      requires state.started && state.snapshot.Some?
      requires state.localDelay < state.snapshot.value ==> state.localDelay + slept >= state.snapshot.value
      modifies this, state`snapshot, state`localDelay
      ensures step.Publish? || step.Sleep? || step.Even?
      ensures Ready(old(state.View()), step) && state.View() == Local(old(state.View()), old(globalDelay), step)
      ensures globalDelay == old(globalDelay) + if step.Publish? then old(state.localDelay - state.snapshot.value) else 0
    {
      step := Even(0);
      if state.localDelay > state.snapshot.value {
        step := Publish(0);
        globalDelay := globalDelay + (state.localDelay - state.snapshot.value);
      } else if state.localDelay < state.snapshot.value {
        step := Sleep(0, slept);
        state.localDelay := state.localDelay + slept;
      }
      state.snapshot := None;
    }

    /** add_delays with no experiment running */
    method SkipAhead(state: ThreadState)
      modifies state`localDelay
      ensures state.View() == Local(old(state.View()), globalDelay, Step.SkipAhead(0))
    {
      state.localDelay := globalDelay;
    }

    method PreBlock(state: ThreadState)
      modifies state`preBlockTime
      ensures state.View() == Local(old(state.View()), globalDelay, Step.PreBlock(0))
    {
      state.preBlockTime := Some(globalDelay);
    }

    /** The subtraction cannot wrap: the global delay never decreases. */
    method PostBlock(state: ThreadState, skipDelays: bool)
      requires state.preBlockTime.Some? && state.preBlockTime.value <= globalDelay
      modifies state`localDelay, state`preBlockTime
      ensures state.View() == Local(old(state.View()), globalDelay, Step.PostBlock(0, skipDelays))
    {
      if skipDelays {
        state.localDelay := state.localDelay + (globalDelay - state.preBlockTime.value);
      }
      state.preBlockTime := None;
    }
  }
}
