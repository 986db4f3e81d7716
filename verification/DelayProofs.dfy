/** How far the global delay can get, and what each thread owes. */
module DelayProofs {
  import opened Options
  import opened DelaySpec

  // ------------------------------------------------------- unspent budgets

  function Sum(s: seq<nat>): nat {
    if s == [] then 0 else s[0] + Sum(s[1..])
  }

  lemma {:induction false} SumSet(s: seq<nat>, i: nat, x: nat)
    requires i < |s|
    ensures Sum(s[i := x]) == Sum(s) - s[i] + x
  {
    if i == 0 {
      assert s[i := x][1..] == s[1..];
    } else {
      assert s[i := x][1..] == s[1..][i - 1 := x];
      SumSet(s[1..], i - 1, x);
    }
  }

  lemma {:induction false} SumAppend(s: seq<nat>, x: nat)
    ensures Sum(s + [x]) == Sum(s) + x
  {
    if s == [] {
      assert s + [x] == [x];
    } else {
      assert (s + [x])[1..] == s[1..] + [x];
      SumAppend(s[1..], x);
    }
  }

  /** What a step adds to its thread's budget. */
  function Grant(st: State, handled: seq<nat>, step: Step): nat
    requires Enabled(st, step) && |handled| == |st.threads|
  {
    var th := st.threads[step.t];
    match step
    case Hit(_, d) => d
    case Sleep(_, w) => th.local + w - th.seen.value
    case Start(_) => Lead(th, st.global)
    case PostBlock(t, skip) => if skip then handled[t] else 0
    case _ => 0
  }

  /** What it spends. */
  function Spent(st: State, step: Step): nat
    requires Enabled(st, step)
  {
    if step.Publish? then st.threads[step.t].local - st.threads[step.t].seen.value else 0
  }

  /** A thread never leads, nor ever will on the strength of an old snapshot, by more than
      its unspent budget. */
  predicate Covered(th: Thread, global: nat, unspent: nat, handled: nat) {
    && (th.started ==> th.local <= global + unspent)
    && (th.seen.Some? ==> th.started && th.seen.value <= global && th.local <= th.seen.value + unspent)
    && (th.pre.Some? ==> th.started && th.pre.value <= global && th.local <= th.pre.value + unspent + handled)
  }

  predicate CoveredAt(st: State, unspent: seq<nat>, handled: seq<nat>, t: nat)
    requires t < |st.threads| == |unspent| == |handled|
  {
    Covered(st.threads[t], st.global, unspent[t], handled[t])
  }

  predicate Inv(st: State, unspent: seq<nat>, handled: seq<nat>) {
    && |st.threads| == |unspent| == |handled|
    && forall t | 0 <= t < |st.threads| :: CoveredAt(st, unspent, handled, t)
  }

  /** A stale read cannot publish more than that thread's unspent budget. */
  lemma StaleReadIsCovered(st: State, unspent: seq<nat>, handled: seq<nat>, step: Step)
    requires Inv(st, unspent, handled) && Enabled(st, step)
    ensures Spent(st, step) <= unspent[step.t]
  {
    assert CoveredAt(st, unspent, handled, step.t);
  }

  function Settle(st: State, unspent: seq<nat>, handled: seq<nat>, step: Step): seq<nat>
    requires Inv(st, unspent, handled) && Enabled(st, step)
  {
    StaleReadIsCovered(st, unspent, handled, step);
    var own := unspent[step.t := unspent[step.t] - Spent(st, step) + Grant(st, handled, step)];
    if step.Spawn? then own + [0] else own
  }

  lemma StepKeepsInv(st: State, unspent: seq<nat>, handled: seq<nat>, step: Step)
    requires Inv(st, unspent, handled) && Enabled(st, step)
    ensures Inv(Do(st, step), Settle(st, unspent, handled, step), Handled(st, handled, step))
  {
    var st' := Do(st, step);
    forall t | 0 <= t < |st'.threads|
      ensures CoveredAt(st', Settle(st, unspent, handled, step), Handled(st, handled, step), t)
    {
      if t < |st.threads| {
        assert CoveredAt(st, unspent, handled, t);
      }
    }
  }

  /** Published delay is paid for: global delay and unspent budgets grow by the grant. */
  lemma StepConserves(st: State, unspent: seq<nat>, handled: seq<nat>, step: Step)
    requires Inv(st, unspent, handled) && Enabled(st, step)
    ensures Do(st, step).global + Sum(Settle(st, unspent, handled, step)) == st.global + Sum(unspent) + Grant(st, handled, step)
    ensures st.global <= Do(st, step).global
  {
    hide CoveredAt, Sum;
    StaleReadIsCovered(st, unspent, handled, step);
    var x := unspent[step.t] - Spent(st, step) + Grant(st, handled, step);
    SumSet(unspent, step.t, x);
    SumAppend(unspent[step.t := x], 0);
  }

  /** Nothing is published that was not granted: after any run the global delay and what the
      threads have left are the start value plus all grants. */
  lemma {:induction false} RunConserves(st: State, unspent: seq<nat>, handled: seq<nat>, steps: seq<Step>)
    returns (left: seq<nat>)
    requires Inv(st, unspent, handled) && Legal(st, steps)
    ensures st.global <= Run(st, steps).global && |left| == |Run(st, steps).threads|
    ensures forall t | 0 <= t < |left| && Run(st, steps).threads[t].started ::
              Lead(Run(st, steps).threads[t], Run(st, steps).global) <= left[t]
    ensures Run(st, steps).global + Sum(left) == st.global + Sum(unspent)
              + Credits(steps) + Oversleep(st, steps) + Inherited(st, steps) + Doubled(st, handled, steps)
    decreases |steps|
  {
    hide CoveredAt, Sum, Enabled, Do, Settle, Handled;
    if steps == [] {
      left := unspent;
      forall t | 0 <= t < |left| && st.threads[t].started ensures Lead(st.threads[t], st.global) <= left[t] {
        LeadIsCovered(st, unspent, handled, t);
      }
    } else {
      var step := steps[0];
      StepKeepsInv(st, unspent, handled, step);
      StepConserves(st, unspent, handled, step);
      left := RunConserves(Do(st, step), Settle(st, unspent, handled, step), Handled(st, handled, step), steps[1..]);
    }
  }

  lemma LeadIsCovered(st: State, unspent: seq<nat>, handled: seq<nat>, t: nat)
    requires Inv(st, unspent, handled) && t < |st.threads| && st.threads[t].started
    ensures Lead(st.threads[t], st.global) <= unspent[t]
  {
    assert CoveredAt(st, unspent, handled, t);
  }

  // ------------------------------------------------------- the main bounds

  predicate AtRest(st: State) {
    forall t | 0 <= t < |st.threads| :: st.threads[t].pre == None && st.threads[t].seen == None
  }

  function LeadSeq(threads: seq<Thread>, global: nat): (r: seq<nat>)
    ensures |r| == |threads| && Sum(r) == Leads(threads, global)
    ensures forall t | 0 <= t < |r| && threads[t].started :: r[t] == Lead(threads[t], global)
  {
    if threads == [] then []
    else [if threads[0].started then Lead(threads[0], global) else 0] + LeadSeq(threads[1..], global)
  }

  function Zeros(n: nat): seq<nat> {
    seq(n, i => 0)
  }

  /** Under any interleaving the global delay never decreases, and never exceeds its start
      value plus the threads' leads at the start, the credited hits, the oversleep, the leads
      new threads inherit, and what blocked periods counted twice. */
  lemma GlobalDelayBound(st: State, steps: seq<Step>)
    requires AtRest(st) && Legal(st, steps)
    ensures st.global <= Run(st, steps).global
    ensures Run(st, steps).global <= st.global + Leads(st.threads, st.global) + Credits(steps)
              + Oversleep(st, steps) + Inherited(st, steps) + Doubled(st, Zeros(|st.threads|), steps)
  {
    var unspent := LeadSeq(st.threads, st.global);
    forall t | 0 <= t < |st.threads| ensures CoveredAt(st, unspent, Zeros(|st.threads|), t) {
    }
    var left := RunConserves(st, unspent, Zeros(|st.threads|), steps);
  }

  /** No delay is made up for between a thread's pre_block and its post_block. */
  predicate BlockedThreadsRest(st: State, steps: seq<Step>)
    requires Legal(st, steps)
    decreases |steps|
  {
    steps == [] || (
      && (st.threads[steps[0].t].pre.Some? ==> !steps[0].Publish? && !steps[0].Sleep? && !steps[0].SkipAhead?)
      && BlockedThreadsRest(Do(st, steps[0]), steps[1..]))
  }

  predicate NoneHandled(st: State, handled: seq<nat>) {
    && |handled| == |st.threads|
    && forall t | 0 <= t < |handled| && st.threads[t].pre.Some? :: handled[t] == 0
  }

  /** Then nothing is counted twice. */
  lemma {:induction false} NothingDoubled(st: State, handled: seq<nat>, steps: seq<Step>)
    requires NoneHandled(st, handled) && Legal(st, steps) && BlockedThreadsRest(st, steps)
    ensures Doubled(st, handled, steps) == 0
    decreases |steps|
  {
    if steps != [] {
      NothingDoubled(Do(st, steps[0]), Handled(st, handled, steps[0]), steps[1..]);
    }
  }

  /** As long as blocked threads rest, leads, credited hits and oversleep alone bound the
      global delay. */
  lemma {:induction false} RestingBound(st: State, steps: seq<Step>)
    requires AtRest(st) && Legal(st, steps) && BlockedThreadsRest(st, steps)
    ensures Run(st, steps).global
         <= st.global + Leads(st.threads, st.global) + Credits(steps) + Oversleep(st, steps) + Inherited(st, steps)
  {
    GlobalDelayBound(st, steps);
    NothingDoubled(st, Zeros(|st.threads|), steps);
  }

  /** The same run with one more step in front. */
  lemma Prepend(st: State, step: Step, rest: seq<Step>) returns (steps: seq<Step>)
    requires Enabled(st, step) && Legal(Do(st, step), rest)
    ensures steps == [step] + rest && Legal(st, steps) && Run(st, steps) == Run(Do(st, step), rest)
    ensures Credits(steps) == Credits(rest) + if step.Hit? then step.delay else 0
    ensures Inherited(st, steps) == Inherited(Do(st, step), rest) + if step.Start? then Lead(st.threads[step.t], st.global) else 0
    ensures (step.Sleep? ==> st.threads[step.t].local + step.slept == st.threads[step.t].seen.value) ==>
              Oversleep(st, steps) == Oversleep(Do(st, step), rest)
  {
    steps := [step] + rest;
    assert steps[0] == step && steps[1..] == rest;
  }

  /** Without that assumption leads, credits and oversleep are not a bound: a sample processed
      while blocked makes up for a delay, post_block skips it again, and the thread then
      publishes a lead nobody granted it. */
  lemma {:induction false} ProcessingWhileBlockedLeaks(d: nat) returns (st: State, steps: seq<Step>)
    requires d > 0
    ensures AtRest(st) && Legal(st, steps)
    ensures st.global + Leads(st.threads, st.global) + Credits(steps) + Oversleep(st, steps) + Inherited(st, steps) == d
    ensures Run(st, steps).global == 2 * d
  {
    hide Legal, Run, Credits, Oversleep, Inherited;
    st := State(0, [Thread(true, 0, None, None), Thread(true, 0, None, None)]);
    var s1 := Do(st, PreBlock(0));
    var s2 := Do(s1, Hit(1, d));
    var s3 := Do(s2, Look(1));
    var s4 := Do(s3, Publish(1));
    assert s4 == State(d, [Thread(true, 0, Some(0), None), Thread(true, d, None, None)]);
    steps := LeakAfterBlock(d, s4);
    steps := Prepend(s3, Publish(1), steps);
    steps := Prepend(s2, Look(1), steps);
    steps := Prepend(s1, Hit(1, d), steps);
    steps := Prepend(st, PreBlock(0), steps);
  }

  lemma LeakAfterBlock(d: nat, st: State) returns (steps: seq<Step>)
    requires d > 0 && st == State(d, [Thread(true, 0, Some(0), None), Thread(true, d, None, None)])
    ensures Legal(st, steps) && Credits(steps) == Oversleep(st, steps) == Inherited(st, steps) == 0
    ensures Run(st, steps).global == 2 * d
  {
    var s1 := Do(st, Look(0));
    var s2 := Do(s1, Sleep(0, d));
    var s3 := Do(s2, PostBlock(0, true));
    var s4 := Do(s3, Look(0));
    steps := Prepend(s4, Publish(0), []);
    hide Legal, Run, Credits, Oversleep, Inherited;
    steps := Prepend(s3, Look(0), steps);
    steps := Prepend(s2, PostBlock(0, true), steps);
    steps := Prepend(s1, Sleep(0, d), steps);
    steps := Prepend(st, Look(0), steps);
  }

  // ------------------------------------------------- what one thread owes

  /** How much the global delay is ahead of a thread; negative when the thread leads. */
  function Debt(st: State, t: nat): int
    requires t < |st.threads|
  {
    st.global - st.threads[t].local
  }

  function CreditsOf(t: nat, steps: seq<Step>): nat {
    if steps == [] then 0 else (if steps[0].Hit? && steps[0].t == t then steps[0].delay else 0) + CreditsOf(t, steps[1..])
  }

  function PausedOf(t: nat, steps: seq<Step>): nat {
    if steps == [] then 0 else (if steps[0].Sleep? && steps[0].t == t then steps[0].slept else 0) + PausedOf(t, steps[1..])
  }

  /** Growth of the global delay during the thread's skipped blocks. */
  function SkippedOf(t: nat, st: State, steps: seq<Step>): nat
    requires Legal(st, steps)
    decreases |steps|
  {
    if steps == [] then 0
    else (if steps[0].PostBlock? && steps[0].skip && steps[0].t == t then Gained(st.threads[t], st.global) else 0)
         + SkippedOf(t, Do(st, steps[0]), steps[1..])
  }

  /** The exact ledger: while its experiment lasts, a thread owes what it owed at the start,
      plus the growth of the global delay outside its skipped blocks, minus its credited hits,
      minus the time it paused. */
  lemma {:induction false} DebtLedger(st: State, t: nat, steps: seq<Step>)
    requires t < |st.threads| && Legal(st, steps)
    requires forall k | 0 <= k < |steps| :: !(steps[k].SkipAhead? && steps[k].t == t)
    ensures |st.threads| <= |Run(st, steps).threads|
    ensures Debt(Run(st, steps), t) == Debt(st, t) + (Run(st, steps).global - st.global - SkippedOf(t, st, steps))
                                       - CreditsOf(t, steps) - PausedOf(t, steps)
    decreases |steps|
  {
    if steps != [] {
      DebtLedger(Do(st, steps[0]), t, steps[1..]);
    }
  }

  lemma {:induction false} RunSplit(st: State, steps: seq<Step>, n: nat)
    requires Legal(st, steps) && n <= |steps|
    ensures Legal(st, steps[..n]) && Legal(Run(st, steps[..n]), steps[n..])
    ensures Run(st, steps) == Run(Run(st, steps[..n]), steps[n..])
    decreases n
  {
    if n == 0 {
      assert steps[..0] == [] && steps[0..] == steps;
    } else {
      RunSplit(Do(st, steps[0]), steps[1..], n - 1);
      assert steps[1..][..n - 1] == steps[..n][1..] && steps[1..][n - 1..] == steps[n..];
      assert steps[..n][0] == steps[0];
    }
  }

  lemma {:induction false} ThreadsStay(st: State, steps: seq<Step>)
    requires Legal(st, steps)
    ensures |st.threads| <= |Run(st, steps).threads|
    decreases |steps|
  {
    if steps != [] {
      ThreadsStay(Do(st, steps[0]), steps[1..]);
    }
  }

  /** Without an experiment add_delays leaves a thread neither behind nor ahead. */
  lemma SkipAheadSettles(st: State, t: nat)
    requires Enabled(st, SkipAhead(t))
    ensures t < |Do(st, SkipAhead(t)).threads| && Debt(Do(st, SkipAhead(t)), t) == 0
    ensures Do(st, SkipAhead(t)).global == st.global
  {
  }

  /** How many steps lie up to and including the thread's last skip ahead; 0 if it has none. */
  function SinceSkip(t: nat, steps: seq<Step>): (n: nat)
    ensures n <= |steps| && (n > 0 ==> steps[n - 1] == SkipAhead(t))
    ensures forall k | n <= k < |steps| :: !(steps[k].SkipAhead? && steps[k].t == t)
  {
    if steps == [] || steps[|steps| - 1] == SkipAhead(t) then |steps| else SinceSkip(t, steps[..|steps| - 1])
  }

  /** The ledger of any run: what a thread owes is counted from its last skip ahead, where it
      owed nothing, or from the start if there is none. */
  lemma FullLedger(st: State, t: nat, steps: seq<Step>)
    requires t < |st.threads| && Legal(st, steps)
    ensures |st.threads| <= |Run(st, steps).threads| && Legal(st, steps[..SinceSkip(t, steps)])
    ensures var n := SinceSkip(t, steps);
            var mid, rest, end := Run(st, steps[..n]), steps[n..], Run(st, steps);
            && Legal(mid, rest)
            && Debt(end, t) == (if n == 0 then Debt(st, t) else 0)
                               + (end.global - mid.global - SkippedOf(t, mid, rest)) - CreditsOf(t, rest) - PausedOf(t, rest)
  {
    hide Legal, Run, Do, Enabled, SinceSkip, CreditsOf, PausedOf, SkippedOf, Debt;
    var n := SinceSkip(t, steps);
    RunSplit(st, steps, n);
    ThreadsStay(st, steps[..n]);
    if n > 0 {
      AfterSkip(st, t, steps[..n]);
    } else {
      NoSteps(st, steps[..n]);
    }
    ThreadsStay(st, steps);
    DebtLedger(Run(st, steps[..n]), t, steps[n..]);
  }

  lemma NoSteps(st: State, steps: seq<Step>)
    requires steps == []
    ensures Legal(st, steps) && Run(st, steps) == st
  {
  }

  lemma AfterSkip(st: State, t: nat, steps: seq<Step>)
    requires Legal(st, steps) && steps != [] && steps[|steps| - 1] == SkipAhead(t)
    ensures t < |Run(st, steps).threads| && Debt(Run(st, steps), t) == 0
  {
    LastStep(st, steps);
    hide Legal, Run;
    SkipAheadSettles(Run(st, steps[..|steps| - 1]), t);
  }

  lemma LastStep(st: State, steps: seq<Step>)
    requires Legal(st, steps) && steps != []
    ensures var n := |steps| - 1;
            && Legal(st, steps[..n]) && Enabled(Run(st, steps[..n]), steps[n])
            && Run(st, steps) == Do(Run(st, steps[..n]), steps[n])
  {
    var n := |steps| - 1;
    RunSplit(st, steps, n);
    assert steps[n..] == [steps[n]] && steps[n..][1..] == [];
  }

  /** A new thread owes what its parent does, and it can start and then take part. */
  lemma ChildOwes(st: State, t: nat)
    requires Enabled(st, Spawn(t))
    ensures var st', c := Do(st, Spawn(t)), |st.threads|;
            && |st'.threads| == c + 1 && st'.global == st.global && st'.threads[..c] == st.threads
            && Debt(st', c) == Debt(st, t)
            && Enabled(st', Start(c)) && !Enabled(st', Look(c))
            && Enabled(Do(st', Start(c)), Look(c)) && Debt(Do(st', Start(c)), c) == Debt(st, t)
  {
  }

  /** The step that makes thread c, if it is made during the run. */
  function Birth(st: State, steps: seq<Step>, c: nat): (b: nat)
    requires Legal(st, steps) && |st.threads| <= c < |Run(st, steps).threads|
    ensures b < |steps| && steps[b].Spawn?
    decreases |steps|
  {
    if steps[0].Spawn? && |st.threads| == c then 0 else 1 + Birth(Do(st, steps[0]), steps[1..], c)
  }

  lemma {:induction false} BirthIs(st: State, steps: seq<Step>, c: nat)
    requires Legal(st, steps) && |st.threads| <= c < |Run(st, steps).threads|
    ensures var b := Birth(st, steps, c);
            && Legal(st, steps[..b]) && |Run(st, steps[..b]).threads| == c && Enabled(Run(st, steps[..b]), steps[b])
            && Legal(Do(Run(st, steps[..b]), steps[b]), steps[b + 1..])
            && Run(st, steps) == Run(Do(Run(st, steps[..b]), steps[b]), steps[b + 1..])
    decreases |steps|
  {
    var b := Birth(st, steps, c);
    if b == 0 {
      assert steps[..0] == [];
    } else {
      BirthIs(Do(st, steps[0]), steps[1..], c);
      assert steps[1..][..b - 1] == steps[..b][1..] && steps[..b][0] == steps[0];
      assert steps[1..][b..] == steps[b + 1..];
    }
  }

  /** The ledger of a thread that is made during the run goes on from its parent's. */
  lemma ChildLedger(st: State, c: nat, steps: seq<Step>)
    requires Legal(st, steps) && |st.threads| <= c < |Run(st, steps).threads|
    ensures var b := Birth(st, steps, c);
            && Legal(st, steps[..b]) && steps[b].t < |Run(st, steps[..b]).threads| == c && Enabled(Run(st, steps[..b]), steps[b])
            && var born, rest := Do(Run(st, steps[..b]), steps[b]), steps[b + 1..];
               var n := SinceSkip(c, rest);
               && Legal(born, rest) && Legal(born, rest[..n]) && Legal(Run(born, rest[..n]), rest[n..])
               && var mid, end := Run(born, rest[..n]), Run(st, steps);
                  Debt(end, c) == (if n == 0 then Debt(Run(st, steps[..b]), steps[b].t) else 0)
                                  + (end.global - mid.global - SkippedOf(c, mid, rest[n..]))
                                  - CreditsOf(c, rest[n..]) - PausedOf(c, rest[n..])
  {
    hide Legal, Run, Do, Enabled, CreditsOf, PausedOf, SkippedOf;
    var b := Birth(st, steps, c);
    BirthIs(st, steps, c);
    var before := Run(st, steps[..b]);
    assert steps[b] == Spawn(steps[b].t);
    ChildOwes(before, steps[b].t);
    FullLedger(Do(before, steps[b]), c, steps[b + 1..]);
  }

  /** A thread that waits for another, from its pre_block to a post_block that skips, owes
      afterwards what it owed before; if nothing is to be skipped it owes the growth as well. */
  lemma BlockedOwesNothing(st: State, t: nat, others: seq<Step>, skip: bool)
    requires Enabled(st, PreBlock(t)) && Legal(Do(st, PreBlock(t)), others)
    requires forall k | 0 <= k < |others| :: others[k].t != t
    ensures var st1 := Run(Do(st, PreBlock(t)), others);
            && Enabled(st1, PostBlock(t, skip))
            && var end := Do(st1, PostBlock(t, skip));
               t < |end.threads| && Debt(end, t) == Debt(st, t) + if skip then 0 else end.global - st.global
  {
    var st0 := Do(st, PreBlock(t));
    OthersLeave(st0, t, others);
    hide Legal, Run;
  }

  lemma {:induction false} OthersLeave(st: State, t: nat, steps: seq<Step>)
    requires t < |st.threads| && Legal(st, steps) && forall k | 0 <= k < |steps| :: steps[k].t != t
    ensures t < |Run(st, steps).threads| && Run(st, steps).threads[t] == st.threads[t]
    ensures st.global <= Run(st, steps).global
    decreases |steps|
  {
    if steps != [] {
      OthersLeave(Do(st, steps[0]), t, steps[1..]);
    }
  }

  // ------------------------------------------------------------- catching up

  /** The thread made up for everything up to global delay g, or is about to. */
  predicate Catching(th: Thread, g: nat) {
    th.local >= g || (th.seen.Some? && th.seen.value >= g)
  }

  lemma {:induction false} StaysCaught(st: State, t: nat, g: nat, steps: seq<Step>)
    requires t < |st.threads| && g <= st.global && Catching(st.threads[t], g) && Legal(st, steps)
    ensures t < |Run(st, steps).threads| && Catching(Run(st, steps).threads[t], g)
    decreases |steps|
  {
    if steps != [] {
      StaysCaught(Do(st, steps[0]), t, g, steps[1..]);
    }
  }

  /** When add_delays has finished, whatever the others did meanwhile, the thread owes nothing
      against the global delay it read; so does every catch_up before a release. */
  lemma CaughtUp(st: State, t: nat, steps: seq<Step>)
    requires Enabled(st, Look(t)) && Legal(Do(st, Look(t)), steps)
    requires t < |Run(Do(st, Look(t)), steps).threads| && Run(Do(st, Look(t)), steps).threads[t].seen == None
    ensures Run(Do(st, Look(t)), steps).threads[t].local >= st.global
  {
    StaysCaught(Do(st, Look(t)), t, st.global, steps);
  }

  /** No interleaving leaves a thread stuck: whatever it read, one way out of add_delays is open. */
  lemma AddDelaysFinishes(st: State, t: nat) returns (step: Step)
    requires t < |st.threads| && st.threads[t].started && st.threads[t].seen.Some?
    ensures Enabled(st, step) && Do(st, step).threads[t].seen == None
    ensures forall other: Step | other.t == t && Enabled(st, other) && other != step :: other.Sleep? && step.Sleep?
  {
    var th := st.threads[t];
    step := if th.local > th.seen.value then Publish(t)
            else if th.local < th.seen.value then Sleep(t, th.seen.value - th.local)
            else Even(t);
  }
}
