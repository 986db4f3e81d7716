/** The gate's balance accounts for every token, and the worker cannot refill too often. */
module GateProofs {
  import opened Options
  import opened GateSpec

  predicate BalanceOk(g: Gate) {
    g.balance >= 0 && (g.worker.Resting? || g.worker.need > 0)
  }

  lemma StepConserves(p: Params, g: Gate, step: Step)
    requires Normal(p) && BalanceOk(g) && Enabled(g, step)
    ensures var t := Tokens(p, g, step);
            && BalanceOk(Do(p, g, step))
            && Do(p, g, step).balance == g.balance + t.added - t.consumed - t.discarded
            && t.added >= 0 && t.consumed >= 0 && t.discarded >= 0
  {
  }

  /** The balance is never negative, and is the tokens refilled minus those consumed and
      those thrown away by a change of configuration or a disable. */
  lemma {:induction false} BalanceConservation(p: Params, g: Gate, steps: seq<Step>)
    requires Normal(p) && BalanceOk(g) && Legal(p, g, steps)
    ensures var t := Total(p, g, steps);
            && Run(p, g, steps).balance == g.balance + t.added - t.consumed - t.discarded
            && Run(p, g, steps).balance >= 0
            && t.added >= 0 && t.consumed >= 0 && t.discarded >= 0
    decreases |steps|
  {
    if steps != [] {
      StepConserves(p, g, steps[0]);
      BalanceConservation(p, Do(p, g, steps[0]), steps[1..]);
    }
  }

  // ------------------------------------------------------ the refill bound

  /** Tokens that must leave the balance between two successful looks. */
  function Gap(p: Params): int {
    p.target - p.low + 1
  }

  /** `last` and `now` count the tokens that left since the look behind the last successful
      refill, if there was any, and since the look behind the current one, which saw `base`. */
  datatype Since = Since(any: bool, last: int, now: int, base: int)

  predicate Tracked(p: Params, g: Gate, s: Since) {
    && (s.any ==> g.balance >= p.target - s.last)
    && (!g.worker.Resting? ==>
          && s.now >= 0 && g.balance >= s.base - s.now && g.worker.need >= p.target - s.base
          && (s.any ==> s.last >= Gap(p) + s.now))
  }

  /** Tokens that left in a step. */
  function Left(p: Params, g: Gate, step: Step): int
    requires Enabled(g, step)
  {
    Tokens(p, g, step).consumed + Tokens(p, g, step).discarded
  }

  function Follow(p: Params, g: Gate, s: Since, step: Step): Since
    requires Enabled(g, step)
  {
    match step
    case Look => s.(now := 0, base := g.balance)
    case Answer(ok) => if ok then Since(true, s.now, 0, 0) else s
    case _ => s.(last := s.last + Left(p, g, step), now := s.now + Left(p, g, step))
  }

  /** What has left already towards the next refill. */
  function Paid(p: Params, g: Gate, s: Since): int {
    if s.any then s.last else if g.worker.Resting? then Gap(p) else Gap(p) + s.now
  }

  /** A successful refill uses up a whole gap of what has left. */
  lemma FollowTracks(p: Params, g: Gate, s: Since, step: Step)
    requires Normal(p) && BalanceOk(g) && Enabled(g, step) && Tracked(p, g, s)
    ensures var g', s' := Do(p, g, step), Follow(p, g, s, step);
            && Tracked(p, g', s')
            && Paid(p, g', s') + Tokens(p, g, step).refills * Gap(p) <= Paid(p, g, s) + Left(p, g, step)
  {
    if step.Answer? && step.ok {
      assert Tokens(p, g, step).refills * Gap(p) == Gap(p);
    } else {
      assert Tokens(p, g, step).refills * Gap(p) == 0;
    }
  }

  lemma PaidIsPositive(p: Params, g: Gate, s: Since)
    requires Normal(p) && Tracked(p, g, s) && (s.any ==> s.last >= 0)
    ensures Paid(p, g, s) >= 0
  {
  }

  lemma Distribute(a: int, b: int, gap: int)
    ensures (a + b) * gap == a * gap + b * gap
  {
  }

  lemma {:induction false} RefillsCost(p: Params, g: Gate, s: Since, steps: seq<Step>)
    requires Normal(p) && BalanceOk(g) && Legal(p, g, steps) && Tracked(p, g, s) && (s.any ==> s.last >= 0)
    ensures var t := Total(p, g, steps);
            t.refills * Gap(p) <= Paid(p, g, s) + t.consumed + t.discarded
    decreases |steps|
  {
    if steps == [] {
      PaidIsPositive(p, g, s);
    } else {
      StepConserves(p, g, steps[0]);
      FollowTracks(p, g, s, steps[0]);
      var g' := Do(p, g, steps[0]);
      RefillsCost(p, g', Follow(p, g, s, steps[0]), steps[1..]);
      var a, b := Tokens(p, g, steps[0]).refills, Total(p, g', steps[1..]).refills;
      Distribute(a, b, Gap(p));
    }
  }

  /** The refill bound: the worker refills at most once, and once more for every
      target - low_water + 1 tokens consumed or discarded, whatever other refills arrive and
      whatever changes between its look and the answer. */
  lemma {:induction false} RefillBound(p: Params, g: Gate, steps: seq<Step>)
    requires Normal(p) && BalanceOk(g) && g.worker.Resting? && Legal(p, g, steps)
    ensures var t := Total(p, g, steps);
            t.refills <= 1 + (t.consumed + t.discarded) / (p.target - p.low + 1)
  {
    RefillsCost(p, g, Since(false, 0, 0, 0), steps);
    var t := Total(p, g, steps);
    BalanceConservation(p, g, steps);
    DivideBound(t.refills, t.consumed + t.discarded, Gap(p));
  }

  lemma TimesMono(a: int, b: int, gap: int)
    requires gap >= 1
    ensures a <= b ==> a * gap <= b * gap
  {
    if a <= b {
      assert b * gap == a * gap + (b - a) * gap;
    }
  }

  lemma DivideBound(n: int, left: int, gap: int)
    requires gap >= 1 && n * gap <= gap + left
    ensures n <= 1 + left / gap
  {
    var q := left / gap;
    assert left < (q + 1) * gap;
    assert (q + 2) * gap == (q + 1) * gap + gap;
    TimesMono(q + 2, n, gap);
  }

  // ------------------------------------------------------- when it refills

  /** A look ends in a request exactly when the gate is armable and its balance is below the
      low-water mark, and what it then asks for is the least that brings the balance to the
      target and is a batch. */
  lemma LookAsks(p: Params, g: Gate, n: int)
    requires Normal(p) && g.worker.Resting?
    ensures Do(p, g, Look).worker.Looked? <==> Armable(g) && g.balance < p.low
    ensures Do(p, g, Look).worker.Looked? ==>
              var need := Do(p, g, Look).worker.need;
              g.balance + n >= p.target && n >= p.batch <==> n >= need
    ensures !Do(p, g, Look).worker.Looked? ==> Do(p, g, Look) == g
  {
  }

  /** A request goes out only for a gate that is still armable, and for what was looked up;
      otherwise the worker rests, and asks again only after another look. */
  lemma AskGoesOut(p: Params, g: Gate)
    requires g.worker.Looked?
    ensures var g' := Do(p, g, Ask);
            && (g'.worker.Asked? <==> g.active && g.delay > 0 && g.count > 0)
            && (if g'.worker.Asked? then g'.worker.need == g.worker.need else g'.worker.Resting?)
            && g'.(worker := g.worker) == g
  {
  }

  predicate WorkersOwn(step: Step) {
    step.Look? || step.Ask? || step.Answer?
  }

  /** Steps of others leave the worker where it is, and can take away from the balance only
      what they consume or discard. */
  lemma {:induction false} OthersOnly(p: Params, g: Gate, steps: seq<Step>)
    requires Normal(p) && BalanceOk(g) && Legal(p, g, steps) && forall k | 0 <= k < |steps| :: !WorkersOwn(steps[k])
    ensures Run(p, g, steps).worker == g.worker && BalanceOk(Run(p, g, steps))
    ensures Run(p, g, steps).balance >= g.balance - Total(p, g, steps).consumed - Total(p, g, steps).discarded
    decreases |steps|
  {
    if steps != [] {
      StepConserves(p, g, steps[0]);
      OthersOnly(p, Do(p, g, steps[0]), steps[1..]);
    }
  }

  /** A round of the worker with anything by others in between: a look below the low-water
      mark, the request, and an accepted answer bring the balance to the target, but for what
      was consumed or discarded since the look. */
  lemma RoundRefills(p: Params, g: Gate, before: seq<Step>, during: seq<Step>)
    requires Normal(p) && BalanceOk(g) && g.worker.Resting? && Armable(g) && g.balance < p.low
    requires forall k | 0 <= k < |before| :: !WorkersOwn(before[k])
    requires forall k | 0 <= k < |during| :: !WorkersOwn(during[k])
    requires Legal(p, Do(p, g, Look), before) && Armable(Run(p, Do(p, g, Look), before))
    requires Enabled(Run(p, Do(p, g, Look), before), Ask)
    requires Legal(p, Do(p, Run(p, Do(p, g, Look), before), Ask), during)
    ensures var g1 := Do(p, g, Look);
            var g2 := Do(p, Run(p, g1, before), Ask);
            var g3 := Run(p, g2, during);
            var left := Total(p, g1, before).consumed + Total(p, g1, before).discarded
                        + Total(p, g2, during).consumed + Total(p, g2, during).discarded;
            && Enabled(g3, Answer(true))
            && Do(p, g3, Answer(true)).worker.Resting?
            && Do(p, g3, Answer(true)).balance >= p.target - left
            && Do(p, g3, Answer(true)).balance >= g3.balance + p.batch
  {
    var g1 := Do(p, g, Look);
    hide Run, Legal, Total;
    LookAsks(p, g, 0);
    OthersOnly(p, g1, before);
    var g2 := Do(p, Run(p, g1, before), Ask);
    OthersOnly(p, g2, during);
  }

  /** Steps of its own that the worker needs at most to bring an armable gate to the mark. */
  function StepsToMark(p: Params, g: Gate): nat {
    if g.balance >= p.low then 0
    else
      match g.worker
      case Resting => 3
      case Looked(_) => 2
      case Asked(_) => 1
  }

  /** Left to itself the worker stops at or above the mark: with its answers accepted, no more
      than three of its steps take an armable gate there, and no further ones undo it. */
  lemma {:induction false} WorkerFills(p: Params, g: Gate, steps: seq<Step>)
    requires Normal(p) && Armable(g) && BalanceOk(g) && Legal(p, g, steps)
    requires g.worker.Resting? || g.balance + g.worker.need >= p.target
    requires forall k | 0 <= k < |steps| :: steps[k] == Look || steps[k] == Ask || steps[k] == Answer(true)
    ensures |steps| >= StepsToMark(p, g) ==> Run(p, g, steps).balance >= p.low
    ensures g.worker.Resting? && g.balance >= p.low ==> Run(p, g, steps) == g
    decreases |steps|
  {
    if steps != [] {
      WorkerFills(p, Do(p, g, steps[0]), steps[1..]);
    }
  }

  /** A change of the configuration takes what makes sense of what was asked; tokens bought
      under another configuration never outlive it. */
  lemma ConfigureDiscards(p: Params, g: Gate, delay: Option<int>, count: Option<int>)
    ensures var g' := Do(p, g, Configure(delay, count));
            && g'.delay == (match delay case Some(d) => if d < 0 then g.delay else d case None => g.delay)
            && g'.count == (match count case Some(c) => if c < 0 then g.count else c case None => g.count)
            && g'.active == g.active && g'.worker == g.worker
            && g'.balance == (if (g'.delay, g'.count) == (g.delay, g.count) then g.balance else 0)
  {
  }

  /** A disabled gate need not be empty: the answer to a refill may arrive after the disable.
      Emptiness while inactive is kept by a step unless it adds tokens to an inactive gate. */
  lemma InactiveStaysEmpty(p: Params, g: Gate, step: Step)
    requires BalanceOk(g) && Enabled(g, step) && (!g.active ==> g.balance == 0)
    ensures var g' := Do(p, g, step);
            (!g'.active ==> g'.balance == 0)
            <==> g.active || !((step.Answer? && step.ok) || (step.Add? && step.tokens > 0)) || step == SetActive(true)
  {
  }

  /** It happens, for all parameters: a gate is enabled and a refill asked for, the gate is
      disabled, and then the answer arrives.  With a low-water mark above 0 the refill is the
      worker's; with a mark of 0 the worker asks for none, but enabling does. */
  lemma DisabledWithTokens(p: Params) returns (g: Gate, steps: seq<Step>)
    requires Normal(p)
    ensures g.worker.Resting? && !g.active && g.balance == 0 && Legal(p, g, steps)
    ensures |steps| >= 1 && steps[0] == SetActive(true)
    ensures !Run(p, g, steps).active && Run(p, g, steps).balance >= p.target
  {
    g := Gate(false, 1, 1, 0, Resting);
    var g1 := Do(p, g, SetActive(true));
    if p.low > 0 {
      var g2 := Do(p, g1, Look);
      var g3 := Do(p, g2, Ask);
      var g4 := Do(p, g3, SetActive(false));
      steps := Prepend(p, g4, Answer(true), []);
      steps := Prepend(p, g3, SetActive(false), steps);
      steps := Prepend(p, g2, Ask, steps);
      steps := Prepend(p, g1, Look, steps);
    } else {
      var g2 := Do(p, g1, SetActive(false));
      steps := Prepend(p, g2, Add(p.target), []);
      steps := Prepend(p, g1, SetActive(false), steps);
    }
    steps := Prepend(p, g, SetActive(true), steps);
  }

  lemma Prepend(p: Params, g: Gate, step: Step, rest: seq<Step>) returns (steps: seq<Step>)
    requires Enabled(g, step) && Legal(p, Do(p, g, step), rest)
    ensures steps == [step] + rest && Legal(p, g, steps) && Run(p, g, steps) == Run(p, Do(p, g, step), rest)
  {
    steps := [step] + rest;
    assert steps[1..] == rest;
  }
}
