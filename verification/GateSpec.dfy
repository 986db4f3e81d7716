/** The gate's token balance and its refills, one step for each stretch under the mutex.
    A refill looks at the balance, asks the controller, and adds the tokens later. */
module GateSpec {
  import opened Options

  datatype Params = Params(target: int, low: int, batch: int)

  function Max(a: int, b: int): int {
    if a > b then a else b
  }

  /** normalizeRefillParams */
  function Normalize(p: Params): Params {
    var target := if p.target <= 0 then 16 else p.target;
    var low := if p.low < 0 then 0 else p.low;
    Params(target, if low >= target then Max(0, target / 2) else low, if p.batch <= 0 then 8 else p.batch)
  }

  predicate Normal(p: Params) {
    0 <= p.low < p.target && 1 <= p.batch
  }

  /** Parameters that make sense are left alone; the others are made to. */
  lemma NormalizeIsNormal(p: Params)
    ensures Normal(Normalize(p))
    ensures Normal(p) ==> Normalize(p) == p
    ensures Normalize(Normalize(p)) == Normalize(p)
    ensures Normalize(p).target == if p.target >= 1 then p.target else 16
    ensures Normalize(p).batch == if p.batch >= 1 then p.batch else 8
    ensures 0 <= p.low < Normalize(p).target ==> Normalize(p).low == p.low
    ensures p.low < 0 ==> Normalize(p).low == 0
    ensures p.low >= Normalize(p).target ==> 2 * Normalize(p).low <= Normalize(p).target <= 2 * Normalize(p).low + 1
  {
    assert p.target >= 2 ==> p.target / 2 < p.target;
    assert p.target == 1 ==> p.target / 2 == 0;
  }

  /** The worker between its look at the balance and its next one. */
  datatype Worker = Resting | Looked(need: int) | Asked(need: int)

  datatype Gate = Gate(active: bool, delay: int, count: int, balance: int, worker: Worker)

  predicate Armable(g: Gate) {
    g.active && g.delay > 0 && g.count > 0
  }

  /** currentRefillNeed */
  function Need(p: Params, g: Gate): int {
    if !Armable(g) || g.balance >= p.low then 0
    else
      var need := Max(p.batch, p.target - g.balance);
      if need <= 0 then p.batch else need
  }

  /** Add is any other refill, on enabling or after a miss, when its answer arrives. */
  datatype Step =
    | Look
    | Ask
    | Answer(ok: bool)
    | Add(tokens: nat)
    | Consume
    | Configure(delay: Option<int>, count: Option<int>)
    | SetActive(active: bool)

  predicate Enabled(g: Gate, step: Step) {
    match step
    case Look => g.worker.Resting?
    case Ask => g.worker.Looked?
    case Answer(_) => g.worker.Asked?
    case _ => true
  }

  function NewDelay(g: Gate, delay: Option<int>): int {
    if delay.Some? && delay.value >= 0 then delay.value else g.delay
  }

  function NewCount(g: Gate, count: Option<int>): int {
    if count.Some? && count.value >= 0 then count.value else g.count
  }

  predicate Changes(g: Gate, delay: Option<int>, count: Option<int>) {
    NewDelay(g, delay) != g.delay || NewCount(g, count) != g.count
  }

  function Do(p: Params, g: Gate, step: Step): Gate
    requires Enabled(g, step)
  {
    match step
    case Look => g.(worker := if Need(p, g) > 0 then Looked(Need(p, g)) else Resting)
    case Ask => g.(worker := if Armable(g) then Asked(g.worker.need) else Resting)
    case Answer(ok) => g.(worker := Resting, balance := g.balance + if ok then g.worker.need else 0)
    case Add(tokens) => g.(balance := g.balance + tokens)
    case Consume => if g.balance > 0 then g.(balance := g.balance - 1) else g
    case Configure(delay, count) =>
      g.(delay := NewDelay(g, delay), count := NewCount(g, count), balance := if Changes(g, delay, count) then 0 else g.balance)
    case SetActive(active) => g.(active := active, balance := if active then g.balance else 0)
  }

  predicate Legal(p: Params, g: Gate, steps: seq<Step>)
    decreases |steps|
  {
    steps == [] || (Enabled(g, steps[0]) && Legal(p, Do(p, g, steps[0]), steps[1..]))
  }

  function Run(p: Params, g: Gate, steps: seq<Step>): Gate
    requires Legal(p, g, steps)
    decreases |steps|
  {
    if steps == [] then g else Run(p, Do(p, g, steps[0]), steps[1..])
  }

  // --------------------------------------------------------- what a run did

  /** Successful worker refills, and the tokens added, consumed and discarded. */
  datatype Tally = Tally(refills: nat, added: int, consumed: int, discarded: int)

  function Tokens(p: Params, g: Gate, step: Step): Tally
    requires Enabled(g, step)
  {
    match step
    case Answer(ok) => if ok then Tally(1, g.worker.need, 0, 0) else Tally(0, 0, 0, 0)
    case Add(tokens) => Tally(0, tokens, 0, 0)
    case Consume => Tally(0, 0, if g.balance > 0 then 1 else 0, 0)
    case Configure(delay, count) => Tally(0, 0, 0, if Changes(g, delay, count) then g.balance else 0)
    case SetActive(active) => Tally(0, 0, 0, if active then 0 else g.balance)
    case _ => Tally(0, 0, 0, 0)
  }

  function Total(p: Params, g: Gate, steps: seq<Step>): Tally
    requires Legal(p, g, steps)
    decreases |steps|
  {
    if steps == [] then Tally(0, 0, 0, 0)
    else
      var a, b := Tokens(p, g, steps[0]), Total(p, Do(p, g, steps[0]), steps[1..]);
      Tally(a.refills + b.refills, a.added + b.added, a.consumed + b.consumed, a.discarded + b.discarded)
  }
}
