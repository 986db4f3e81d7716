/** The gate's state as it is: fields changed under a mutex by its methods, and the
    refill parameters that are put right once at the start. */
module Gate {
  import opened Options
  import G = GateSpec

  class RefillParams {
    var target: int
    var lowWater: int
    var batch: int

    ghost function View(): G.Params
      reads this
    {
      G.Params(target, lowWater, batch)
    }

    method Normalize()
      modifies this
      ensures View() == G.Normalize(old(View()))
    {
      if target <= 0 {
        target := 16;
      }
      if lowWater < 0 {
        lowWater := 0;
      }
      if lowWater >= target {
        lowWater := G.Max(0, target / 2);
      }
      if batch <= 0 {
        batch := 8;
      }
    }
  }

  class GateState {
    var armActive: bool
    var armDelay: int
    var armCount: int
    var creditBalance: int
    var refillTokensAdded: int
    /** where the worker is; it changes by the worker's own steps only */
    var worker: G.Worker

    ghost function View(): G.Gate
      reads this
    {
      G.Gate(armActive, armDelay, armCount, creditBalance, worker)
    }

    /** One round of the worker up to its request: look, then check the configuration again. */
    method Look(params: RefillParams) returns (need: int)
      requires worker.Resting?
      modifies this`worker
      ensures need == G.Need(params.View(), old(View()))
      ensures View() == G.Do(params.View(), old(View()), G.Look)
    {
      need := 0;
      if armActive && armDelay > 0 && armCount > 0 && creditBalance < params.lowWater {
        need := G.Max(params.batch, params.target - creditBalance);
        if need <= 0 {
          need := params.batch;
        }
      }
      if need > 0 {
        worker := G.Looked(need);
      }
    }

    method Ask(params: RefillParams) returns (asked: bool)
      requires worker.Looked?
      modifies this`worker
      ensures View() == G.Do(params.View(), old(View()), G.Ask) && (asked <==> worker.Asked?)
    {
      asked := armActive && armDelay > 0 && armCount > 0;
      worker := if asked then G.Asked(worker.need) else G.Resting;
    }

    /** The controller's answer. */
    method Answer(params: RefillParams, ok: bool)
      requires worker.Asked?
      modifies this`worker, this`creditBalance, this`refillTokensAdded
      ensures View() == G.Do(params.View(), old(View()), G.Answer(ok))
      ensures refillTokensAdded == old(refillTokensAdded) + G.Tokens(params.View(), old(View()), G.Answer(ok)).added
    {
      if ok {
        creditBalance := creditBalance + worker.need;
        refillTokensAdded := refillTokensAdded + worker.need;
      }
      worker := G.Resting;
    }

    /** The success branch of a refill on enabling or after a miss. */
    method Add(params: RefillParams, tokens: nat)
      modifies this`creditBalance, this`refillTokensAdded
      ensures View() == G.Do(params.View(), old(View()), G.Add(tokens))
      ensures refillTokensAdded == old(refillTokensAdded) + tokens
    {
      creditBalance := creditBalance + tokens;
      refillTokensAdded := refillTokensAdded + tokens;
    }

    method ConsumeToken(params: RefillParams) returns (ok: bool, left: int)
      modifies this`creditBalance
      ensures View() == G.Do(params.View(), old(View()), G.Consume) && left == creditBalance
      ensures ok <==> old(creditBalance) > 0
    {
      ok := creditBalance > 0;
      if ok {
        creditBalance := creditBalance - 1;
      }
      left := creditBalance;
    }

    method SetArmConfig(params: RefillParams, delay: Option<int>, count: Option<int>) returns (changed: bool)
      modifies this`armDelay, this`armCount, this`creditBalance
      ensures View() == G.Do(params.View(), old(View()), G.Configure(delay, count))
      ensures changed <==> old(armDelay) != armDelay || old(armCount) != armCount
    {
      changed := false;
      if delay.Some? && delay.value >= 0 && delay.value != armDelay {
        armDelay := delay.value;
        changed := true;
      }
      if count.Some? && count.value >= 0 && count.value != armCount {
        armCount := count.value;
        changed := true;
      }
      if changed {
        creditBalance := 0;
      }
    }

    method SetArmActive(params: RefillParams, active: bool) returns (changed: bool)
      modifies this`armActive, this`creditBalance
      ensures View() == G.Do(params.View(), old(View()), G.SetActive(active))
      ensures changed <==> old(armActive) != active
    {
      changed := armActive != active;
      armActive := active;
      if !active {
        creditBalance := 0;
      }
    }
  }
}
