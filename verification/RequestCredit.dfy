/** The request-credit engine as it is: loops over the slot array, and a map of victim
    records that user space rewrites whole and the BPF program changes in place. */
module RequestCredit {
  import opened Options
  import opened CreditSpec
  import opened CreditProtocol

  /** Not found is -1. */
  function Index(r: Option<nat>): int {
    if r.Some? then r.value else -1
  }

  method FindExactSlot(slots: seq<Slot>, key: nat) returns (r: int)
    ensures r == Index(FindExact(slots, key))
  {
    r := -1;
    if key != 0 {
      var i := 0;
      while i < |slots| && r < 0
        invariant i <= |slots|
        invariant if r < 0 then r == -1 && First(slots, OwnedBy(key), 0) == First(slots, OwnedBy(key), i)
                  else First(slots, OwnedBy(key), 0) == Some(r)
        decreases |slots| - i, r < 0
      {
        if slots[i].key == key {
          r := i;
        }
        i := i + 1;
      }
    }
  }

  /** What a pass over the first i slots remembers of a kind. */
  predicate Remembers(slots: seq<Slot>, kind: Kind, i: nat, r: int) {
    i <= |slots| && if r < 0 then r == -1 && First(slots, kind, 0) == First(slots, kind, i) else First(slots, kind, 0) == Some(r)
  }

  method FindFreeSlot(slots: seq<Slot>) returns (r: int)
    ensures r == Index(FindFree(slots))
  {
    var empty, reusable := -1, -1;
    r := -1;
    var i := 0;
    while i < |slots| && r < 0
      invariant Remembers(slots, Blank, i, r)
      invariant r < 0 ==> Remembers(slots, Spent, i, reusable) && Remembers(slots, Unowned, i, empty)
      decreases |slots| - i, r < 0
    {
      if slots[i].key == 0 && slots[i].credits == 0 && slots[i].delay == 0 {
        r := i;
      }
      if slots[i].credits == 0 && reusable < 0 {
        reusable := i;
      }
      if slots[i].key == 0 && empty < 0 {
        empty := i;
      }
      i := i + 1;
    }
    if r < 0 {
      r := if reusable >= 0 then reusable else empty;
    }
  }

  method FindSlotForSource(slots: seq<Slot>, key: nat) returns (r: int)
    ensures r == Index(FindForSource(slots, key))
  {
    r := FindExactSlot(slots, key);
    if r < 0 {
      r := FindFreeSlot(slots);
    }
  }

  method MaxSlotDelay(slots: seq<Slot>) returns (r: nat)
    ensures r == MaxDelay(slots)
  {
    r := 0;
    var i := 0;
    assert slots[..0] == [];
    while i < |slots|
      invariant i <= |slots| && r == MaxDelay(slots[..i])
    {
      assert slots[..i + 1][..i] == slots[..i];
      if slots[i].delay > r {
        r := slots[i].delay;
      }
      i := i + 1;
    }
    assert slots[..i] == slots;
  }

  lemma ScanNone(slots: seq<Slot>, start: nat)
    requires |slots| == SLOTS && start < SLOTS
    ensures Scan(slots, start, 0) == None
  {
  }

  lemma ScanHere(slots: seq<Slot>, start: nat, step: nat)
    requires |slots| == SLOTS && step < SLOTS
    ensures var i := (start + step) % SLOTS;
            Scan(slots, i, SLOTS - step) ==
            if Is(Due, slots[i]) then Some(i) else Scan(slots, (start + (step + 1)) % SLOTS, SLOTS - (step + 1))
  {
    assert ((start + step) % SLOTS + 1) % SLOTS == (start + (step + 1)) % SLOTS;
  }

  /** The slot loop of consume_once. */
  method PickSlot(slots: seq<Slot>, start: nat) returns (chosen: int)
    requires |slots| == SLOTS && start < SLOTS
    ensures chosen == Index(Choose(slots, start))
  {
    chosen := -1;
    var step := 0;
    assert start % SLOTS == start;
    hide Scan;
    while step < SLOTS && chosen < 0
      invariant step <= SLOTS
      invariant if chosen < 0 then chosen == -1 && Choose(slots, start) == Scan(slots, (start + step) % SLOTS, SLOTS - step)
                else Choose(slots, start) == Some(chosen)
      decreases SLOTS - step
    {
      var i := (start + step) % SLOTS;
      ScanHere(slots, start, step);
      if slots[i].key != 0 && slots[i].delay != 0 && slots[i].credits > 0 {
        chosen := i;
      }
      step := step + 1;
    }
    assert chosen < 0 ==> Choose(slots, start) == None by { ScanNone(slots, (start + step) % SLOTS); }
  }

  class RequestCreditEngine {
    var active: bool
    var victimMap: map<nat, Cfg>
    const defaultDelay: nat

    /** One victim's record as a lookup copies it. */
    ghost function Copy(cgroup: nat): Option<Cfg>
      reads this
    {
      if cgroup in victimMap then Some(victimMap[cgroup]) else None
    }

    ghost predicate Valid()
      reads this
    {
      forall cgroup | cgroup in victimMap :: CfgOk(victimMap[cgroup])
    }

    constructor (delay: nat)
      ensures Valid() && victimMap == map[] && defaultDelay == delay && !active
    {
      active, victimMap, defaultDelay := false, map[], delay;
    }

    /** The map after an operation wrote its record back. */
    ghost function After(op: Op): map<nat, Cfg>
      reads this
    {
      var r := Result(Pending(op, Copy(CgroupOf(op))));
      if r.Some? then victimMap[CgroupOf(op) := r.value] else victimMap
    }

    /** `written` is whether the kernel takes the update. */
    method ArmSource(cgroup: nat, key: Key, count: int, asked: nat, written: bool) returns (ok: bool)
      requires Valid()
      modifies this`victimMap
      ensures ok ==> count >= 0 && active && written
      ensures count >= 0 && active && written ==>
                && victimMap == old(After(Arm(cgroup, key, count, asked, defaultDelay)))
                && (ok <==> old(Result(Pending(Arm(cgroup, key, count, asked, defaultDelay), Copy(cgroup))).Some?))
      ensures !ok ==> victimMap == old(victimMap)
    {
      hide CfgOk, First, MaxDelay;
      ok := false;
      if count >= 0 && active {
        var cfg := if cgroup in victimMap then victimMap[cgroup] else NewCfg();
        var existing := MaxSlotDelay(cfg.slots);
        var delay := if asked > 0 then asked else if existing > 0 then existing else defaultDelay;
        var i := FindSlotForSource(cfg.slots, key);
        if 0 <= i < |cfg.slots| {
          var credits := cfg.slots[i].credits + count;
          if credits < 0 {
            credits := 0;
          }
          cfg := Cfg(true, i, cfg.slots[i := Slot(key, delay, credits)]);
          if written {
            victimMap := victimMap[cgroup := cfg];
            ok := true;
          }
        }
      }
    }

    method ConsumeCredit(ev: Event, written: bool) returns (ok: bool)
      requires Valid()
      modifies this`victimMap
      ensures written ==>
                && victimMap == old(After(Spend(ev)))
                && (ok <==> old(Result(Pending(Spend(ev), Copy(ev.cgroup))).Some?))
      ensures !written ==> !ok && victimMap == old(victimMap)
    {
      hide CfgOk, First;
      ok := false;
      if ev.cgroup in victimMap && victimMap[ev.cgroup].enabled {
        var cfg := victimMap[ev.cgroup];
        var i: int;
        if ev.hint < |cfg.slots| && cfg.slots[ev.hint].key == ev.key {
          i := ev.hint;
        } else {
          i := FindExactSlot(cfg.slots, ev.key);
        }
        if 0 <= i < |cfg.slots| && cfg.slots[i].delay != 0 && cfg.slots[i].credits > 0 && written {
          cfg := cfg.(slots := cfg.slots[i := cfg.slots[i].(credits := cfg.slots[i].credits - 1)]);
          victimMap := victimMap[ev.cgroup := cfg];
          ok := true;
        }
      }
    }

    /** clear, for one victim. */
    method ClearVictim(cgroup: nat, written: bool)
      requires Valid()
      modifies this`victimMap
      ensures written ==> victimMap == old(After(Clear(cgroup)))
      ensures !written ==> victimMap == old(victimMap)
    {
      if cgroup in victimMap {
        var cfg := victimMap[cgroup];
        var slots := cfg.slots;
        var i := 0;
        while i < |slots|
          invariant i <= |slots| == |cfg.slots|
          invariant forall k | 0 <= k < |slots| :: slots[k] == if k < i then Slot(cfg.slots[k].key, 0, 0) else cfg.slots[k]
        {
          slots := slots[i := slots[i].(credits := 0, delay := 0)];
          i := i + 1;
        }
        if written {
          assert Cleared(cfg).slots == slots;
          victimMap := victimMap[cgroup := Cfg(cfg.enabled, 0, slots)];
        }
      }
    }

    /** The map as the state of the protocol between two operations. */
    ghost function State(): (st: CreditProtocol.State)
      reads this
      ensures Valid() ==> Inv(st)
    {
      CreditProtocol.State(victimMap, [], None, None)
    }

    /** A turn of the BPF program that reads the cursor as it is. */
    ghost function Turn(cgroup: nat): Step
      reads this
    {
      Bpf(cgroup, if cgroup in victimMap then victimMap[cgroup].cursor else 0, false)
    }

    /** consume_once of the BPF program: the turn of the protocol, or nothing if there is none. */
    method ConsumeOnce(cgroup: nat) returns (event: Option<Event>)
      requires Valid()
      modifies this`victimMap
      ensures event.Some? <==> old(Enabled(State(), Turn(cgroup)))
      ensures event.Some? ==> State().victims == old(Do(State(), Turn(cgroup))).victims
                              && [event.value] == old(Do(State(), Turn(cgroup))).events
      ensures event.None? ==> victimMap == old(victimMap)
    {
      event := None;
      if cgroup in victimMap && victimMap[cgroup].enabled {
        var cfg := victimMap[cgroup];
        assert |cfg.slots| == SLOTS && cfg.cursor < SLOTS;
        hide CfgOk;
        var i := PickSlot(cfg.slots, cfg.cursor);
        if i >= 0 {
          victimMap := victimMap[cgroup := cfg.(cursor := (i + 1) % SLOTS)];
          event := Some(Event(cgroup, cfg.slots[i].key, i));
        }
      }
    }
  }
}
