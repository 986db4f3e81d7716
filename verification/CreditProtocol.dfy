/** The two sides of the request-credit engine under every interleaving.  User space looks
    a record up and writes the whole of it back later, under a mutex that the BPF side does
    not take; the BPF side queues events without spending credits. */
module CreditProtocol {
  import opened Options
  import opened CreditSpec
  import opened CreditTables

  datatype Event = Event(cgroup: nat, key: Key, hint: nat)

  datatype Op =
    | Arm(cgroup: nat, key: Key, count: nat, asked: nat, standard: nat)
    | Spend(event: Event)
    | Clear(cgroup: nat)

  function CgroupOf(op: Op): nat {
    match op
    case Arm(cgroup, _, _, _, _) => cgroup
    case Spend(event) => event.cgroup
    case Clear(cgroup) => cgroup
  }

  /** An operation between its lookup and its write, with the record it read. */
  datatype Pending = Pending(op: Op, copy: Option<Cfg>)

  /** `due` is a spent credit whose delay is not injected yet. */
  datatype State = State(victims: map<nat, Cfg>, events: seq<Event>, pending: Option<Pending>, due: Option<Event>)

  datatype Step =
    | Bpf(cgroup: nat, start: nat, dropped: bool)
    | Lookup(op: Op)
    | Commit(written: bool)
    | Inject

  function Init(): State {
    State(map[], [], None, None)
  }

  /** The record an operation writes back, if it gets that far. */
  function Result(p: Pending): Option<Cfg> {
    match p.op
    case Arm(_, key, count, asked, standard) =>
      Armed(if p.copy.Some? then p.copy.value else NewCfg(), key, count, asked, standard)
    case Spend(ev) => if p.copy.Some? then Consumed(p.copy.value, ev.key, ev.hint) else None
    case Clear(_) => if p.copy.Some? then Some(Cleared(p.copy.value)) else None
  }

  predicate Writes(st: State, step: Step) {
    step.Commit? && step.written && st.pending.Some? && Result(st.pending.value).Some?
  }

  /** `start` is the cursor the BPF program read, which another processor may have moved since. */
  predicate Enabled(st: State, step: Step) {
    match step
    case Bpf(cgroup, start, _) =>
      && cgroup in st.victims && st.victims[cgroup].enabled && start < SLOTS
      && |st.victims[cgroup].slots| == SLOTS && Choose(st.victims[cgroup].slots, start).Some?
    case Lookup(op) =>
      st.pending == None && (op.Spend? ==> st.due == None && st.events != [] && op.event == st.events[0])
    case Commit(_) => st.pending.Some?
    case Inject => st.due.Some?
  }

  function Do(st: State, step: Step): State
    requires Enabled(st, step)
  {
    match step
    case Bpf(cgroup, start, dropped) =>
      var cfg := st.victims[cgroup];
      var i := Choose(cfg.slots, start).value;
      st.(victims := st.victims[cgroup := cfg.(cursor := (i + 1) % SLOTS)],
          events := if dropped then st.events else st.events + [Event(cgroup, cfg.slots[i].key, i)])
    case Lookup(op) =>
      st.(pending := Some(Pending(op, if CgroupOf(op) in st.victims then Some(st.victims[CgroupOf(op)]) else None)),
          events := if op.Spend? then st.events[1..] else st.events)
    case Commit(_) =>
      if Writes(st, step) then
        var op := st.pending.value.op;
        st.(pending := None, victims := st.victims[CgroupOf(op) := Result(st.pending.value).value],
            due := if op.Spend? then Some(op.event) else st.due)
      else st.(pending := None)
    case Inject => st.(due := None)
  }

  predicate Legal(st: State, steps: seq<Step>)
    decreases |steps|
  {
    steps == [] || (Enabled(st, steps[0]) && Legal(Do(st, steps[0]), steps[1..]))
  }

  function Run(st: State, steps: seq<Step>): State
    requires Legal(st, steps)
    decreases |steps|
  {
    if steps == [] then st else Run(Do(st, steps[0]), steps[1..])
  }

  // ------------------------------------------------------------- invariant

  ghost predicate TablesOk(st: State) {
    forall cgroup | cgroup in st.victims :: CfgOk(st.victims[cgroup])
  }

  /** Since the lookup, only the cursor may have moved. */
  predicate CopyOk(st: State) {
    st.pending.Some? ==>
      var p := st.pending.value;
      var cgroup := CgroupOf(p.op);
      && (p.copy.Some? <==> cgroup in st.victims)
      && (p.copy.Some? ==> CfgOk(p.copy.value) && p.copy.value.slots == st.victims[cgroup].slots)
  }

  /** The mutex and the polling thread's own order: while it spends, nothing waits for injection. */
  predicate DueOk(st: State) {
    st.pending.Some? && st.pending.value.op.Spend? ==> st.due == None
  }

  ghost predicate Inv(st: State) {
    TablesOk(st) && CopyOk(st) && DueOk(st)
  }

  lemma CursorIsFree(cfg: Cfg, cursor: nat)
    requires CfgOk(cfg) && cursor < SLOTS
    ensures CfgOk(cfg.(cursor := cursor))
  {
  }

  lemma ResultOk(st: State)
    requires Inv(st) && st.pending.Some? && Result(st.pending.value).Some?
    ensures CfgOk(Result(st.pending.value).value)
  {
    hide CfgOk, Armed, Consumed, Cleared;
    var p := st.pending.value;
    NewCfgOk();
    match p.op
    case Arm(_, key, count, asked, standard) =>
      ArmKeeps(if p.copy.Some? then p.copy.value else NewCfg(), key, count, asked, standard, key);
    case Spend(ev) => ConsumeKeeps(p.copy.value, ev.key, ev.hint, ev.key);
    case Clear(_) => ClearKeeps(p.copy.value, 1);
  }

  lemma StepKeepsInv(st: State, step: Step)
    requires Inv(st) && Enabled(st, step)
    ensures Inv(Do(st, step))
  {
    hide CfgOk, Result, Choose;
    if step.Bpf? {
      var i := Choose(st.victims[step.cgroup].slots, step.start).value;
      CursorIsFree(st.victims[step.cgroup], (i + 1) % SLOTS);
    } else if Writes(st, step) {
      ResultOk(st);
    }
  }

  // --------------------------------------------------------- conservation

  /** The books of one source in one cgroup. */
  datatype Ledger = Ledger(armed: int, spent: int, cleared: int, injected: int)

  function Entry(st: State, step: Step, cgroup: nat, key: Key): Ledger {
    if step.Inject? then Ledger(0, 0, 0, DueCount(st, cgroup, key))
    else if !Writes(st, step) || CgroupOf(st.pending.value.op) != cgroup then Ledger(0, 0, 0, 0)
    else
      match st.pending.value.op
      case Arm(_, k, count, _, _) => Ledger(if k == key then count else 0, 0, 0, 0)
      case Spend(ev) => Ledger(0, if ev.key == key then 1 else 0, 0, 0)
      case Clear(_) => Ledger(0, 0, Credits(st, cgroup, key), 0)
  }

  function Books(st: State, steps: seq<Step>, cgroup: nat, key: Key): Ledger
    requires Legal(st, steps)
    decreases |steps|
  {
    if steps == [] then Ledger(0, 0, 0, 0)
    else
      var a, b := Entry(st, steps[0], cgroup, key), Books(Do(st, steps[0]), steps[1..], cgroup, key);
      Ledger(a.armed + b.armed, a.spent + b.spent, a.cleared + b.cleared, a.injected + b.injected)
  }

  function Credits(st: State, cgroup: nat, key: Key): int {
    if cgroup in st.victims then KeyCredits(st.victims[cgroup].slots, key) else 0
  }

  function DueCount(st: State, cgroup: nat, key: Key): int {
    if st.due.Some? && st.due.value.cgroup == cgroup && st.due.value.key == key then 1 else 0
  }

  lemma WriteConserves(st: State, step: Step, key: Key)
    requires Inv(st) && Writes(st, step)
    ensures var cgroup := CgroupOf(st.pending.value.op);
            var e := Entry(st, step, cgroup, key);
            KeyCredits(Result(st.pending.value).value.slots, key) == Credits(st, cgroup, key) + e.armed - e.spent - e.cleared
  {
    hide CfgOk, Armed, Consumed, Cleared, KeyCredits;
    var p := st.pending.value;
    NewCfgOk();
    match p.op
    case Arm(_, k, count, asked, standard) =>
      ArmKeeps(if p.copy.Some? then p.copy.value else NewCfg(), k, count, asked, standard, key);
    case Spend(ev) => ConsumeKeeps(p.copy.value, ev.key, ev.hint, key);
    case Clear(_) => ClearKeeps(p.copy.value, key);
  }

  lemma StepConserves(st: State, step: Step, cgroup: nat, key: Key)
    requires Inv(st) && Enabled(st, step)
    ensures var e := Entry(st, step, cgroup, key);
            && Credits(Do(st, step), cgroup, key) == Credits(st, cgroup, key) + e.armed - e.spent - e.cleared
            && DueCount(Do(st, step), cgroup, key) == DueCount(st, cgroup, key) + e.spent - e.injected
  {
    hide CfgOk, Result, KeyCredits;
    if Writes(st, step) {
      WriteConserves(st, step, key);
    }
  }

  lemma CreditsNonNegative(st: State, cgroup: nat, key: Key)
    requires TablesOk(st)
    ensures Credits(st, cgroup, key) >= 0
  {
    if cgroup in st.victims {
      KeyCreditsNonNegative(st.victims[cgroup].slots, key);
    }
  }

  lemma {:induction false} RunConserves(st: State, steps: seq<Step>, cgroup: nat, key: Key)
    requires Inv(st) && Legal(st, steps)
    ensures var b, end := Books(st, steps, cgroup, key), Run(st, steps);
            && Inv(end)
            && Credits(end, cgroup, key) == Credits(st, cgroup, key) + b.armed - b.spent - b.cleared
            && DueCount(end, cgroup, key) == DueCount(st, cgroup, key) + b.spent - b.injected
            && b.cleared >= 0
    decreases |steps|
  {
    hide Inv, Enabled, Do, KeyCredits, DueCount;
    if steps != [] {
      StepKeepsInv(st, steps[0]);
      StepConserves(st, steps[0], cgroup, key);
      EntryClears(st, steps[0], cgroup, key);
      RunConserves(Do(st, steps[0]), steps[1..], cgroup, key);
    }
  }

  lemma EntryClears(st: State, step: Step, cgroup: nat, key: Key)
    requires Inv(st)
    ensures Entry(st, step, cgroup, key).cleared >= 0
  {
    hide Result, KeyCredits, CfgOk;
    CreditsNonNegative(st, cgroup, key);
  }

  /** Credit conservation: whatever the interleaving of cursor writes, stale and duplicate
      events, failed writes and clears, a source's armed credits are those it still has, those
      spent and those cleared; and its injected delays never exceed its armed credits. */
  lemma CreditConservation(steps: seq<Step>, cgroup: nat, key: Key)
    requires Legal(Init(), steps)
    ensures var b, end := Books(Init(), steps, cgroup, key), Run(Init(), steps);
            && b.armed == Credits(end, cgroup, key) + b.spent + b.cleared
            && Credits(end, cgroup, key) >= 0 && b.cleared >= 0
            && b.injected <= b.spent <= b.armed
            && forall c | c in end.victims :: CfgOk(end.victims[c])
  {
    hide CfgOk, Books, Legal, Run, KeyCredits, Choose, Result;
    RunConserves(Init(), steps, cgroup, key);
    CreditsNonNegative(Run(Init(), steps), cgroup, key);
  }

  // ------------------------------------------------- fairness of the BPF side

  /** The step reads the victim's cursor as it is, and nobody writes the victim's record. */
  predicate Undisturbed(st: State, step: Step, cgroup: nat) {
    && cgroup in st.victims
    && (step.Bpf? && step.cgroup == cgroup ==> step.start == st.victims[cgroup].cursor)
    && !(Writes(st, step) && CgroupOf(st.pending.value.op) == cgroup)
  }

  predicate AllUndisturbed(st: State, steps: seq<Step>, cgroup: nat)
    requires Legal(st, steps)
    decreases |steps|
  {
    steps == [] || (Undisturbed(st, steps[0], cgroup) && AllUndisturbed(Do(st, steps[0]), steps[1..], cgroup))
  }

  /** The slots of a victim that a run serves, in order. */
  function Served(st: State, steps: seq<Step>, cgroup: nat): seq<nat>
    requires Legal(st, steps)
    decreases |steps|
  {
    if steps == [] then []
    else
      var rest := Served(Do(st, steps[0]), steps[1..], cgroup);
      if steps[0].Bpf? && steps[0].cgroup == cgroup then
        [Choose(st.victims[cgroup].slots, steps[0].start).value] + rest
      else rest
  }

  /** One step serves the next pick, and leaves the cursor where the picks go on. */
  lemma ServesNext(st: State, step: Step, cgroup: nat)
    requires Inv(st) && Enabled(st, step) && Undisturbed(st, step, cgroup)
    ensures cgroup in Do(st, step).victims && CfgOk(st.victims[cgroup]) && CfgOk(Do(st, step).victims[cgroup])
    ensures var cfg, after := st.victims[cgroup], Do(st, step).victims[cgroup];
            && after.slots == cfg.slots
            && if step.Bpf? && step.cgroup == cgroup then
                 Choose(cfg.slots, cfg.cursor).Some? && after.cursor == (Choose(cfg.slots, cfg.cursor).value + 1) % SLOTS
               else after.cursor == cfg.cursor
  {
    hide CfgOk, Choose, Result;
    StepKeepsInv(st, step);
  }

  lemma ServedCons(st: State, steps: seq<Step>, cgroup: nat)
    requires Legal(st, steps) && steps != []
    ensures var rest := Served(Do(st, steps[0]), steps[1..], cgroup);
            Served(st, steps, cgroup)
            == if steps[0].Bpf? && steps[0].cgroup == cgroup then
                 [Choose(st.victims[cgroup].slots, steps[0].start).value] + rest
               else rest
  {
    hide Choose, Do;
  }

  lemma TableSizes(cfg: Cfg)
    requires CfgOk(cfg)
    ensures |cfg.slots| == SLOTS && cfg.cursor < SLOTS
  {
  }

  lemma {:induction false} ServedArePicks(st: State, steps: seq<Step>, cgroup: nat)
    requires Inv(st) && Legal(st, steps) && AllUndisturbed(st, steps, cgroup) && cgroup in st.victims
    requires CfgOk(st.victims[cgroup])
    ensures var cfg, served := st.victims[cgroup], Served(st, steps, cgroup);
            served == Picks(cfg.slots, cfg.cursor, |served|)
    decreases |steps|
  {
    hide Inv, Do, Choose, Enabled, Writes, CfgOk, Served, Picks;
    TableSizes(st.victims[cgroup]);
    var cfg := st.victims[cgroup];
    if steps == [] {
      NothingServed(st, cgroup);
    } else {
      StepKeepsInv(st, steps[0]);
      ServesNext(st, steps[0], cgroup);
      var st' := Do(st, steps[0]);
      TableSizes(st'.victims[cgroup]);
      ServedArePicks(st', steps[1..], cgroup);
      ServedCons(st, steps, cgroup);
      if steps[0].Bpf? && steps[0].cgroup == cgroup {
        PicksNext(cfg.slots, cfg.cursor, |Served(st', steps[1..], cgroup)|);
      }
    }
  }

  lemma NothingServed(st: State, cgroup: nat)
    requires cgroup in st.victims && CfgOk(st.victims[cgroup])
    ensures Served(st, [], cgroup) == [] == Picks(st.victims[cgroup].slots, st.victims[cgroup].cursor, 0)
  {
  }

  /** Fairness of runs: from any state, as long as nobody writes a victim's record, as many
      turns of the BPF program on it as it has slots with something to spend serve each of them
      exactly once, in cyclic order from its cursor, whatever else happens in between. */
  lemma FairTurns(st: State, steps: seq<Step>, cgroup: nat)
    requires Inv(st) && Legal(st, steps) && AllUndisturbed(st, steps, cgroup) && cgroup in st.victims
    requires CfgOk(st.victims[cgroup])
    requires |Served(st, steps, cgroup)| == |DueSlots(st.victims[cgroup].slots)|
    ensures var cfg, served := st.victims[cgroup], Served(st, steps, cgroup);
            && (forall i :: i in served <==> i in DueSlots(cfg.slots))
            && (forall k | 0 <= k < |served| :: served[k] < SLOTS)
            && (forall j, k | 0 <= j < k < |served| :: Offset(cfg.cursor, served[j]) < Offset(cfg.cursor, served[k]))
  {
    hide Served, AllUndisturbed, Legal, Inv, Picks, DueSlots;
    ServedArePicks(st, steps, cgroup);
    RoundRobin(st.victims[cgroup].slots, st.victims[cgroup].cursor);
  }

  /** What a turn does, in terms of the slot it chooses. */
  lemma TurnEvent(st: State, cgroup: nat, start: nat)
    requires cgroup in st.victims && CfgOk(st.victims[cgroup]) && start < SLOTS
    ensures |st.victims[cgroup].slots| == SLOTS
    ensures var turn, cfg := Bpf(cgroup, start, false), st.victims[cgroup];
            && (Enabled(st, turn) <==> cfg.enabled && Choose(cfg.slots, start).Some?)
            && (Enabled(st, turn) ==>
                  var i := Choose(cfg.slots, start).value;
                  && cfg.slots[i].key >= 1 && cgroup in Do(st, turn).victims
                  && Do(st, turn).victims[cgroup].cursor == (i + 1) % SLOTS
                  && Do(st, turn).events == st.events + [Event(cgroup, cfg.slots[i].key, i)])
  {
    hide Scan, SlotOk;
  }

  /** There is a turn exactly when the victim is enabled and has something to spend; it queues
      the source of the nearest such slot; and the same slot is served again next only if
      there is no other. */
  lemma TurnServes(st: State, cgroup: nat, start: nat)
    requires cgroup in st.victims && CfgOk(st.victims[cgroup]) && start < SLOTS
    ensures |st.victims[cgroup].slots| == SLOTS
    ensures Enabled(st, Bpf(cgroup, start, false)) <==> st.victims[cgroup].enabled && DueSlots(st.victims[cgroup].slots) != {}
    ensures Enabled(st, Bpf(cgroup, start, false)) ==>
              var slots, after := st.victims[cgroup].slots, Do(st, Bpf(cgroup, start, false));
              && |after.events| == |st.events| + 1 && after.events[..|st.events|] == st.events
              && cgroup in after.victims && after.victims[cgroup].cursor < SLOTS
              && var ev := after.events[|st.events|];
                 && ev.cgroup == cgroup && ev.hint in DueSlots(slots) && slots[ev.hint].key == ev.key
                 && (forall i | i in DueSlots(slots) :: Offset(start, ev.hint) <= Offset(start, i))
                 && (Choose(slots, after.victims[cgroup].cursor) == Some(ev.hint) <==> DueSlots(slots) == {ev.hint})
  {
    hide CfgOk, Is, Choose, Do, Enabled, Offset;
    var slots := st.victims[cgroup].slots;
    TurnEvent(st, cgroup, start);
    ChooseIsNearest(slots, start);
    if Choose(slots, start).Some? {
      OnlyItself(slots, Choose(slots, start).value);
    }
  }

  /** A turn's event, taken up before anybody else writes the record, spends a credit of the
      slot that was served. */
  lemma EventSpends(st: State, cgroup: nat, start: nat)
    requires Inv(st) && Enabled(st, Bpf(cgroup, start, false)) && st.pending == None && st.due == None && st.events == []
    ensures var st1 := Do(st, Bpf(cgroup, start, false));
            && st1.events != [] && Enabled(st1, Lookup(Spend(st1.events[0])))
            && var i, st2 := st1.events[0].hint, Do(st1, Lookup(Spend(st1.events[0])));
               var slots := st.victims[cgroup].slots;
               && i < |slots| && st2.pending.Some? && cgroup in Do(st2, Commit(true)).victims
               && Do(st2, Commit(true)).victims[cgroup].slots == slots[i := slots[i].(credits := slots[i].credits - 1)]
               && Do(st2, Commit(true)).due == Some(st1.events[0])
  {
    hide CfgOk, Scan, Choose;
  }

  /** An operation that looked a record up always ends: whether it writes or not, the next one
      can begin, and if it does not write, no record has changed. */
  lemma CommitReleases(st: State, step: Step, next: Op)
    requires Enabled(st, step) && step.Commit? && !next.Spend?
    ensures Enabled(Do(st, step), Lookup(next))
    ensures !Writes(st, step) ==> Do(st, step).victims == st.victims && Do(st, step).due == st.due
    ensures Do(st, step).events == st.events
  {
    hide Result;
  }

  // ------------------------------------------------- each event spends once

  function EventsOf(events: seq<Event>, cgroup: nat, key: Key): nat {
    if events == [] then 0
    else (if events[0].cgroup == cgroup && events[0].key == key then 1 else 0) + EventsOf(events[1..], cgroup, key)
  }

  lemma {:induction false} EventsAppend(events: seq<Event>, ev: Event, cgroup: nat, key: Key)
    ensures EventsOf(events + [ev], cgroup, key) == EventsOf(events, cgroup, key) + EventsOf([ev], cgroup, key)
  {
    if events == [] {
      assert events + [ev] == [ev];
    } else {
      assert (events + [ev])[1..] == events[1..] + [ev];
      EventsAppend(events[1..], ev, cgroup, key);
    }
  }

  /** The event that is being spent. */
  function InHand(st: State): seq<Event> {
    if st.pending.Some? && st.pending.value.op.Spend? then [st.pending.value.op.event] else []
  }

  /** Events queued for a source during a run. */
  function Queued(st: State, steps: seq<Step>, cgroup: nat, key: Key): nat
    requires Legal(st, steps)
    decreases |steps|
  {
    if steps == [] then 0
    else
      var rest := Queued(Do(st, steps[0]), steps[1..], cgroup, key);
      match steps[0]
      case Bpf(c, start, dropped) =>
        var slots := st.victims[c].slots;
        rest + if !dropped && c == cgroup && slots[Choose(slots, start).value].key == key then 1 else 0
      case _ => rest
  }

  lemma StepSpendsOnce(st: State, step: Step, cgroup: nat, key: Key)
    requires Inv(st) && Enabled(st, step)
    ensures var st' := Do(st, step);
            EventsOf(st'.events, cgroup, key) + EventsOf(InHand(st'), cgroup, key) + Entry(st, step, cgroup, key).spent
            <= EventsOf(st.events, cgroup, key) + EventsOf(InHand(st), cgroup, key) + Queued(st, [step], cgroup, key)
  {
    hide CfgOk, Choose, Result, KeyCredits;
    match step
    case Bpf(c, start, dropped) =>
      var slots := st.victims[c].slots;
      var i := Choose(slots, start).value;
      TableSizes(st.victims[c]);
      KeyOfChoice(slots, start);
      if !dropped { EventsAppend(st.events, Event(c, slots[i].key, i), cgroup, key); }
    case Lookup(op) =>
    case Commit(_) =>
    case Inject =>
  }

  lemma KeyOfChoice(slots: seq<Slot>, start: nat)
    requires |slots| == SLOTS && start < SLOTS && Choose(slots, start).Some?
    ensures slots[Choose(slots, start).value].key >= 1
  {
    hide Scan;
  }

  /** Over any run the credits a source spends, and its events still queued or in hand, are no
      more than the events there were and those queued for it: no event spends twice. */
  lemma {:induction false} EventsSpendOnce(st: State, steps: seq<Step>, cgroup: nat, key: Key)
    requires Inv(st) && Legal(st, steps)
    ensures var end := Run(st, steps);
            Books(st, steps, cgroup, key).spent + EventsOf(end.events, cgroup, key) + EventsOf(InHand(end), cgroup, key)
            <= EventsOf(st.events, cgroup, key) + EventsOf(InHand(st), cgroup, key) + Queued(st, steps, cgroup, key)
    decreases |steps|
  {
    hide Inv, Enabled, Do, EventsOf, InHand, Entry, Choose;
    if steps != [] {
      StepKeepsInv(st, steps[0]);
      StepSpendsOnce(st, steps[0], cgroup, key);
      EventsSpendOnce(Do(st, steps[0]), steps[1..], cgroup, key);
      QueuedCons(st, steps, cgroup, key);
    }
  }

  lemma QueuedCons(st: State, steps: seq<Step>, cgroup: nat, key: Key)
    requires Legal(st, steps) && steps != []
    ensures Queued(st, steps, cgroup, key) == Queued(st, [steps[0]], cgroup, key) + Queued(Do(st, steps[0]), steps[1..], cgroup, key)
  {
    hide Do, Choose;
    assert [steps[0]][1..] == [];
  }
}
