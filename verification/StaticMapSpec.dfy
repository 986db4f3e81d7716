/** Coz's fixed-size thread map under concurrent probes.  Every step touches one slot; a
    key's insert, finds and remove are all made by the thread it names. */
module StaticMapSpec {
  import opened Options

  const MAP_SIZE: nat := 4096
  const NULL_KEY: nat := 0

  type Key = k: nat | k != NULL_KEY witness 1

  /** Where a key's owner is.  `offset` counts the probes made. */
  datatype Phase =
    | Absent
    | Inserting(offset: nat)
    | Full
    | Live(slot: nat)
    | Finding(slot: nat, offset: nat)
    | Found(slot: nat, result: Option<nat>)
    | Removing(slot: nat, offset: nat)
    | Clearing(slot: nat, target: nat)

  datatype State = State(tags: seq<nat>, owners: map<nat, Phase>)

  function PhaseOf(st: State, k: Key): Phase {
    if k in st.owners then st.owners[k] else Absent
  }

  function Probe(k: Key, offset: nat): (r: nat)
    ensures r < MAP_SIZE
  {
    (k % MAP_SIZE + offset) % MAP_SIZE
  }

  /** A compare-and-swap may fail although the slot is free; a thread whose search or removal
      is over starts again from there. */
  datatype Step =
    | StartInsert(key: Key)
    | TryInsert(key: Key, spurious: bool)
    | StartFind(key: Key)
    | TryFind(key: Key)
    | Use(key: Key)
    | StartRemove(key: Key)
    | TryRemove(key: Key)
    | ClearSlot(key: Key)
    | GiveUp(key: Key)

  predicate Enabled(st: State, step: Step) {
    |st.tags| == MAP_SIZE &&
    var p := PhaseOf(st, step.key);
    match step
    case StartInsert(_) => p.Absent?
    case TryInsert(_, _) => p.Inserting?
    case StartFind(_) => p.Live?
    case TryFind(_) => p.Finding?
    case Use(_) => p.Found?
    case StartRemove(_) => p.Live?
    case TryRemove(_) => p.Removing?
    case ClearSlot(_) => p.Clearing? && p.target < MAP_SIZE
    case GiveUp(_) => p.Full?
  }

  function Next(st: State, step: Step): Phase
    requires Enabled(st, step)
  {
    var k, p := step.key, PhaseOf(st, step.key);
    match step
    case StartInsert(_) => Inserting(0)
    case TryInsert(_, spurious) =>
      if p.offset >= MAP_SIZE then Full
      else if st.tags[Probe(k, p.offset)] == NULL_KEY && !spurious then Live(Probe(k, p.offset))
      else Inserting(p.offset + 1)
    case StartFind(_) => Finding(p.slot, 0)
    case TryFind(_) =>
      if p.offset >= MAP_SIZE then Found(p.slot, None)
      else if st.tags[Probe(k, p.offset)] == k then Found(p.slot, Some(Probe(k, p.offset)))
      else Finding(p.slot, p.offset + 1)
    case Use(_) => Live(p.slot)
    case StartRemove(_) => Removing(p.slot, 0)
    case TryRemove(_) =>
      if p.offset >= MAP_SIZE then Live(p.slot)
      else if st.tags[Probe(k, p.offset)] == k then Clearing(p.slot, Probe(k, p.offset))
      else Removing(p.slot, p.offset + 1)
    case ClearSlot(_) => Absent
    case GiveUp(_) => Absent
  }

  function Do(st: State, step: Step): State
    requires Enabled(st, step)
  {
    var k, p := step.key, PhaseOf(st, step.key);
    var tags := if step.TryInsert? && Next(st, step).Live? then st.tags[Probe(k, p.offset) := k]
                else if step.ClearSlot? then st.tags[p.target := NULL_KEY]
                else st.tags;
    State(tags, st.owners[k := Next(st, step)])
  }

  // ------------------------------------------------------------- invariant

  /** The slot a key holds, if any. */
  function Holds(p: Phase): Option<nat> {
    match p
    case Live(slot) => Some(slot)
    case Finding(slot, _) => Some(slot)
    case Found(slot, _) => Some(slot)
    case Removing(slot, _) => Some(slot)
    case Clearing(slot, _) => Some(slot)
    case _ => None
  }

  /** The number of probes before a slot is reached. */
  function Distance(k: Key, slot: nat): nat
    requires slot < MAP_SIZE
  {
    if slot >= k % MAP_SIZE then slot - k % MAP_SIZE else slot + MAP_SIZE - k % MAP_SIZE
  }

  /** The slot is tagged with the key, its owner's scan has not passed it, and what a scan
      found is that slot. */
  predicate HolderOk(st: State, k: Key, p: Phase)
    requires |st.tags| == MAP_SIZE
  {
    && Holds(p).Some? && Holds(p).value < MAP_SIZE && st.tags[Holds(p).value] == k
    && (p.Finding? || p.Removing? ==> p.offset <= Distance(k, p.slot))
    && (p.Found? ==> p.result == Some(p.slot))
    && (p.Clearing? ==> p.target == p.slot)
  }

  /** A slot tagged with a key is the one its owner holds. */
  predicate TagOk(st: State, i: nat)
    requires i < |st.tags|
  {
    st.tags[i] != NULL_KEY ==> Holds(PhaseOf(st, st.tags[i])) == Some(i)
  }

  ghost predicate Inv(st: State) {
    && |st.tags| == MAP_SIZE
    && (forall i | 0 <= i < MAP_SIZE :: TagOk(st, i))
    && (forall k: Key :: Holds(PhaseOf(st, k)).Some? ==> HolderOk(st, k, PhaseOf(st, k)))
  }

  function Init(): State {
    State(seq(MAP_SIZE, i => NULL_KEY), map[])
  }

  lemma InitOk()
    ensures Inv(Init())
  {
  }

  /** The probes of a scan reach every slot, each at its distance. */
  lemma ProbeReaches(k: Key, slot: nat, offset: nat)
    requires slot < MAP_SIZE && offset < MAP_SIZE
    ensures Probe(k, offset) == slot <==> offset == Distance(k, slot)
    ensures Distance(k, slot) < MAP_SIZE
  {
  }

  /** A scan by a key's owner that has not reached its slot sees the key there and nowhere else. */
  lemma ScanSees(st: State, k: Key)
    requires Inv(st) && (PhaseOf(st, k).Finding? || PhaseOf(st, k).Removing?)
    ensures var p := PhaseOf(st, k);
            p.offset < MAP_SIZE && (st.tags[Probe(k, p.offset)] == k <==> Probe(k, p.offset) == p.slot)
    ensures var p := PhaseOf(st, k); Probe(k, p.offset) != p.slot ==> p.offset < Distance(k, p.slot)
  {
    var p := PhaseOf(st, k);
    assert HolderOk(st, k, p);
    hide Probe, Distance;
    ProbeReaches(k, p.slot, 0);
    ProbeReaches(k, p.slot, p.offset);
    assert TagOk(st, Probe(k, p.offset));
  }

  lemma OwnerKept(st: State, step: Step)
    requires Inv(st) && Enabled(st, step)
    ensures var st', k := Do(st, step), step.key;
            Holds(PhaseOf(st', k)).Some? ==> HolderOk(st', k, PhaseOf(st', k))
  {
    var k, p := step.key, PhaseOf(st, step.key);
    if p.Finding? || p.Removing? {
      ScanSees(st, k);
    }
    assert Holds(p).Some? ==> HolderOk(st, k, p);
    hide Probe;
    if step.StartFind? || step.StartRemove? {
      hide Distance;
    }
  }

  lemma OthersKept(st: State, step: Step, k: Key)
    requires Inv(st) && Enabled(st, step) && k != step.key
    ensures PhaseOf(Do(st, step), k) == PhaseOf(st, k)
    ensures Holds(PhaseOf(st, k)).Some? ==> HolderOk(Do(st, step), k, PhaseOf(st, k))
  {
    hide Probe, Distance;
    var p := PhaseOf(st, step.key);
    assert Holds(PhaseOf(st, k)).Some? ==> HolderOk(st, k, PhaseOf(st, k));
    assert Holds(p).Some? ==> HolderOk(st, step.key, p);
  }

  lemma TagKept(st: State, step: Step, i: nat)
    requires Inv(st) && Enabled(st, step) && i < MAP_SIZE
    ensures TagOk(Do(st, step), i)
  {
    hide Probe, Distance;
    assert TagOk(st, i);
    var p := PhaseOf(st, step.key);
    assert Holds(p).Some? ==> HolderOk(st, step.key, p);
  }

  lemma StepKeepsInv(st: State, step: Step)
    requires Inv(st) && Enabled(st, step)
    ensures Inv(Do(st, step))
  {
    hide Enabled, Next, Do, TagOk, HolderOk, Holds, PhaseOf, Probe;
    var st' := Do(st, step);
    assert |st'.tags| == MAP_SIZE by { TagCount(st, step); }
    forall i | 0 <= i < MAP_SIZE ensures TagOk(st', i) {
      TagKept(st, step, i);
    }
    forall k: Key ensures Holds(PhaseOf(st', k)).Some? ==> HolderOk(st', k, PhaseOf(st', k)) {
      if k == step.key {
        OwnerKept(st, step);
      } else {
        OthersKept(st, step, k);
      }
    }
  }

  lemma TagCount(st: State, step: Step)
    requires Enabled(st, step)
    ensures |Do(st, step).tags| == MAP_SIZE
  {
    hide Probe;
  }

  // ------------------------------------------------------------ main results

  predicate Legal(st: State, steps: seq<Step>)
    decreases |steps|
  {
    steps == [] || (Enabled(st, steps[0]) && Legal(Do(st, steps[0]), steps[1..]))
  }

  function Run(st: State, steps: seq<Step>): State
    requires Legal(st, steps)
    decreases |steps|
  {
    if steps == [] then st else Run(Do(st, steps[0]), steps[1..])
  }

  lemma {:induction false} RunKeepsInv(st: State, steps: seq<Step>)
    requires Inv(st) && Legal(st, steps)
    ensures Inv(Run(st, steps))
    decreases |steps|
  {
    hide Inv, Enabled, Do;
    if steps != [] {
      StepKeepsInv(st, steps[0]);
      RunKeepsInv(Do(st, steps[0]), steps[1..]);
    }
  }

  /** However probes interleave: two keys never hold the same slot, a key's tag is in no slot
      but its own, and a key nobody holds is nowhere in the table. */
  lemma SlotsAreExclusive(steps: seq<Step>, k: Key, l: Key, i: nat)
    requires Legal(Init(), steps) && i < MAP_SIZE
    ensures var st := Run(Init(), steps);
            && |st.tags| == MAP_SIZE
            && (k != l && Holds(PhaseOf(st, k)).Some? ==> Holds(PhaseOf(st, k)) != Holds(PhaseOf(st, l)))
            && (st.tags[i] == k <==> Holds(PhaseOf(st, k)) == Some(i))
  {
    hide Legal, Run, Enabled, Do, Next, Probe, Distance, PhaseOf;
    var st := Run(Init(), steps);
    InitOk();
    RunKeepsInv(Init(), steps);
    assert Holds(PhaseOf(st, k)).Some? ==> HolderOk(st, k, PhaseOf(st, k));
    assert Holds(PhaseOf(st, l)).Some? ==> HolderOk(st, l, PhaseOf(st, l));
    assert TagOk(st, i);
  }

  /** An owner's find always returns the slot its insert got, and its remove always finds it:
      no scan runs off the end, whatever others insert and remove meanwhile, so the table
      needs no tombstones. */
  lemma OwnScansSucceed(steps: seq<Step>, k: Key)
    requires Legal(Init(), steps)
    ensures var p := PhaseOf(Run(Init(), steps), k);
            && (p.Found? ==> p.result == Some(p.slot))
            && (p.Clearing? ==> p.target == p.slot)
            && (p.Finding? || p.Removing? ==> p.offset < MAP_SIZE)
  {
    hide Legal, Run, Enabled, Do, Next, Probe, Distance, PhaseOf;
    var st := Run(Init(), steps);
    InitOk();
    RunKeepsInv(Init(), steps);
    assert Holds(PhaseOf(st, k)).Some? ==> HolderOk(st, k, PhaseOf(st, k));
    if PhaseOf(st, k).Finding? || PhaseOf(st, k).Removing? {
      ScanSees(st, k);
    }
  }

  /** A key keeps its slot from insert to remove: no step of any thread moves it. */
  lemma SlotIsStable(st: State, step: Step, k: Key)
    requires Inv(st) && Enabled(st, step) && Holds(PhaseOf(st, k)).Some?
    ensures Holds(PhaseOf(Do(st, step), k)) == Holds(PhaseOf(st, k)) || step == ClearSlot(k)
  {
    hide Probe, Distance;
  }

  // ------------------------------------------------- every probe of a scan

  lemma {:induction false} RunSnoc(st: State, steps: seq<Step>)
    requires Legal(st, steps) && steps != []
    ensures var n := |steps| - 1;
            && Legal(st, steps[..n]) && Enabled(Run(st, steps[..n]), steps[n])
            && Run(st, steps) == Do(Run(st, steps[..n]), steps[n])
    decreases |steps|
  {
    var n := |steps| - 1;
    if n > 0 {
      RunSnoc(Do(st, steps[0]), steps[1..]);
      assert steps[1..][..n - 1] == steps[..n][1..] && steps[..n][0] == steps[0];
    } else {
      assert steps[..0] == [] && steps[1..] == [];
    }
  }

  /** In step j of the run k probes a slot in vain: it sees it taken, or its swap fails. */
  predicate FailedAt(steps: seq<Step>, k: Key, slot: nat, j: nat)
    requires slot < MAP_SIZE
  {
    && j < |steps| && steps[j].TryInsert? && steps[j].key == k && Legal(Init(), steps[..j])
    && var st := Run(Init(), steps[..j]);
       && |st.tags| == MAP_SIZE && PhaseOf(st, k) == Inserting(Distance(k, slot))
       && (st.tags[slot] != NULL_KEY || steps[j].spurious)
  }

  /** Probes of the insertion that k is making, or has just given up. */
  function ProbesMade(p: Phase): nat {
    match p
    case Inserting(offset) => offset
    case Full => MAP_SIZE
    case _ => 0
  }

  /** No new insertion of k begins from step j on. */
  predicate SameInsert(steps: seq<Step>, k: Key, j: nat) {
    forall i | j <= i < |steps| :: steps[i] != StartInsert(k)
  }

  lemma FailedEarlier(steps: seq<Step>, k: Key, slot: nat, j: nat)
    requires slot < MAP_SIZE && steps != [] && FailedAt(steps[..|steps| - 1], k, slot, j)
    ensures FailedAt(steps, k, slot, j)
  {
    assert steps[..|steps| - 1][..j] == steps[..j];
  }

  /** Whatever the interleaving, an insertion has passed a slot only because it was taken when
      it was probed or because the swap failed there; and it gives up only after it has probed
      every slot in vain. */
  lemma {:induction false} PassedInVain(steps: seq<Step>, k: Key, slot: nat) returns (j: nat)
    requires Legal(Init(), steps) && slot < MAP_SIZE && Distance(k, slot) < ProbesMade(PhaseOf(Run(Init(), steps), k))
    ensures FailedAt(steps, k, slot, j) && SameInsert(steps, k, j)
    decreases |steps|
  {
    hide Probe, Distance, Legal, Run, FailedAt;
    if steps == [] {
      NothingYet(k);
      assert false;
    } else {
      var n := |steps| - 1;
      var step := steps[n];
      RunSnoc(Init(), steps);
      var before := Run(Init(), steps[..n]);
      ProbeReaches(k, slot, 0);
      if Distance(k, slot) < ProbesMade(PhaseOf(before, k)) && step != StartInsert(k) {
        j := PassedInVain(steps[..n], k, slot);
        FailedEarlier(steps, k, slot, j);
      } else {
        j := n;
        LastProbe(before, step, k, slot);
        FailedHere(steps, k, slot);
      }
    }
  }

  lemma NothingYet(k: Key)
    ensures ProbesMade(PhaseOf(Run(Init(), []), k)) == 0
  {
  }

  /** The step that passes a slot is a probe of it in vain. */
  lemma LastProbe(st: State, step: Step, k: Key, slot: nat)
    requires Enabled(st, step) && slot < MAP_SIZE && Distance(k, slot) < ProbesMade(PhaseOf(Do(st, step), k))
    requires Distance(k, slot) >= ProbesMade(PhaseOf(st, k)) || step == StartInsert(k)
    ensures step.TryInsert? && step.key == k && PhaseOf(st, k) == Inserting(Distance(k, slot))
    ensures st.tags[slot] != NULL_KEY || step.spurious
  {
    hide Probe, Distance;
    ProbeReaches(k, slot, 0);
    if step.key == k && PhaseOf(st, k).Inserting? && PhaseOf(st, k).offset < MAP_SIZE {
      ProbeReaches(k, slot, PhaseOf(st, k).offset);
    }
  }

  lemma FailedHere(steps: seq<Step>, k: Key, slot: nat)
    requires slot < MAP_SIZE && steps != [] && Legal(Init(), steps[..|steps| - 1])
    requires var st, step := Run(Init(), steps[..|steps| - 1]), steps[|steps| - 1];
             && |st.tags| == MAP_SIZE && step.TryInsert? && step.key == k
             && PhaseOf(st, k) == Inserting(Distance(k, slot)) && (st.tags[slot] != NULL_KEY || step.spurious)
    ensures FailedAt(steps, k, slot, |steps| - 1)
  {
  }

  ghost predicate ProbedInVain(steps: seq<Step>, k: Key, slot: nat)
    requires slot < MAP_SIZE
  {
    exists j: nat :: FailedAt(steps, k, slot, j) && SameInsert(steps, k, j)
  }

  /** A full table, as an insertion sees it: every slot was probed in vain. */
  lemma FullMeansAllFailed(steps: seq<Step>, k: Key)
    requires Legal(Init(), steps) && PhaseOf(Run(Init(), steps), k).Full?
    ensures forall slot | 0 <= slot < MAP_SIZE :: ProbedInVain(steps, k, slot)
  {
    hide Distance, Probe, Legal, Run, FailedAt, SameInsert;
    forall slot | 0 <= slot < MAP_SIZE ensures ProbedInVain(steps, k, slot) {
      ProbeReaches(k, slot, 0);
      var j := PassedInVain(steps, k, slot);
    }
  }

  // -------------------------------------------------------- scans that end

  /** Steps a thread needs until its search has its slot, or its removal has freed it. */
  function StepsToGo(k: Key, p: Phase): nat
    requires Holds(p).Some? ==> Holds(p).value < MAP_SIZE
  {
    match p
    case Finding(slot, offset) => if offset <= Distance(k, slot) then Distance(k, slot) - offset + 1 else 0
    case Removing(slot, offset) => if offset <= Distance(k, slot) then Distance(k, slot) - offset + 2 else 0
    case Clearing(_, _) => 1
    case _ => 0
  }

  /** A scan of an owner goes on: each of its own steps brings it one nearer, and nobody
      else's step sets it back; a search ends with the slot, and a removal with it freed. */
  lemma ScansProceed(st: State, step: Step, k: Key)
    requires Inv(st) && Enabled(st, step) && (PhaseOf(st, k).Finding? || PhaseOf(st, k).Removing? || PhaseOf(st, k).Clearing?)
    ensures var p, p' := PhaseOf(st, k), PhaseOf(Do(st, step), k);
            && Holds(p).Some? && Holds(p).value < MAP_SIZE
            && (Holds(p').Some? ==> Holds(p').value < MAP_SIZE)
            && (step.key != k ==> p' == p)
            && (step.key == k ==> StepsToGo(k, p') == StepsToGo(k, p) - 1)
            && (step.key == k && StepsToGo(k, p) == 1 ==>
                  if p.Finding? then p' == Found(p.slot, Some(p.slot))
                  else p'.Absent? && |Do(st, step).tags| == MAP_SIZE && Do(st, step).tags[p.slot] == NULL_KEY)
  {
    var p := PhaseOf(st, k);
    assert HolderOk(st, k, p);
    if !p.Clearing? {
      ScanSees(st, k);
    }
    hide Distance, Inv;
    if !p.Clearing? {
      ProbeReaches(k, p.slot, p.offset);
    }
    hide Probe;
  }

  /** Nobody is stuck: after a search the owner still has its slot and can search again or
      remove it, and after an insertion that found no place the key can be inserted again. */
  lemma OwnersGoOn(st: State, k: Key)
    requires Inv(st)
    ensures PhaseOf(st, k).Found? ==>
              Enabled(st, Use(k)) && Enabled(Do(st, Use(k)), StartFind(k)) && Enabled(Do(st, Use(k)), StartRemove(k))
              && Holds(PhaseOf(Do(st, Use(k)), k)) == Holds(PhaseOf(st, k))
    ensures PhaseOf(st, k).Full? ==> Enabled(st, GiveUp(k)) && Enabled(Do(st, GiveUp(k)), StartInsert(k))
  {
    hide Probe, TagOk, HolderOk;
  }
}
