/** What every single operation on a slot table keeps and changes. */
module CreditTables {
  import opened Options
  import opened CreditSpec

  lemma NewCfgOk()
    ensures CfgOk(NewCfg()) && forall key: Key :: KeyCredits(NewCfg().slots, key) == 0
  {
    forall key: Key ensures KeyCredits(NewCfg().slots, key) == 0 {
      NoCredits(Blanks(), key);
    }
  }

  lemma {:induction false} NoCredits(slots: seq<Slot>, key: nat)
    requires forall i | 0 <= i < |slots| :: slots[i].key == key ==> slots[i].credits == 0
    ensures KeyCredits(slots, key) == 0
  {
    if slots != [] { NoCredits(slots[..|slots| - 1], key); }
  }

  /** Rewriting one slot moves a source's credits by what it had and gets in that slot. */
  lemma {:induction false} KeyCreditsSet(slots: seq<Slot>, i: nat, s: Slot, key: nat)
    requires i < |slots|
    ensures KeyCredits(slots[i := s], key) == KeyCredits(slots, key)
              - (if slots[i].key == key then slots[i].credits else 0) + (if s.key == key then s.credits else 0)
  {
    var n := |slots| - 1;
    if i == n {
      assert slots[i := s][..n] == slots[..n];
    } else {
      assert slots[i := s][..n] == slots[..n][i := s];
      KeyCreditsSet(slots[..n], i, s, key);
    }
  }

  /** Where arm puts a source: its own slot, or one that holds no credits and no other of
      its own, a blank one as long as there is any; it finds none exactly when all slots hold credits of other sources. */
  lemma ArmPlace(cfg: Cfg, key: Key)
    requires CfgOk(cfg)
    ensures var r := FindForSource(cfg.slots, key);
            && (r == None <==> forall i | 0 <= i < SLOTS :: cfg.slots[i].key != key && cfg.slots[i].credits > 0)
            && (r.Some? ==> r.value < SLOTS)
            && (r.Some? ==> cfg.slots[r.value].key == key || cfg.slots[r.value].credits == 0)
            && (r.Some? && cfg.slots[r.value].key != key ==> forall i | 0 <= i < SLOTS :: cfg.slots[i].key != key)
            && (r.Some? && cfg.slots[r.value].key != key && cfg.slots[r.value] != Slot(0, 0, 0) ==>
                  forall i | 0 <= i < SLOTS :: cfg.slots[i] != Slot(0, 0, 0))
  {
    var r := FindForSource(cfg.slots, key);
    assert forall i | 0 <= i < SLOTS :: SlotOk(cfg.slots[i]);
    if FindExact(cfg.slots, key).None? {
      assert forall i | 0 <= i < SLOTS :: !Is(OwnedBy(key), cfg.slots[i]);
    }
    if r == None {
      assert forall i | 0 <= i < SLOTS :: !Is(Spent, cfg.slots[i]);
    } else {
      assert FindExact(cfg.slots, key).None? && !Is(Blank, cfg.slots[r.value]) ==>
               forall i | 0 <= i < SLOTS :: !Is(Blank, cfg.slots[i]);
      assert Is(OwnedBy(key), cfg.slots[r.value]) || Is(Blank, cfg.slots[r.value])
             || Is(Spent, cfg.slots[r.value]) || Is(Unowned, cfg.slots[r.value]);
    }
  }

  /** Arming keeps the table, adds exactly `count` to its source, takes nothing from any other,
      and fails only when every slot holds another source's credits. */
  lemma ArmKeeps(cfg: Cfg, key: Key, count: nat, asked: nat, standard: nat, other: Key)
    requires CfgOk(cfg)
    ensures var r := Armed(cfg, key, count, asked, standard);
            && (r == None <==> forall i | 0 <= i < SLOTS :: cfg.slots[i].key != key && cfg.slots[i].credits > 0)
            && (r.Some? ==> CfgOk(r.value) && r.value.enabled)
            && (r.Some? ==> KeyCredits(r.value.slots, other) == KeyCredits(cfg.slots, other) + if other == key then count else 0)
            && (r.Some? ==> forall i | 0 <= i < SLOTS && i != r.value.cursor :: r.value.slots[i] == cfg.slots[i])
  {
    ArmPlace(cfg, key);
    match FindForSource(cfg.slots, key)
    case None =>
    case Some(i) =>
      assert SlotOk(cfg.slots[i]);
      hide FindForSource, EffectiveDelay, KeyCredits;
      KeyCreditsSet(cfg.slots, i, Armed(cfg, key, count, asked, standard).value.slots[i], other);
  }

  lemma {:induction false} MaxDelayBounds(slots: seq<Slot>)
    ensures forall i | 0 <= i < |slots| :: slots[i].delay <= MaxDelay(slots)
    ensures MaxDelay(slots) > 0 ==> exists i :: 0 <= i < |slots| && slots[i].delay == MaxDelay(slots)
  {
    if slots != [] {
      var n := |slots| - 1;
      MaxDelayBounds(slots[..n]);
      if slots[n].delay <= MaxDelay(slots[..n]) && MaxDelay(slots) > 0 {
        var i :| 0 <= i < n && slots[..n][i].delay == MaxDelay(slots[..n]);
        assert slots[i].delay == MaxDelay(slots);
      }
    }
  }

  /** The delay of a source after arming: the one asked for; without one, the largest of the
      victim's delays; and if there is none, the standard one. */
  lemma ArmDelay(cfg: Cfg, key: Key, count: nat, asked: nat, standard: nat)
    requires CfgOk(cfg) && Armed(cfg, key, count, asked, standard).Some?
    ensures var c := Armed(cfg, key, count, asked, standard).value;
            && c.cursor < |c.slots| && c.slots[c.cursor].key == key
            && var d := c.slots[c.cursor].delay;
               && (asked > 0 ==> d == asked)
               && (asked == 0 ==> forall i | 0 <= i < SLOTS && cfg.slots[i].delay > 0 :: cfg.slots[i].delay <= d)
               && (asked == 0 && d != standard ==> exists i :: 0 <= i < SLOTS && cfg.slots[i].delay == d)
               && (asked == 0 && (exists i :: 0 <= i < SLOTS && cfg.slots[i].delay > 0) ==>
                     exists i :: 0 <= i < SLOTS && cfg.slots[i].delay == d)
  {
    MaxDelayBounds(cfg.slots);
    hide FindForSource, MaxDelay, SlotOk;
  }

  /** A source armed with credits is the next to be served, as long as any delay is known: the
      one asked for, one of the victim's other sources, or the standard one. */
  lemma ArmedIsNext(cfg: Cfg, key: Key, count: nat, asked: nat, standard: nat)
    requires CfgOk(cfg) && count > 0 && Armed(cfg, key, count, asked, standard).Some?
    requires asked > 0 || standard > 0 || exists i :: 0 <= i < SLOTS && cfg.slots[i].delay > 0
    ensures var c := Armed(cfg, key, count, asked, standard).value;
            |c.slots| == SLOTS && c.cursor < SLOTS && c.slots[c.cursor].key == key && Choose(c.slots, c.cursor) == Some(c.cursor)
  {
    ArmPlace(cfg, key);
    MaxDelayBounds(cfg.slots);
    hide FindForSource, MaxDelay;
    assert SlotOk(cfg.slots[FindForSource(cfg.slots, key).value]);
  }

  /** Consuming takes one credit from the named source and from no other, even if the event
      is stale and its slot has a new owner, and changes nothing else; it is refused only when
      the source has no slot, no delay or no credit. */
  lemma ConsumeKeeps(cfg: Cfg, key: Key, hint: nat, other: Key)
    requires CfgOk(cfg)
    ensures var r := Consumed(cfg, key, hint);
            && (r.Some? ==> CfgOk(r.value))
            && (r.Some? ==> KeyCredits(r.value.slots, other) == KeyCredits(cfg.slots, other) - if other == key then 1 else 0)
            && (r.Some? <==> cfg.enabled && exists i :: 0 <= i < SLOTS && cfg.slots[i].key == key && Is(Due, cfg.slots[i]))
            && (r.Some? ==> r.value.enabled && r.value.cursor == cfg.cursor)
            && (r.Some? ==> forall i | 0 <= i < SLOTS ::
                  r.value.slots[i] == cfg.slots[i].(credits := cfg.slots[i].credits - if cfg.slots[i].key == key then 1 else 0))
  {
    if FindHinted(cfg.slots, key, hint).None? {
      assert forall i | 0 <= i < SLOTS :: !Is(OwnedBy(key), cfg.slots[i]);
    } else {
      var i := FindHinted(cfg.slots, key, hint).value;
      assert Is(OwnedBy(key), cfg.slots[i]) && SlotOk(cfg.slots[i]);
      hide FindHinted, KeyCredits;
      KeyCreditsSet(cfg.slots, i, cfg.slots[i].(credits := cfg.slots[i].credits - 1), other);
    }
  }

  /** Clearing leaves nobody any credits or delay, and every slot its owner. */
  lemma ClearKeeps(cfg: Cfg, key: Key)
    requires CfgOk(cfg)
    ensures CfgOk(Cleared(cfg)) && KeyCredits(Cleared(cfg).slots, key) == 0
    ensures Cleared(cfg).cursor == 0 && Cleared(cfg).enabled == cfg.enabled
    ensures forall i | 0 <= i < SLOTS ::
              var s := Cleared(cfg).slots[i]; s.key == cfg.slots[i].key && s.credits == 0 && s.delay == 0
  {
    NoCredits(Cleared(cfg).slots, key);
  }

  lemma {:induction false} KeyCreditsNonNegative(slots: seq<Slot>, key: nat)
    requires forall i | 0 <= i < |slots| :: SlotOk(slots[i])
    ensures KeyCredits(slots, key) >= 0
  {
    if slots != [] { KeyCreditsNonNegative(slots[..|slots| - 1], key); }
  }

  // ------------------------------------------------- round-robin fairness

  /** The slots with something to spend among `left` slots from `start`, in cyclic order. */
  function DueFrom(slots: seq<Slot>, start: nat, left: nat): seq<nat>
    requires |slots| == SLOTS && start < SLOTS
    decreases left
  {
    if left == 0 then []
    else (if Is(Due, slots[start]) then [start] else []) + DueFrom(slots, (start + 1) % SLOTS, left - 1)
  }

  /** n consecutive choices with no user-space write in between. */
  function Picks(slots: seq<Slot>, cursor: nat, n: nat): seq<nat>
    requires |slots| == SLOTS && cursor < SLOTS
    decreases n
  {
    if n == 0 || Choose(slots, cursor).None? then []
    else [Choose(slots, cursor).value] + Picks(slots, (Choose(slots, cursor).value + 1) % SLOTS, n - 1)
  }

  lemma PicksNext(slots: seq<Slot>, cursor: nat, n: nat)
    requires |slots| == SLOTS && cursor < SLOTS && Choose(slots, cursor).Some?
    ensures var i := Choose(slots, cursor).value; Picks(slots, cursor, n + 1) == [i] + Picks(slots, (i + 1) % SLOTS, n)
  {
    hide Choose;
  }

  /** The last slot of a scan counts only when no earlier one is due. */
  lemma {:induction false} ScanEnds(slots: seq<Slot>, start: nat, left: nat)
    requires |slots| == SLOTS && start < SLOTS && left >= 1
    ensures Scan(slots, start, left) ==
            if Scan(slots, start, left - 1).Some? then Scan(slots, start, left - 1)
            else if Is(Due, slots[(start + left - 1) % SLOTS]) then Some((start + left - 1) % SLOTS) else None
    decreases left
  {
    if left > 1 {
      ScanEnds(slots, (start + 1) % SLOTS, left - 1);
    }
  }

  lemma ScanSkips(slots: seq<Slot>, start: nat, left: nat)
    requires |slots| == SLOTS && start < SLOTS && left > 0 && !Is(Due, slots[start])
    ensures Scan(slots, start, left) == Scan(slots, (start + 1) % SLOTS, left - 1)
  {
    hide Is;
  }

  lemma RoundTheRing(start: nat)
    requires start < SLOTS
    ensures ((start + 1) % SLOTS + SLOTS - 1) % SLOTS == start
  {
  }

  lemma ChooseSkips(slots: seq<Slot>, start: nat)
    requires |slots| == SLOTS && start < SLOTS && !Is(Due, slots[start])
    ensures Choose(slots, start) == Choose(slots, (start + 1) % SLOTS)
  {
    hide Is, Scan;
    ScanSkips(slots, start, SLOTS);
    ScanEnds(slots, (start + 1) % SLOTS, SLOTS);
    RoundTheRing(start);
  }

  lemma DueFromHere(slots: seq<Slot>, start: nat, left: nat)
    requires |slots| == SLOTS && start < SLOTS && left > 0
    ensures var rest := DueFrom(slots, (start + 1) % SLOTS, left - 1);
            DueFrom(slots, start, left) == if Is(Due, slots[start]) then [start] + rest else rest
  {
  }

  lemma PicksHere(slots: seq<Slot>, cursor: nat, n: nat)
    requires |slots| == SLOTS && cursor < SLOTS && n > 0 && Is(Due, slots[cursor])
    ensures Picks(slots, cursor, n) == [cursor] + Picks(slots, (cursor + 1) % SLOTS, n - 1)
  {
    assert Choose(slots, cursor) == Some(cursor);
  }

  lemma {:induction false} PicksAreDue(slots: seq<Slot>, start: nat, left: nat)
    requires |slots| == SLOTS && start < SLOTS && left <= SLOTS
    ensures Picks(slots, start, |DueFrom(slots, start, left)|) == DueFrom(slots, start, left)
    decreases left
  {
    if left == 0 {
    } else {
      hide Scan, Is, Choose, DueFrom, Picks;
      var next := (start + 1) % SLOTS;
      var rest := DueFrom(slots, next, left - 1);
      PicksAreDue(slots, next, left - 1);
      DueFromHere(slots, start, left);
      if Is(Due, slots[start]) {
        PicksHere(slots, start, |rest| + 1);
      } else {
        ChooseSkips(slots, start);
        SamePicks(slots, start, next, |rest|);
      }
    }
  }

  lemma SamePicks(slots: seq<Slot>, a: nat, b: nat, n: nat)
    requires |slots| == SLOTS && a < SLOTS && b < SLOTS && Choose(slots, a) == Choose(slots, b)
    ensures Picks(slots, a, n) == Picks(slots, b, n)
  {
  }

  /** A slot's place counted from a start, cyclically. */
  function Offset(start: nat, i: nat): nat
    requires start < SLOTS && i < SLOTS
  {
    if i >= start then i - start else i + SLOTS - start
  }

  /** In cyclic order, without repetition, and with every due slot of the stretch. */
  predicate CyclicDue(slots: seq<Slot>, start: nat, left: nat, r: seq<nat>)
    requires |slots| == SLOTS && start < SLOTS
  {
    && (forall k | 0 <= k < |r| :: r[k] < SLOTS && Offset(start, r[k]) < left && Is(Due, slots[r[k]]))
    && (forall j, k | 0 <= j < k < |r| :: Offset(start, r[j]) < Offset(start, r[k]))
    && (forall i | 0 <= i < SLOTS && Offset(start, i) < left && Is(Due, slots[i]) :: i in r)
  }

  /** Counted from the next slot, every other slot is one nearer. */
  predicate Nearer(start: nat, next: nat) {
    && start < SLOTS && next < SLOTS && Offset(start, start) == 0 && Offset(next, start) == SLOTS - 1
    && forall i | 0 <= i < SLOTS && i != start :: Offset(start, i) == Offset(next, i) + 1
  }

  lemma NextIsNearer(start: nat)
    requires start < SLOTS
    ensures Nearer(start, (start + 1) % SLOTS)
  {
  }

  lemma CyclicSkip(slots: seq<Slot>, start: nat, next: nat, left: nat, rest: seq<nat>)
    requires |slots| == SLOTS && Nearer(start, next) && 0 < left <= SLOTS && CyclicDue(slots, next, left - 1, rest)
    requires !Is(Due, slots[start])
    ensures CyclicDue(slots, start, left, rest)
  {
    hide Is, Offset;
    assert forall k | 0 <= k < |rest| :: rest[k] != start;
  }

  lemma CyclicTake(slots: seq<Slot>, start: nat, next: nat, left: nat, rest: seq<nat>)
    requires |slots| == SLOTS && Nearer(start, next) && 0 < left <= SLOTS && CyclicDue(slots, next, left - 1, rest)
    requires Is(Due, slots[start])
    ensures CyclicDue(slots, start, left, [start] + rest)
  {
    hide Is, Offset;
    var r := [start] + rest;
    assert forall k | 0 <= k < |rest| :: rest[k] != start && Offset(start, rest[k]) == Offset(next, rest[k]) + 1;
    assert r[0] == start && forall k | 1 <= k < |r| :: r[k] == rest[k - 1];
    forall i | 0 <= i < SLOTS && Offset(start, i) < left && Is(Due, slots[i]) ensures i in r {
      if i != start { assert i in rest; }
    }
  }

  lemma CyclicHere(slots: seq<Slot>, start: nat, next: nat, left: nat, rest: seq<nat>)
    requires |slots| == SLOTS && Nearer(start, next) && 0 < left <= SLOTS && CyclicDue(slots, next, left - 1, rest)
    ensures CyclicDue(slots, start, left, if Is(Due, slots[start]) then [start] + rest else rest)
  {
    hide Is, Offset, CyclicDue;
    if Is(Due, slots[start]) {
      CyclicTake(slots, start, next, left, rest);
    } else {
      CyclicSkip(slots, start, next, left, rest);
    }
  }

  lemma {:induction false} DueFromIs(slots: seq<Slot>, start: nat, left: nat)
    requires |slots| == SLOTS && start < SLOTS && left <= SLOTS
    ensures CyclicDue(slots, start, left, DueFrom(slots, start, left))
    decreases left
  {
    if left > 0 {
      hide Is, CyclicDue, Nearer;
      var next := (start + 1) % SLOTS;
      DueFromIs(slots, next, left - 1);
      NextIsNearer(start);
      CyclicHere(slots, start, next, left, DueFrom(slots, next, left - 1));
      DueFromHere(slots, start, left);
    }
  }

  lemma PicksFirst(slots: seq<Slot>, cursor: nat, n: nat)
    requires |slots| == SLOTS && cursor < SLOTS && n > 0
    ensures var r := Picks(slots, cursor, n);
            if Choose(slots, cursor).None? then r == [] else r != [] && r[0] == Choose(slots, cursor).value
  {
    hide Choose;
  }

  lemma ChoiceIsDue(slots: seq<Slot>, cursor: nat)
    requires |slots| == SLOTS && cursor < SLOTS
    ensures Choose(slots, cursor).Some? ==> Choose(slots, cursor).value in DueSlots(slots)
  {
    hide Scan;
  }

  /** The choice is the nearest due slot at or after the start, if there is one. */
  lemma ChooseIsNearest(slots: seq<Slot>, start: nat)
    requires |slots| == SLOTS && start < SLOTS
    ensures Choose(slots, start).None? <==> DueSlots(slots) == {}
    ensures Choose(slots, start).Some? ==>
              var i := Choose(slots, start).value;
              i in DueSlots(slots) && forall j | j in DueSlots(slots) :: Offset(start, i) <= Offset(start, j)
  {
    hide Is, Choose, Picks, DueFrom;
    ChoiceIsDue(slots, start);
    if DueSlots(slots) != {} {
      var r := DueFrom(slots, start, SLOTS);
      DueFromIs(slots, start, SLOTS);
      PicksAreDue(slots, start, SLOTS);
      var due :| due in DueSlots(slots);
      assert due in r;
      PicksFirst(slots, start, |r|);
      forall j | j in DueSlots(slots) ensures Offset(start, r[0]) <= Offset(start, j) {
        var k :| 0 <= k < |r| && r[k] == j;
      }
    }
  }

  /** From right behind slot i the nearest due slot is i again only if there is no other. */
  lemma OnlyItself(slots: seq<Slot>, i: nat)
    requires |slots| == SLOTS && i in DueSlots(slots)
    ensures Choose(slots, (i + 1) % SLOTS) == Some(i) <==> DueSlots(slots) == {i}
  {
    hide Is, Choose;
    var next := (i + 1) % SLOTS;
    ChooseIsNearest(slots, next);
    forall j | 0 <= j < SLOTS && j != i ensures Offset(next, j) < Offset(next, i) {
    }
  }

  function DueSlots(slots: seq<Slot>): set<nat>
    requires |slots| == SLOTS
  {
    set i | 0 <= i < SLOTS && Is(Due, slots[i])
  }

  function Elements(s: seq<nat>): (r: set<nat>)
    ensures forall x :: x in r <==> x in s
  {
    if s == [] then {} else
      assert s == [s[0]] + s[1..];
      {s[0]} + Elements(s[1..])
  }

  lemma {:induction false} DistinctCount(s: seq<nat>)
    requires forall j, k | 0 <= j < k < |s| :: s[j] != s[k]
    ensures |Elements(s)| == |s|
  {
    if s != [] {
      DistinctCount(s[1..]);
      assert s[0] !in Elements(s[1..]);
    }
  }

  /** Fairness: from any cursor, as many consecutive choices as there are slots with something
      to spend serve each of them exactly once, in cyclic order from the cursor. */
  lemma {:induction false} RoundRobin(slots: seq<Slot>, cursor: nat)
    requires |slots| == SLOTS && cursor < SLOTS
    ensures var picks := Picks(slots, cursor, |DueSlots(slots)|);
            && |picks| == |DueSlots(slots)|
            && (forall i :: i in picks <==> i in DueSlots(slots))
            && (forall k | 0 <= k < |picks| :: picks[k] < SLOTS)
            && (forall j, k | 0 <= j < k < |picks| :: Offset(cursor, picks[j]) < Offset(cursor, picks[k]))
  {
    hide Is, Picks, DueFrom;
    var all := DueFrom(slots, cursor, SLOTS);
    DueFromIs(slots, cursor, SLOTS);
    PicksAreDue(slots, cursor, SLOTS);
    DistinctCount(all);
    assert Elements(all) == DueSlots(slots);
  }
}
