/** The request-credit tables.  A victim has eight slots, one for each source of credits.
    User space reads and writes a whole record; the BPF side moves only the cursor. */
module CreditSpec {
  import opened Options

  const SLOTS: nat := 8

  /** A source's hash, which is never zero; zero marks an unowned slot. */
  type Key = k: nat | 1 <= k witness 1

  datatype Slot = Slot(key: nat, delay: nat, credits: int)

  datatype Cfg = Cfg(enabled: bool, cursor: nat, slots: seq<Slot>)

  /** The kinds of slot the finders look for. */
  datatype Kind = OwnedBy(key: nat) | Blank | Spent | Unowned | Due

  predicate Is(kind: Kind, s: Slot) {
    match kind
    case OwnedBy(key) => s.key == key
    case Blank => s.key == 0 && s.credits == 0 && s.delay == 0
    case Spent => s.credits == 0
    case Unowned => s.key == 0
    case Due => s.key != 0 && s.delay != 0 && s.credits > 0
  }

  /** Index of the first slot of a kind. */
  function First(slots: seq<Slot>, kind: Kind, from: nat): (r: Option<nat>)
    requires from <= |slots|
    ensures r.Some? ==> from <= r.value < |slots| && Is(kind, slots[r.value])
    ensures forall i | from <= i < (if r.Some? then r.value else |slots|) :: !Is(kind, slots[i])
    decreases |slots| - from
  {
    if from == |slots| then None
    else if Is(kind, slots[from]) then Some(from)
    else First(slots, kind, from + 1)
  }

  function FindExact(slots: seq<Slot>, key: nat): Option<nat> {
    if key == 0 then None else First(slots, OwnedBy(key), 0)
  }

  /** A blank slot if there is one, else one without credits, else one without owner. */
  function FindFree(slots: seq<Slot>): Option<nat> {
    if First(slots, Blank, 0).Some? then First(slots, Blank, 0)
    else if First(slots, Spent, 0).Some? then First(slots, Spent, 0)
    else First(slots, Unowned, 0)
  }

  function FindForSource(slots: seq<Slot>, key: nat): Option<nat> {
    if FindExact(slots, key).Some? then FindExact(slots, key) else FindFree(slots)
  }

  function MaxDelay(slots: seq<Slot>): nat {
    if slots == [] then 0
    else
      var rest := MaxDelay(slots[..|slots| - 1]);
      if slots[|slots| - 1].delay > rest then slots[|slots| - 1].delay else rest
  }

  function EffectiveDelay(slots: seq<Slot>, asked: nat, standard: nat): nat {
    if asked > 0 then asked else if MaxDelay(slots) > 0 then MaxDelay(slots) else standard
  }

  /** arm: give a source `count` credits, in its slot or a free one; refused when none is free. */
  function Armed(cfg: Cfg, key: Key, count: nat, asked: nat, standard: nat): Option<Cfg> {
    match FindForSource(cfg.slots, key)
    case None => None
    case Some(i) =>
      if i >= |cfg.slots| then None
      else
        var credits := cfg.slots[i].credits + count;
        var slot := Slot(key, EffectiveDelay(cfg.slots, asked, standard), if credits < 0 then 0 else credits);
        Some(Cfg(true, i, cfg.slots[i := slot]))
  }

  function FindHinted(slots: seq<Slot>, key: nat, hint: nat): Option<nat> {
    if hint < |slots| && slots[hint].key == key then Some(hint) else FindExact(slots, key)
  }

  /** consume_credit_locked: spend one credit of the source, if it has one. */
  function Consumed(cfg: Cfg, key: nat, hint: nat): Option<Cfg> {
    if !cfg.enabled then None
    else
      match FindHinted(cfg.slots, key, hint)
      case None => None
      case Some(i) =>
        if i >= |cfg.slots| || cfg.slots[i].delay == 0 || cfg.slots[i].credits <= 0 then None
        else Some(cfg.(slots := cfg.slots[i := cfg.slots[i].(credits := cfg.slots[i].credits - 1)]))
  }

  /** clear: no credits and no delay, but the slots keep their owners. */
  function Cleared(cfg: Cfg): Cfg {
    cfg.(cursor := 0, slots := seq(|cfg.slots|, i requires 0 <= i < |cfg.slots| => Slot(cfg.slots[i].key, 0, 0)))
  }

  function Blanks(): (r: seq<Slot>)
    ensures |r| == SLOTS && forall i | 0 <= i < |r| :: r[i] == Slot(0, 0, 0)
  {
    seq(SLOTS, i => Slot(0, 0, 0))
  }

  function NewCfg(): Cfg {
    Cfg(false, 0, Blanks())
  }

  // ---------------------------------------------------- the BPF side's choice

  /** Slots from `start`, cyclically, `left` of them. */
  function Scan(slots: seq<Slot>, start: nat, left: nat): (r: Option<nat>)
    requires |slots| == SLOTS && start < SLOTS
    ensures r.Some? ==> r.value < SLOTS && Is(Due, slots[r.value])
    decreases left
  {
    if left == 0 then None
    else if Is(Due, slots[start]) then Some(start)
    else Scan(slots, (start + 1) % SLOTS, left - 1)
  }

  /** consume_once: the first slot at or after the cursor with something to spend. */
  function Choose(slots: seq<Slot>, cursor: nat): (r: Option<nat>)
    requires |slots| == SLOTS && cursor < SLOTS
    ensures r.Some? ==> r.value < SLOTS && Is(Due, slots[r.value])
  {
    Scan(slots, cursor, SLOTS)
  }

  // -------------------------------------------------------- table invariant

  predicate CfgOk(cfg: Cfg) {
    && |cfg.slots| == SLOTS && cfg.cursor < SLOTS
    && (forall i | 0 <= i < SLOTS :: SlotOk(cfg.slots[i]))
    && (forall i, j | 0 <= i < j < SLOTS && cfg.slots[i].key != 0 :: cfg.slots[i].key != cfg.slots[j].key)
  }

  /** Credits are never negative, and an unowned slot has none. */
  predicate SlotOk(s: Slot) {
    s.credits >= 0 && (s.key == 0 ==> s.credits == 0)
  }

  /** The credits a source has. */
  function KeyCredits(slots: seq<Slot>, key: nat): int {
    if slots == [] then 0
    else KeyCredits(slots[..|slots| - 1], key) + if slots[|slots| - 1].key == key then slots[|slots| - 1].credits else 0
  }
}
