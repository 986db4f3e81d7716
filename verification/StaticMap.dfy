/** The thread map as one thread runs it: probe loops over the tag array. */
module StaticMap {
  import opened Options
  import opened StaticMapSpec

  /** The first slot on a key's probe path, from a given probe on, that carries a tag. */
  function FirstProbe(tags: seq<nat>, key: Key, tag: nat, offset: nat): (r: Option<nat>)
    requires |tags| == MAP_SIZE && offset <= MAP_SIZE
    ensures r.Some? ==> r.value < MAP_SIZE && tags[r.value] == tag
    decreases MAP_SIZE - offset
  {
    if offset == MAP_SIZE then None
    else if tags[Probe(key, offset)] == tag then Some(Probe(key, offset))
    else FirstProbe(tags, key, tag, offset + 1)
  }

  /** A probe path leads through the whole table: a search that fails proves absence. */
  lemma {:induction false} ProbesCoverAll(tags: seq<nat>, key: Key, tag: nat, offset: nat, i: nat)
    requires |tags| == MAP_SIZE && offset <= MAP_SIZE && i < MAP_SIZE
    requires FirstProbe(tags, key, tag, offset) == None && Distance(key, i) >= offset
    ensures tags[i] != tag
    decreases MAP_SIZE - offset
  {
    hide Probe, Distance;
    ProbeReaches(key, i, 0);
    if offset < MAP_SIZE {
      ProbeReaches(key, i, offset);
      if Distance(key, i) != offset {
        ProbesCoverAll(tags, key, tag, offset + 1, i);
      }
    }
  }

  /** The slot an insert takes: the first free one whose compare-and-swap does not fail. */
  function FirstTaken(tags: seq<nat>, key: Key, fails: set<nat>, offset: nat): (r: Option<nat>)
    requires |tags| == MAP_SIZE && offset <= MAP_SIZE
    ensures r.Some? ==> r.value < MAP_SIZE && tags[r.value] == NULL_KEY
    decreases MAP_SIZE - offset
  {
    if offset == MAP_SIZE then None
    else if tags[Probe(key, offset)] == NULL_KEY && offset !in fails then Some(Probe(key, offset))
    else FirstTaken(tags, key, fails, offset + 1)
  }

  /** An insert fails only if every free slot's compare-and-swap failed; with no such failure
      it takes the first free slot of the path. */
  lemma {:induction false} TakenUnlessFull(tags: seq<nat>, key: Key, fails: set<nat>, offset: nat, i: nat)
    requires |tags| == MAP_SIZE && offset <= MAP_SIZE && i < MAP_SIZE
    ensures FirstTaken(tags, key, fails, offset) == None && Distance(key, i) >= offset ==>
              tags[i] != NULL_KEY || Distance(key, i) in fails
    ensures fails == {} ==> FirstTaken(tags, key, fails, offset) == FirstProbe(tags, key, NULL_KEY, offset)
    decreases MAP_SIZE - offset
  {
    hide Probe, Distance;
    ProbeReaches(key, i, 0);
    if offset < MAP_SIZE {
      ProbeReaches(key, i, offset);
      TakenUnlessFull(tags, key, fails, offset + 1, i);
    }
  }

  class Table {
    const tags: array<nat>

    constructor ()
      ensures tags.Length == MAP_SIZE && tags[..] == Init().tags && fresh(tags)
    {
      tags := new nat[MAP_SIZE](i => NULL_KEY);
    }

    /** Probe until a free slot takes the key; `fails` are the probes whose compare-and-swap
        fails although the slot is free.  Without any, insert fails only when no slot is free. */
    method Insert(key: Key, fails: set<nat>) returns (slot: Option<nat>)
      requires tags.Length == MAP_SIZE
      modifies tags
      ensures slot == FirstTaken(old(tags[..]), key, fails, 0)
      ensures tags[..] == if slot.Some? then old(tags[..])[slot.value := key] else old(tags[..])
    {
      hide Probe, Distance;
      ghost var was := tags[..];
      slot := None;
      var offset := 0;
      while offset < MAP_SIZE && slot.None?
        invariant offset <= MAP_SIZE
        invariant FirstTaken(was, key, fails, 0) == if slot.None? then FirstTaken(was, key, fails, offset) else slot
        invariant tags[..] == if slot.None? then was else was[slot.value := key]
        decreases MAP_SIZE - offset
      {
        var index := Probe(key, offset);
        if tags[index] == NULL_KEY && offset !in fails {
          tags[index] := key;
          slot := Some(index);
        }
        offset := offset + 1;
      }
    }

    method Find(key: Key) returns (slot: Option<nat>)
      requires tags.Length == MAP_SIZE
      ensures slot.Some? ==> slot.value < MAP_SIZE && tags[slot.value] == key
      ensures slot.None? ==> forall i | 0 <= i < MAP_SIZE :: tags[i] != key
      ensures slot == FirstProbe(tags[..], key, key, 0)
    {
      hide Probe, Distance;
      slot := None;
      var offset := 0;
      while offset < MAP_SIZE && slot.None?
        invariant offset <= MAP_SIZE
        invariant if slot.None? then FirstProbe(tags[..], key, key, 0) == FirstProbe(tags[..], key, key, offset)
                  else FirstProbe(tags[..], key, key, 0) == slot
        decreases MAP_SIZE - offset
      {
        var index := Probe(key, offset);
        if tags[index] == key {
          slot := Some(index);
        }
        offset := offset + 1;
      }
      if slot.None? {
        forall i | 0 <= i < MAP_SIZE ensures tags[i] != key {
          ProbesCoverAll(tags[..], key, key, 0, i);
        }
      }
    }

    method Remove(key: Key)
      requires tags.Length == MAP_SIZE
      modifies tags
      ensures var slot := FirstProbe(old(tags[..]), key, key, 0);
              tags[..] == if slot.Some? then old(tags[..])[slot.value := NULL_KEY] else old(tags[..])
    {
      var slot := Find(key);
      if slot.Some? {
        tags[slot.value] := NULL_KEY;
      }
    }
  }

  /** Used by one thread alone: what insert put in, find gives back and remove takes out,
      leaving the table as it was, whichever free slot the insert took. */
  lemma InsertFindRemove(tags: seq<nat>, key: Key, fails: set<nat>)
    requires |tags| == MAP_SIZE && forall i | 0 <= i < MAP_SIZE :: tags[i] != key
    ensures var slot := FirstTaken(tags, key, fails, 0);
            slot.Some? ==>
              && FirstProbe(tags[slot.value := key], key, key, 0) == slot
              && tags[slot.value := key][slot.value := NULL_KEY] == tags
  {
    var slot := FirstTaken(tags, key, fails, 0);
    if slot.Some? {
      var now := tags[slot.value := key];
      if FirstProbe(now, key, key, 0).None? {
        ProbesCoverAll(now, key, key, 0, slot.value);
      }
    }
  }
}
