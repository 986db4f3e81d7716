/** The range map of Coz as it is: a search tree that is descended to add or to look up. */
module IntervalIndex {
  import opened Options
  import opened IntervalSpec

  class MemoryMap {
    var tree: Tree

    constructor ()
      ensures tree == Leaf
    {
      tree := Leaf;
    }

    /** _M_get_insert_unique_pos and the insertion, without the rebalancing. */
    method AddRange(line: nat, range: Interval)
      modifies this
      ensures tree == TreeInsert(old(tree), Range(range, line))
      ensures Proper(range) && Ordered(InOrder(old(tree))) ==>
                && Ordered(InOrder(tree))
                && (tree == old(tree) <==> exists k :: k in InOrder(old(tree)) && Clash(k.interval, range))
    {
      var r := Range(range, line);
      var t, last := tree, None;
      while t.Node?
        invariant Accepts(tree, r, None) == Accepts(t, r, last)
        decreases t
      {
        if Less(range, t.range.interval) {
          t := t.left;
        } else {
          t, last := t.right, Some(t.range);
        }
      }
      if last.None? || Less(last.value.interval, range) {
        tree := Attach(tree, r);
      }
      if Proper(range) && Ordered(InOrder(old(tree))) {
        InsertIsEmplace(old(tree), r);
        EmplaceKeeps(InOrder(old(tree)), r);
        AttachGrows(old(tree), r);
      }
    }

    /** std::map::find */
    method Lookup(addr: nat) returns (line: Option<nat>)
      ensures line == TreeLine(tree, addr)
    {
      var k := Unit(addr);
      var t, bound := tree, None;
      while t.Node?
        invariant TreeBound(tree, k) == if TreeBound(t, k).Some? then TreeBound(t, k) else bound
        decreases t
      {
        if Less(t.range.interval, k) {
          t := t.right;
        } else {
          t, bound := t.left, Some(t.range);
        }
      }
      line := if bound.Some? && !Less(k, bound.value.interval) then Some(bound.value.line) else None;
    }
  }

  lemma {:induction false} AttachGrows(t: Tree, r: Range)
    ensures |InOrder(Attach(t, r))| == |InOrder(t)| + 1
  {
    if t.Node? {
      AttachGrows(t.left, r);
      AttachGrows(t.right, r);
    }
  }
}
