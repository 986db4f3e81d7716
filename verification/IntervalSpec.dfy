/** Coz's map from addresses to source lines: an ordered map whose comparison calls
    overlapping ranges equal.  Ranges may be empty, as line tables can make them. */
module IntervalSpec {
  import opened Options

  /** Addresses from base up to but not including limit. */
  datatype Interval = Interval(base: nat, limit: nat)

  datatype Range = Range(interval: Interval, line: nat)

  predicate Proper(v: Interval) {
    v.base <= v.limit
  }

  /** interval::operator< */
  predicate Less(a: Interval, b: Interval) {
    a.limit <= b.base
  }

  predicate Contains(v: Interval, x: nat) {
    v.base <= x < v.limit
  }

  /** interval(p): the one address p */
  function Unit(p: nat): Interval {
    Interval(p, p + 1)
  }

  /** Neither comes before the other, which to the map means equal. */
  predicate Clash(a: Interval, b: Interval) {
    !Less(a, b) && !Less(b, a)
  }

  // ------------------------------------------------------- the ordered map

  predicate Ordered(s: seq<Range>) {
    && (forall i | 0 <= i < |s| :: Proper(s[i].interval))
    && (forall i, j | 0 <= i < j < |s| :: Less(s[i].interval, s[j].interval))
  }

  /** First entry that does not come before k. */
  function LowerBound(s: seq<Range>, k: Interval, from: nat): (r: nat)
    requires from <= |s|
    ensures from <= r <= |s| && (r < |s| ==> !Less(s[r].interval, k))
    ensures forall i | from <= i < r :: Less(s[i].interval, k)
    decreases |s| - from
  {
    if from == |s| || !Less(s[from].interval, k) then from else LowerBound(s, k, from + 1)
  }

  /** std::map::find */
  function Find(s: seq<Range>, k: Interval): Option<Range> {
    var i := LowerBound(s, k, 0);
    if i < |s| && !Less(k, s[i].interval) then Some(s[i]) else None
  }

  /** First entry that comes after k. */
  function UpperBound(s: seq<Range>, k: Interval, from: nat): (r: nat)
    requires from <= |s|
    ensures from <= r <= |s| && (r < |s| ==> Less(k, s[r].interval))
    ensures forall i | from <= i < r :: !Less(k, s[i].interval)
    decreases |s| - from
  {
    if from == |s| || Less(k, s[from].interval) then from else UpperBound(s, k, from + 1)
  }

  /** std::map::emplace: the place is in front of what comes after the new entry, and nothing
      happens if the one before that place does not come before the new one. */
  function Emplace(s: seq<Range>, r: Range): seq<Range> {
    var i := UpperBound(s, r.interval, 0);
    if i > 0 && !Less(s[i - 1].interval, r.interval) then s else s[..i] + [r] + s[i..]
  }

  /** find_line(addr) */
  function FindLine(s: seq<Range>, addr: nat): Option<nat> {
    match Find(s, Unit(addr))
    case Some(r) => Some(r.line)
    case None => None
  }

  function Index(rs: seq<Range>): seq<Range> {
    if rs == [] then [] else Emplace(Index(rs[..|rs| - 1]), rs[|rs| - 1])
  }

  // ------------------------------------------------------ the plain meaning

  /** The ranges that are kept: those that clash with none kept before. */
  function Accepted(rs: seq<Range>): seq<Range> {
    if rs == [] then []
    else
      var kept := Accepted(rs[..|rs| - 1]);
      if exists k :: k in kept && Clash(k.interval, rs[|rs| - 1].interval) then kept else kept + [rs[|rs| - 1]]
  }

  /** A linear scan for the range that holds an address. */
  function Scan(rs: seq<Range>, addr: nat): Option<nat> {
    if rs == [] then None
    else if Contains(rs[0].interval, addr) then Some(rs[0].line)
    else Scan(rs[1..], addr)
  }

  predicate AllProper(rs: seq<Range>) {
    forall i | 0 <= i < |rs| :: Proper(rs[i].interval)
  }

  // ------------------------------------------------------------- the proofs

  /** In an ordered map a key comes after all entries before its lower bound, and if it does
      not clash there it comes before all the others. */
  lemma BoundSplits(s: seq<Range>, k: Interval, i: nat)
    requires Ordered(s) && Proper(k) && i < |s|
    ensures var b := LowerBound(s, k, 0);
            && (i < b ==> Less(s[i].interval, k))
            && (i >= b ==> !Less(s[i].interval, k) || s[i].interval == Interval(k.base, k.base))
            && (i > b ==> Less(k, s[i].interval) || !Less(k, s[b].interval))
  {
    var b := LowerBound(s, k, 0);
    assert i > b ==> Less(s[b].interval, s[i].interval);
    assert Proper(s[i].interval);
  }

  /** A range is dropped exactly when it clashes with a stored one, and the map stays ordered. */
  lemma EmplaceKeeps(s: seq<Range>, r: Range)
    requires Ordered(s) && Proper(r.interval)
    ensures Ordered(Emplace(s, r))
    ensures (exists k :: k in s && Clash(k.interval, r.interval)) <==> Emplace(s, r) == s
    ensures forall x :: x in Emplace(s, r) <==> x in s || (x == r && Emplace(s, r) != s)
  {
    var b := UpperBound(s, r.interval, 0);
    if b > 0 && !Less(s[b - 1].interval, r.interval) {
      assert s[b - 1] in s && Clash(s[b - 1].interval, r.interval);
    } else {
      var t := s[..b] + [r] + s[b..];
      assert |t| == |s| + 1;
      assert s == s[..b] + s[b..];
      NoClash(s, r);
      OrderedInsert(s, r, b);
    }
  }

  lemma NoClash(s: seq<Range>, r: Range)
    requires Ordered(s) && Proper(r.interval)
    requires var b := UpperBound(s, r.interval, 0); b > 0 ==> Less(s[b - 1].interval, r.interval)
    ensures forall i | 0 <= i < UpperBound(s, r.interval, 0) :: Less(s[i].interval, r.interval)
    ensures forall i | UpperBound(s, r.interval, 0) <= i < |s| :: Less(r.interval, s[i].interval)
    ensures forall k | k in s :: !Clash(k.interval, r.interval)
  {
    var b := UpperBound(s, r.interval, 0);
    forall i | 0 <= i < |s|
      ensures i < b ==> Less(s[i].interval, r.interval)
      ensures i >= b ==> Less(r.interval, s[i].interval)
    {
      assert i + 1 < b ==> Less(s[i].interval, s[b - 1].interval) && Proper(s[b - 1].interval);
      assert i > b ==> Less(s[b].interval, s[i].interval) && Proper(s[b].interval);
    }
  }

  lemma OrderedInsert(s: seq<Range>, r: Range, b: nat)
    requires Ordered(s) && Proper(r.interval) && b <= |s|
    requires forall i | 0 <= i < b :: Less(s[i].interval, r.interval)
    requires forall i | b <= i < |s| :: Less(r.interval, s[i].interval)
    ensures Ordered(s[..b] + [r] + s[b..])
  {
  }

  /** The map holds exactly the accepted ranges, in order. */
  lemma {:induction false} IndexIsAccepted(rs: seq<Range>)
    requires AllProper(rs)
    ensures Ordered(Index(rs))
    ensures forall x :: x in Index(rs) <==> x in Accepted(rs)
  {
    if rs != [] {
      IndexIsAccepted(rs[..|rs| - 1]);
      EmplaceKeeps(Index(rs[..|rs| - 1]), rs[|rs| - 1]);
    }
  }

  /** Searching the map finds a range that holds the address if there is one. */
  lemma FindContains(s: seq<Range>, addr: nat)
    requires Ordered(s)
    ensures var r := Find(s, Unit(addr));
            && (r.Some? ==> r.value in s && Contains(r.value.interval, addr))
            && (r.None? ==> forall k | k in s :: !Contains(k.interval, addr))
  {
    var b := LowerBound(s, Unit(addr), 0);
    forall k | k in s ensures Find(s, Unit(addr)).None? ==> !Contains(k.interval, addr) {
      var i :| 0 <= i < |s| && s[i] == k;
      BoundSplits(s, Unit(addr), i);
    }
  }

  lemma {:induction false} ScanContains(rs: seq<Range>, addr: nat)
    ensures Scan(rs, addr).Some? ==> exists k :: k in rs && Contains(k.interval, addr) && Scan(rs, addr) == Some(k.line)
    ensures Scan(rs, addr).None? ==> forall k | k in rs :: !Contains(k.interval, addr)
  {
    if rs != [] {
      ScanContains(rs[1..], addr);
      if Contains(rs[0].interval, addr) {
        assert rs[0] in rs;
      } else {
        assert rs == [rs[0]] + rs[1..];
      }
    }
  }

  /** At most one stored range holds an address. */
  lemma OnlyOneContains(s: seq<Range>, a: Range, b: Range, addr: nat)
    requires Ordered(s) && a in s && b in s && Contains(a.interval, addr) && Contains(b.interval, addr)
    ensures a == b
  {
    var i :| 0 <= i < |s| && s[i] == a;
    var j :| 0 <= j < |s| && s[j] == b;
    assert i < j ==> Less(a.interval, b.interval);
    assert j < i ==> Less(b.interval, a.interval);
  }

  /** The index agrees with a scan: for every sequence of ranges and every address, looking it
      up is the same as scanning the accepted ranges. */
  lemma LookupIsScan(rs: seq<Range>, addr: nat)
    requires AllProper(rs)
    ensures FindLine(Index(rs), addr) == Scan(Accepted(rs), addr)
  {
    hide Index, Accepted, Ordered, Scan, Find;
    IndexIsAccepted(rs);
    FindContains(Index(rs), addr);
    ScanContains(Accepted(rs), addr);
    if Scan(Accepted(rs), addr).Some? {
      var k :| k in Accepted(rs) && Contains(k.interval, addr) && Scan(Accepted(rs), addr) == Some(k.line);
      OnlyOneContains(Index(rs), k, Find(Index(rs), Unit(addr)).value, addr);
    }
  }

  /** For ranges that are not empty, to clash is to share an address. */
  lemma ClashIsOverlap(a: Interval, b: Interval)
    requires a.base < a.limit && b.base < b.limit
    ensures Clash(a, b) <==> exists x: nat :: Contains(a, x) && Contains(b, x)
  {
    if Clash(a, b) {
      var x := if a.base < b.base then b.base else a.base;
      assert Contains(a, x) && Contains(b, x);
    }
  }

  /** An empty range clashes with a range although they share no address, exactly when it lies
      strictly inside: so it makes the map drop any later range around it. */
  lemma EmptyRangeClash(p: nat, r: Interval)
    requires Proper(r)
    ensures Clash(Interval(p, p), r) <==> r.base < p < r.limit
    ensures forall x: nat :: !Contains(Interval(p, p), x)
    ensures forall l: nat, m: nat | r.base < p < r.limit ::
              Index([Range(Interval(p, p), l), Range(r, m)]) == [Range(Interval(p, p), l)]
  {
    forall l: nat, m: nat | r.base < p < r.limit
      ensures Index([Range(Interval(p, p), l), Range(r, m)]) == [Range(Interval(p, p), l)]
    {
      var a, b := Range(Interval(p, p), l), Range(r, m);
      assert [a, b][..1] == [a] && [a][..0] == [];
      assert Index([a]) == Emplace([], a) == [a];
      assert Emplace([a], b) == [a];
    }
  }

  // ------------------------------------------------- the map is a search tree

  datatype Tree = Leaf | Node(left: Tree, range: Range, right: Tree)

  function InOrder(t: Tree): seq<Range> {
    match t
    case Leaf => []
    case Node(left, range, right) => InOrder(left) + [range] + InOrder(right)
  }

  /** The descent of std::map::lower_bound. */
  function TreeBound(t: Tree, k: Interval): Option<Range> {
    match t
    case Leaf => None
    case Node(left, range, right) =>
      if Less(range.interval, k) then TreeBound(right, k)
      else if TreeBound(left, k).Some? then TreeBound(left, k)
      else Some(range)
  }

  function TreeFind(t: Tree, k: Interval): Option<Range> {
    match TreeBound(t, k)
    case None => None
    case Some(r) => if Less(k, r.interval) then None else Some(r)
  }

  /** The line of an address. */
  function TreeLine(t: Tree, addr: nat): Option<nat> {
    match TreeFind(t, Unit(addr))
    case Some(r) => Some(r.line)
    case None => None
  }

  /** The descent of an insertion goes left where the new entry comes first; `last` is the last
      entry where it went right, and must come before the new one. */
  predicate Accepts(t: Tree, r: Range, last: Option<Range>) {
    match t
    case Leaf => last.None? || Less(last.value.interval, r.interval)
    case Node(left, range, right) =>
      if Less(r.interval, range.interval) then Accepts(left, r, last) else Accepts(right, r, Some(range))
  }

  function Attach(t: Tree, r: Range): Tree {
    match t
    case Leaf => Node(Leaf, r, Leaf)
    case Node(left, range, right) =>
      if Less(r.interval, range.interval) then Node(Attach(left, r), range, right)
      else Node(left, range, Attach(right, r))
  }

  function TreeInsert(t: Tree, r: Range): Tree {
    if Accepts(t, r, None) then Attach(t, r) else t
  }

  function RotateLeft(t: Tree): Tree {
    if t.Node? && t.right.Node? then Node(Node(t.left, t.range, t.right.left), t.right.range, t.right.right) else t
  }

  function RotateRight(t: Tree): Tree {
    if t.Node? && t.left.Node? then Node(t.left.left, t.left.range, Node(t.left.right, t.range, t.right)) else t
  }

  /** A rotation at the end of a path of turns, true for left. */
  function RotateAt(t: Tree, path: seq<bool>, toLeft: bool): Tree
    decreases |path|
  {
    if path == [] then (if toLeft then RotateLeft(t) else RotateRight(t))
    else if t.Leaf? then t
    else if path[0] then t.(left := RotateAt(t.left, path[1..], toLeft))
    else t.(right := RotateAt(t.right, path[1..], toLeft))
  }

  /** What happens to the map: additions, and between them any rotations. */
  datatype Op = Add(range: Range) | Rotate(path: seq<bool>, toLeft: bool)

  function Build(ops: seq<Op>): Tree {
    if ops == [] then Leaf
    else
      var t := Build(ops[..|ops| - 1]);
      match ops[|ops| - 1]
      case Add(r) => TreeInsert(t, r)
      case Rotate(path, toLeft) => RotateAt(t, path, toLeft)
  }

  function AddedBy(ops: seq<Op>): seq<Range> {
    if ops == [] then []
    else AddedBy(ops[..|ops| - 1]) + if ops[|ops| - 1].Add? then [ops[|ops| - 1].range] else []
  }

  lemma OrderedParts(a: seq<Range>, r: Range, b: seq<Range>)
    requires Ordered(a + [r] + b)
    ensures Ordered(a) && Ordered(b)
    ensures forall i | 0 <= i < |a| :: Less(a[i].interval, r.interval)
    ensures forall i | 0 <= i < |b| :: Less(r.interval, b[i].interval)
    ensures Proper(r.interval)
  {
    var s := a + [r] + b;
    assert s[|a|] == r;
    assert forall i | 0 <= i < |a| :: s[i] == a[i];
    assert forall i | 0 <= i < |b| :: s[|a| + 1 + i] == b[i];
  }

  lemma BoundIs(s: seq<Range>, k: Interval, n: nat)
    requires n <= |s| && (n < |s| ==> !Less(s[n].interval, k)) && forall i | 0 <= i < n :: Less(s[i].interval, k)
    ensures LowerBound(s, k, 0) == n
  {
  }

  lemma UpperIs(s: seq<Range>, k: Interval, n: nat)
    requires n <= |s| && (n < |s| ==> Less(k, s[n].interval)) && forall i | 0 <= i < n :: !Less(k, s[i].interval)
    ensures UpperBound(s, k, 0) == n
  {
  }

  /** The descent finds the first entry, in order, that does not come before the key. */
  lemma {:induction false} TreeBoundIs(t: Tree, k: Interval)
    requires Ordered(InOrder(t))
    ensures var s := InOrder(t);
            var n := LowerBound(s, k, 0);
            TreeBound(t, k) == if n < |s| then Some(s[n]) else None
  {
    match t
    case Leaf =>
    case Node(left, range, right) =>
      var a, b := InOrder(left), InOrder(right);
      var s := a + [range] + b;
      OrderedParts(a, range, b);
      TreeBoundIs(left, k);
      TreeBoundIs(right, k);
      var n := LowerBound(a, k, 0);
      if Less(range.interval, k) {
        var m := LowerBound(b, k, 0);
        forall i | 0 <= i < |a| ensures Less(a[i].interval, k) {
        }
        BoundIs(s, k, |a| + 1 + m);
      } else if n < |a| {
        BoundIs(s, k, n);
      } else {
        BoundIs(s, k, |a|);
      }
  }

  /** The upper bound in a node's order is that of the side the descent takes. */
  lemma UpperParts(a: seq<Range>, x: Range, b: seq<Range>, k: Interval)
    requires Ordered(a + [x] + b) && Proper(k)
    ensures UpperBound(a + [x] + b, k, 0)
         == if Less(k, x.interval) then UpperBound(a, k, 0) else |a| + 1 + UpperBound(b, k, 0)
  {
    var s := a + [x] + b;
    OrderedParts(a, x, b);
    if Less(k, x.interval) {
      UpperIs(s, k, UpperBound(a, k, 0));
    } else {
      forall i | 0 <= i < |a| ensures !Less(k, a[i].interval) {
      }
      UpperIs(s, k, |a| + 1 + UpperBound(b, k, 0));
    }
  }

  /** The entry before the place, or if there is none the given one. */
  function LastBefore(s: seq<Range>, k: Interval, last: Option<Range>): Option<Range> {
    var i := UpperBound(s, k, 0);
    if i > 0 then Some(s[i - 1]) else last
  }

  lemma {:induction false} AttachIsInsert(t: Tree, r: Range)
    requires Ordered(InOrder(t)) && Proper(r.interval)
    ensures var i := UpperBound(InOrder(t), r.interval, 0); InOrder(Attach(t, r)) == InOrder(t)[..i] + [r] + InOrder(t)[i..]
  {
    match t
    case Leaf =>
    case Node(left, x, right) =>
      var a, b := InOrder(left), InOrder(right);
      OrderedParts(a, x, b);
      UpperParts(a, x, b, r.interval);
      hide Ordered, UpperBound;
      if Less(r.interval, x.interval) {
        AttachIsInsert(left, r);
        InsertLeft(a, x, b, r, UpperBound(a, r.interval, 0));
      } else {
        AttachIsInsert(right, r);
        InsertRight(a, x, b, r, UpperBound(b, r.interval, 0));
      }
  }

  lemma {:induction false} AcceptsLast(t: Tree, r: Range, last: Option<Range>)
    requires Ordered(InOrder(t)) && Proper(r.interval)
    ensures var before := LastBefore(InOrder(t), r.interval, last);
            Accepts(t, r, last) <==> before.None? || Less(before.value.interval, r.interval)
  {
    match t
    case Leaf =>
    case Node(left, x, right) =>
      OrderedParts(InOrder(left), x, InOrder(right));
      LastParts(InOrder(left), x, InOrder(right), r.interval, last);
      hide Ordered, LastBefore;
      if Less(r.interval, x.interval) {
        AcceptsLast(left, r, last);
      } else {
        AcceptsLast(right, r, Some(x));
      }
  }

  lemma LastParts(a: seq<Range>, x: Range, b: seq<Range>, k: Interval, last: Option<Range>)
    requires Ordered(a + [x] + b) && Proper(k)
    ensures LastBefore(a + [x] + b, k, last) == if Less(k, x.interval) then LastBefore(a, k, last) else LastBefore(b, k, Some(x))
  {
    UpperParts(a, x, b, k);
    hide Ordered, UpperBound;
  }

  lemma InsertLeft(a: seq<Range>, x: Range, b: seq<Range>, r: Range, i: nat)
    requires i <= |a|
    ensures var s := a + [x] + b; (a[..i] + [r] + a[i..]) + [x] + b == s[..i] + [r] + s[i..]
  {
  }

  lemma InsertRight(a: seq<Range>, x: Range, b: seq<Range>, r: Range, i: nat)
    requires i <= |b|
    ensures var s, n := a + [x] + b, |a| + 1 + i; a + [x] + (b[..i] + [r] + b[i..]) == s[..n] + [r] + s[n..]
  {
  }

  /** However the tree is balanced, inserting does what it does to the ordered sequence. */
  lemma InsertIsEmplace(t: Tree, r: Range)
    requires Ordered(InOrder(t)) && Proper(r.interval)
    ensures InOrder(TreeInsert(t, r)) == Emplace(InOrder(t), r)
  {
    AttachIsInsert(t, r);
    AcceptsLast(t, r, None);
  }

  lemma {:induction false} RotateKeeps(t: Tree, path: seq<bool>, toLeft: bool)
    ensures InOrder(RotateAt(t, path, toLeft)) == InOrder(t)
    decreases |path|
  {
    if path == [] {
      LeftKeeps(t);
      RightKeeps(t);
    } else if t.Node? {
      RotateKeeps(t.left, path[1..], toLeft);
      RotateKeeps(t.right, path[1..], toLeft);
    }
  }

  lemma LeftKeeps(t: Tree)
    ensures InOrder(RotateLeft(t)) == InOrder(t)
  {
    if t.Node? && t.right.Node? {
      Regroup(InOrder(t.left), [t.range], InOrder(t.right.left), [t.right.range], InOrder(t.right.right));
    }
  }

  lemma RightKeeps(t: Tree)
    ensures InOrder(RotateRight(t)) == InOrder(t)
  {
    if t.Node? && t.left.Node? {
      Regroup(InOrder(t.left.left), [t.left.range], InOrder(t.left.right), [t.range], InOrder(t.right));
    }
  }

  lemma Regroup(a: seq<Range>, x: seq<Range>, b: seq<Range>, y: seq<Range>, c: seq<Range>)
    ensures (a + x + b) + y + c == a + x + (b + y + c)
  {
  }

  /** Whatever rotations happen between the additions, the tree's order is the index. */
  lemma {:induction false} BuildIsIndex(ops: seq<Op>)
    requires AllProper(AddedBy(ops))
    ensures InOrder(Build(ops)) == Index(AddedBy(ops)) && Ordered(InOrder(Build(ops)))
  {
    if ops != [] {
      var before, op := ops[..|ops| - 1], ops[|ops| - 1];
      var rs := AddedBy(before);
      assert rs <= AddedBy(ops);
      BuildIsIndex(before);
      match op
      case Add(r) =>
        assert AddedBy(ops)[..|rs|] == rs && AddedBy(ops)[|rs|] == r;
        InsertIsEmplace(Build(before), r);
        EmplaceKeeps(Index(rs), r);
      case Rotate(path, toLeft) =>
        assert AddedBy(ops) == rs;
        RotateKeeps(Build(before), path, toLeft);
    }
  }

  /** The map agrees with a scan: after any additions and rotations, looking an address up is
      the same as scanning the accepted ranges. */
  lemma BuiltMapFinds(ops: seq<Op>, addr: nat)
    requires AllProper(AddedBy(ops))
    ensures TreeLine(Build(ops), addr) == Scan(Accepted(AddedBy(ops)), addr)
  {
    hide Index, Accepted, Scan, Build, AddedBy;
    BuildIsIndex(ops);
    TreeBoundIs(Build(ops), Unit(addr));
    LookupIsScan(AddedBy(ops), addr);
  }

  // ---------------------------------------------------- ranges that are reversed

  /** What is found always holds the address, whatever the ranges and the tree. */
  lemma {:induction false} FindIsSound(t: Tree, addr: nat)
    ensures var r := TreeFind(t, Unit(addr)); r.Some? ==> r.value in InOrder(t) && Contains(r.value.interval, addr)
  {
    BoundIsIn(t, Unit(addr));
  }

  lemma {:induction false} BoundIsIn(t: Tree, k: Interval)
    ensures var r := TreeBound(t, k); r.Some? ==> r.value in InOrder(t) && !Less(r.value.interval, k)
  {
    if t.Node? {
      BoundIsIn(t.left, k);
      BoundIsIn(t.right, k);
    }
  }

  /** Does the map find a range for an address if it has one that holds it? */
  ghost predicate FindsWhatItHas(ops: seq<Op>, addr: nat) {
    (exists r :: r in InOrder(Build(ops)) && Contains(r.interval, addr)) ==> TreeFind(Build(ops), Unit(addr)).Some?
  }

  /** A range that ends before it begins, as a constant high_pc taken for an address gives,
      hides any address in between: a range added behind it for that address is stored, but a
      lookup does not find it. */
  lemma ReversedRangeHides(v: Range, x: nat, line: nat)
    requires v.interval.limit <= x < v.interval.base
    ensures var ops := [Add(v), Add(Range(Unit(x), line))];
            Range(Unit(x), line) in InOrder(Build(ops)) && TreeFind(Build(ops), Unit(x)) == None && !FindsWhatItHas(ops, x)
  {
    var h := Range(Unit(x), line);
    var ops := [Add(v), Add(h)];
    assert ops[..1] == [Add(v)] && ops[..1][..0] == [];
    assert Build(ops[..1]) == Node(Leaf, v, Leaf);
    assert Less(h.interval, v.interval) && Attach(Leaf, h) == Node(Leaf, h, Leaf) && Accepts(Leaf, h, None);
    assert Accepts(Node(Leaf, v, Leaf), h, None) && Attach(Node(Leaf, v, Leaf), h) == Node(Node(Leaf, h, Leaf), v, Leaf);
    assert Build(ops) == TreeInsert(Node(Leaf, v, Leaf), h) == Node(Node(Leaf, h, Leaf), v, Leaf);
    assert Less(v.interval, Unit(x)) && TreeBound(Leaf, Unit(x)) == None;
    assert InOrder(Node(Leaf, h, Leaf)) == [h];
    assert InOrder(Build(ops)) == [h, v];
    assert h in InOrder(Build(ops)) && Contains(h.interval, x);
  }

  /** So exactly the ranges that do not end before they begin leave the map able to find what
      it has, among any others of that kind. */
  lemma HarmlessIffProper(v: Range)
    ensures Proper(v.interval)
       <==> forall ops: seq<Op>, addr: nat | AllProper(AddedBy(ops)) :: FindsWhatItHas([Add(v)] + ops, addr)
  {
    if Proper(v.interval) {
      forall ops: seq<Op>, addr: nat | AllProper(AddedBy(ops)) ensures FindsWhatItHas([Add(v)] + ops, addr) {
        AddedCons(Add(v), ops);
        FindsIfProper([Add(v)] + ops, addr);
      }
    } else {
      var x := v.interval.limit;
      var ops := [Add(Range(Unit(x), 0))];
      assert ops[..0] == [];
      assert AddedBy(ops) == AddedBy(ops[..0]) + [Range(Unit(x), 0)];
      ReversedRangeHides(v, x, 0);
      assert [Add(v)] + ops == [Add(v), Add(Range(Unit(x), 0))];
      assert AllProper(AddedBy(ops)) && !FindsWhatItHas([Add(v)] + ops, x);
    }
  }

  lemma {:induction false} AddedCons(op: Op, ops: seq<Op>)
    ensures AddedBy([op] + ops) == (if op.Add? then [op.range] else []) + AddedBy(ops)
  {
    if ops == [] {
      assert [op][..0] == [];
    } else {
      assert ([op] + ops)[..|ops|] == [op] + ops[..|ops| - 1];
      AddedCons(op, ops[..|ops| - 1]);
    }
  }

  lemma FindsIfProper(ops: seq<Op>, addr: nat)
    requires AllProper(AddedBy(ops))
    ensures FindsWhatItHas(ops, addr)
  {
    hide Build, Index, AddedBy;
    BuildIsIndex(ops);
    TreeBoundIs(Build(ops), Unit(addr));
    FindContains(InOrder(Build(ops)), addr);
  }
}
