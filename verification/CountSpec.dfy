/** Sorted tables of word counts: the order of strcmp, adding a word, merging two tables,
    and the merge tournament. */
module CountSpec {
  import opened WordSpec

  datatype Entry = Entry(word: string, count: nat)

  // ------------------------------------------------------------- the order

  /** strcmp */
  function Compare(a: string, b: string): int {
    if a == [] then (if b == [] then 0 else -1)
    else if b == [] then 1
    else if a[0] < b[0] then -1
    else if a[0] > b[0] then 1
    else Compare(a[1..], b[1..])
  }

  lemma {:induction false} CompareEqual(a: string, b: string)
    ensures Compare(a, b) == 0 <==> a == b
  {
    if a != [] && b != [] && a[0] == b[0] {
      CompareEqual(a[1..], b[1..]);
      assert a == [a[0]] + a[1..] && b == [b[0]] + b[1..];
    }
  }

  lemma {:induction false} CompareFlips(a: string, b: string)
    ensures Compare(a, b) == -Compare(b, a)
  {
    if a != [] && b != [] && a[0] == b[0] {
      CompareFlips(a[1..], b[1..]);
    }
  }

  /** The strings agree up to k, and there the first one ends or has the smaller character. */
  predicate SmallerAt(a: string, b: string, k: nat) {
    && k <= |a| && k < |b| && a[..k] == b[..k]
    && (k < |a| ==> a[k] < b[k])
  }

  /** The order is the lexicographic one. */
  lemma {:induction false} CompareIsLexicographic(a: string, b: string)
    ensures Compare(a, b) < 0 <==> exists k: nat :: SmallerAt(a, b, k)
  {
    if a == [] {
      if b != [] { assert SmallerAt(a, b, 0); }
    } else if b != [] {
      if a[0] < b[0] {
        assert SmallerAt(a, b, 0);
      } else if a[0] == b[0] {
        CompareIsLexicographic(a[1..], b[1..]);
        if k: nat :| SmallerAt(a, b, k) {
          assert k > 0 && a[1..][..k - 1] == a[..k][1..] && b[1..][..k - 1] == b[..k][1..];
          assert SmallerAt(a[1..], b[1..], k - 1);
        }
        if k: nat :| SmallerAt(a[1..], b[1..], k) {
          assert a[..k + 1] == [a[0]] + a[1..][..k] && b[..k + 1] == [b[0]] + b[1..][..k];
          assert SmallerAt(a, b, k + 1);
        }
      } else {
        forall k: nat ensures !SmallerAt(a, b, k) {
          if 0 < k <= |a| && k < |b| { assert a[..k][0] == a[0] && b[..k][0] == b[0]; }
        }
      }
    }
  }

  lemma {:induction false} CompareTransitive(a: string, b: string, c: string)
    requires Compare(a, b) < 0 && Compare(b, c) < 0
    ensures Compare(a, c) < 0
  {
    if a != [] && a[0] == b[0] && b[0] == c[0] {
      CompareTransitive(a[1..], b[1..], c[1..]);
    }
  }

  // ------------------------------------------------------------- the tables

  predicate Before(a: Entry, b: Entry) {
    Compare(a.word, b.word) < 0
  }

  predicate Sorted(t: seq<Entry>) {
    && (forall i, j | 0 <= i < j < |t| :: Before(t[i], t[j]))
    && (forall i | 0 <= i < |t| :: t[i].count >= 1)
  }

  function CountOf(t: seq<Entry>, w: string): nat {
    if t == [] then 0 else (if t[0].word == w then t[0].count else 0) + CountOf(t[1..], w)
  }

  lemma {:induction false} CountOfSplit(a: seq<Entry>, b: seq<Entry>, w: string)
    ensures CountOf(a + b, w) == CountOf(a, w) + CountOf(b, w)
  {
    if a == [] {
      assert a + b == b;
    } else {
      assert (a + b)[1..] == a[1..] + b;
      CountOfSplit(a[1..], b, w);
    }
  }

  /** Does the first word of t come after w, or is there none? */
  predicate Above(t: seq<Entry>, w: string) {
    forall i | 0 <= i < |t| :: Compare(w, t[i].word) < 0
  }

  /** wordcount_reduce: one more of a word. */
  function Added(t: seq<Entry>, w: string): seq<Entry> {
    if t == [] then [Entry(w, 1)]
    else
      var c := Compare(w, t[0].word);
      if c == 0 then [Entry(t[0].word, t[0].count + 1)] + t[1..]
      else if c < 0 then [Entry(w, 1)] + t
      else [t[0]] + Added(t[1..], w)
  }

  lemma SortedTail(t: seq<Entry>)
    requires Sorted(t) && t != []
    ensures Sorted(t[1..]) && Above(t[1..], t[0].word)
  {
    forall i | 0 <= i < |t[1..]| ensures Compare(t[0].word, t[1..][i].word) < 0 {
      assert Before(t[0], t[i + 1]);
    }
  }

  lemma SortedCons(e: Entry, t: seq<Entry>)
    requires Sorted(t) && Above(t, e.word) && e.count >= 1
    ensures Sorted([e] + t)
  {
  }

  lemma AboveTransitive(t: seq<Entry>, v: string, w: string)
    requires Above(t, w) && Compare(v, w) < 0
    ensures Above(t, v)
  {
    forall i | 0 <= i < |t| ensures Compare(v, t[i].word) < 0 {
      CompareTransitive(v, w, t[i].word);
    }
  }

  lemma {:induction false} AddedAbove(t: seq<Entry>, w: string, u: string)
    requires Above(t, u) && Compare(u, w) < 0
    ensures Above(Added(t, w), u)
  {
    hide Compare;
    if t != [] && Compare(w, t[0].word) > 0 {
      AddedAbove(t[1..], w, u);
    }
  }

  lemma {:induction false} AddedSorted(t: seq<Entry>, w: string)
    requires Sorted(t)
    ensures Sorted(Added(t, w))
  {
    if t != [] {
      hide Compare;
      var c := Compare(w, t[0].word);
      CompareEqual(w, t[0].word);
      SortedTail(t);
      if c == 0 {
        SortedCons(Entry(t[0].word, t[0].count + 1), t[1..]);
      } else if c < 0 {
        AboveTransitive(t[1..], w, t[0].word);
        SortedCons(Entry(w, 1), t);
      } else {
        CompareFlips(w, t[0].word);
        AddedSorted(t[1..], w);
        AddedAbove(t[1..], w, t[0].word);
        SortedCons(t[0], Added(t[1..], w));
      }
    }
  }

  /** Adding a word keeps the table strictly sorted and counts that word and no other. */
  lemma {:induction false} AddedKeeps(t: seq<Entry>, w: string, v: string)
    requires Sorted(t)
    ensures Sorted(Added(t, w))
    ensures CountOf(Added(t, w), v) == CountOf(t, v) + if v == w then 1 else 0
  {
    AddedSorted(t, w);
    if t != [] {
      hide Compare, Sorted;
      CompareEqual(w, t[0].word);
      SortedTail(t);
      AddedKeeps(t[1..], w, v);
    }
  }

  // ------------------------------------------------------------------ merge

  /** merge_sections: equal words are added up in the first table. */
  function Merge(a: seq<Entry>, b: seq<Entry>): seq<Entry>
    decreases |a| + |b|
  {
    if a == [] then b
    else if b == [] then a
    else
      var c := Compare(a[0].word, b[0].word);
      if c == 0 then Merge([Entry(a[0].word, a[0].count + b[0].count)] + a[1..], b[1..])
      else if c < 0 then [a[0]] + Merge(a[1..], b)
      else [b[0]] + Merge(a, b[1..])
  }

  lemma {:induction false} MergeAbove(a: seq<Entry>, b: seq<Entry>, w: string)
    requires Above(a, w) && Above(b, w)
    ensures Above(Merge(a, b), w)
    decreases |a| + |b|
  {
    if a != [] && b != [] {
      var c := Compare(a[0].word, b[0].word);
      if c == 0 {
        MergeAbove([Entry(a[0].word, a[0].count + b[0].count)] + a[1..], b[1..], w);
      } else if c < 0 {
        MergeAbove(a[1..], b, w);
      } else {
        MergeAbove(a, b[1..], w);
      }
    }
  }

  /** Merging keeps strict order, through equal words too. */
  lemma {:induction false} MergeSorted(a: seq<Entry>, b: seq<Entry>)
    requires Sorted(a) && Sorted(b)
    ensures Sorted(Merge(a, b))
    decreases |a| + |b|
  {
    if a != [] && b != [] {
      var c := Compare(a[0].word, b[0].word);
      SortedTail(a);
      SortedTail(b);
      if c == 0 {
        var sum := Entry(a[0].word, a[0].count + b[0].count);
        SortedCons(sum, a[1..]);
        MergeSorted([sum] + a[1..], b[1..]);
      } else if c < 0 {
        AboveCons(b, a[0].word);
        MergeSorted(a[1..], b);
        MergeAbove(a[1..], b, a[0].word);
        SortedCons(a[0], Merge(a[1..], b));
      } else {
        CompareFlips(a[0].word, b[0].word);
        AboveCons(a, b[0].word);
        MergeSorted(a, b[1..]);
        MergeAbove(a, b[1..], b[0].word);
        SortedCons(b[0], Merge(a, b[1..]));
      }
    }
  }

  lemma AboveCons(t: seq<Entry>, w: string)
    requires Sorted(t) && t != [] && Compare(w, t[0].word) < 0
    ensures Above(t, w)
  {
    SortedTail(t);
    AboveTransitive(t[1..], w, t[0].word);
    assert t == [t[0]] + t[1..];
  }

  /** Merging adds up the counts of every word. */
  lemma {:induction false} MergeCounts(a: seq<Entry>, b: seq<Entry>, w: string)
    ensures CountOf(Merge(a, b), w) == CountOf(a, w) + CountOf(b, w)
    decreases |a| + |b|
  {
    if a != [] && b != [] {
      var c := Compare(a[0].word, b[0].word);
      if c == 0 {
        CompareEqual(a[0].word, b[0].word);
        MergeCounts([Entry(a[0].word, a[0].count + b[0].count)] + a[1..], b[1..], w);
      } else if c < 0 {
        MergeCounts(a[1..], b, w);
      } else {
        MergeCounts(a, b[1..], w);
      }
    }
  }

  lemma {:induction false} MergeSize(a: seq<Entry>, b: seq<Entry>)
    ensures |Merge(a, b)| <= |a| + |b|
    decreases |a| + |b|
  {
    if a != [] && b != [] {
      var c := Compare(a[0].word, b[0].word);
      if c == 0 {
        MergeSize([Entry(a[0].word, a[0].count + b[0].count)] + a[1..], b[1..]);
      } else if c < 0 {
        MergeSize(a[1..], b);
      } else {
        MergeSize(a, b[1..]);
      }
    }
  }

  // ------------------------------------------------------------- tournament

  /** One round: neighbours are merged, and an odd last table is carried over. */
  function Round(ts: seq<seq<Entry>>): (r: seq<seq<Entry>>)
    ensures |r| == (|ts| + 1) / 2
  {
    if |ts| <= 1 then ts else [Merge(ts[0], ts[1])] + Round(ts[2..])
  }

  function Tournament(ts: seq<seq<Entry>>): seq<Entry>
    requires ts != []
    decreases |ts|
  {
    if |ts| == 1 then ts[0] else Tournament(Round(ts))
  }

  predicate AllSorted(ts: seq<seq<Entry>>) {
    forall i | 0 <= i < |ts| :: Sorted(ts[i])
  }

  function TotalOf(ts: seq<seq<Entry>>, w: string): nat {
    if ts == [] then 0 else CountOf(ts[0], w) + TotalOf(ts[1..], w)
  }

  lemma {:induction false} RoundKeeps(ts: seq<seq<Entry>>, w: string)
    requires AllSorted(ts)
    ensures AllSorted(Round(ts)) && TotalOf(Round(ts), w) == TotalOf(ts, w)
    decreases |ts|
  {
    if |ts| > 1 {
      MergeSorted(ts[0], ts[1]);
      MergeCounts(ts[0], ts[1], w);
      RoundKeeps(ts[2..], w);
      assert ts[1..][1..] == ts[2..];
    }
  }

  /** From any number of sorted tables, one sorted table with everybody's counts. */
  lemma {:induction false} TournamentKeeps(ts: seq<seq<Entry>>, w: string)
    requires ts != [] && AllSorted(ts)
    ensures Sorted(Tournament(ts)) && CountOf(Tournament(ts), w) == TotalOf(ts, w)
    decreases |ts|
  {
    if |ts| > 1 {
      RoundKeeps(ts, w);
      TournamentKeeps(Round(ts), w);
    }
  }

  lemma {:induction false} RoundAt(ts: seq<seq<Entry>>, i: nat)
    requires i < |Round(ts)|
    ensures Round(ts)[i] == if 2 * i + 1 < |ts| then Merge(ts[2 * i], ts[2 * i + 1]) else ts[2 * i]
    decreases i
  {
    if i > 0 {
      RoundAt(ts[2..], i - 1);
    }
  }

  // ---------------------------------------------------------- whole sections

  /** A section's table: its words one by one. */
  function TableOf(ws: seq<string>): seq<Entry> {
    if ws == [] then [] else Added(TableOf(ws[..|ws| - 1]), ws[|ws| - 1])
  }

  lemma {:induction false} TableCounts(ws: seq<string>, w: string)
    ensures Sorted(TableOf(ws)) && CountOf(TableOf(ws), w) == Occurrences(ws, w)
  {
    if ws != [] {
      TableCounts(ws[..|ws| - 1], w);
      AddedKeeps(TableOf(ws[..|ws| - 1]), ws[|ws| - 1], w);
    }
  }
}
