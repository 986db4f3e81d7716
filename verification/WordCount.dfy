/** The parallel word count as it is: a text cut up and edited in place, a growing sorted
    array for each thread, and a tournament of merges. */
module WordCount {
  import opened WordSpec
  import opened CountSpec
  import opened CutSpec

  const START_ARRAY_SIZE: nat := 2000

  // --------------------------------------------------------- the sorted array

  /** Where a word is, or belongs, in a sorted table. */
  predicate Place(t: seq<Entry>, w: string, pos: nat, found: bool) {
    && pos <= |t|
    && (forall i | 0 <= i < pos :: Compare(w, t[i].word) > 0)
    && if found then pos < |t| && Compare(w, t[pos].word) == 0 else forall i | pos <= i < |t| :: Compare(w, t[i].word) < 0
  }

  lemma PlaceTail(t: seq<Entry>, w: string, pos: nat, found: bool)
    requires Place(t, w, pos, found) && pos > 0
    ensures t != [] && Compare(w, t[0].word) > 0 && Place(t[1..], w, pos - 1, found)
  {
    hide Compare;
  }

  lemma InsertTail(t: seq<Entry>, e: Entry, pos: nat)
    requires 0 < pos <= |t|
    ensures [t[0]] + (t[1..][..pos - 1] + [e] + t[1..][pos - 1..]) == t[..pos] + [e] + t[pos..]
  {
  }

  lemma UpdateTail(t: seq<Entry>, e: Entry, pos: nat)
    requires 0 < pos < |t|
    ensures [t[0]] + t[1..][pos - 1 := e] == t[pos := e]
  {
  }

  lemma AddedHere(t: seq<Entry>, w: string, found: bool)
    requires Place(t, w, 0, found)
    ensures Added(t, w) == if found then t[0 := Entry(t[0].word, t[0].count + 1)] else t[..0] + [Entry(w, 1)] + t[0..]
  {
    hide Compare;
  }

  lemma {:induction false} AddedAt(t: seq<Entry>, w: string, pos: nat, found: bool)
    requires Place(t, w, pos, found)
    ensures pos <= |t| && (found ==> pos < |t|)
    ensures Added(t, w) == if found then t[pos := Entry(t[pos].word, t[pos].count + 1)] else t[..pos] + [Entry(w, 1)] + t[pos..]
    decreases pos
  {
    if pos == 0 {
      AddedHere(t, w, found);
    } else {
      PlaceTail(t, w, pos, found);
      hide Compare, Place;
      AddedAt(t[1..], w, pos - 1, found);
      InsertTail(t, Entry(w, 1), pos);
      if found {
        UpdateTail(t, Entry(t[pos].word, t[pos].count + 1), pos);
      }
    }
  }

  /** In a sorted table the words on either side of one compare like it. */
  lemma SideOf(t: seq<Entry>, w: string, k: nat, i: nat)
    requires Sorted(t) && k < |t| && i < |t|
    ensures Compare(w, t[k].word) < 0 && i >= k ==> Compare(w, t[i].word) < 0
    ensures Compare(w, t[k].word) >= 0 && i < k ==> Compare(w, t[i].word) > 0
  {
    CompareFlips(w, t[i].word);
    CompareFlips(w, t[k].word);
    CompareEqual(w, t[k].word);
    if i > k && Compare(w, t[k].word) < 0 {
      assert Before(t[k], t[i]);
      CompareTransitive(w, t[k].word, t[i].word);
    }
    if i < k && Compare(w, t[k].word) > 0 {
      assert Before(t[i], t[k]);
      CompareTransitive(t[i].word, t[k].word, w);
    }
    if i < k && w == t[k].word {
      assert Before(t[i], t[k]);
    }
  }

  class WordTable {
    var entries: array<Entry>
    var useLen: nat

    ghost predicate Valid()
      reads this
    {
      useLen < entries.Length
    }

    ghost function Contents(): seq<Entry>
      requires Valid()
      reads this, entries
    {
      entries[..useLen]
    }

    constructor ()
      ensures Valid() && Contents() == [] && fresh(entries)
    {
      entries := new Entry[START_ARRAY_SIZE](i => Entry("", 0));
      useLen := 0;
    }

    /** The binary search of wordcount_reduce. */
    method Search(word: string) returns (pos: nat, found: bool)
      requires Valid() && Sorted(Contents())
      ensures Place(Contents(), word, pos, found)
    {
      hide Sorted, Compare;
      ghost var t := Contents();
      var low, high := -1, useLen;
      found := false;
      while high - low > 1 && !found
        invariant -1 <= low < high <= useLen
        invariant forall i | 0 <= i <= low :: Compare(word, t[i].word) > 0
        invariant found ==> high < useLen && Compare(word, t[high].word) == 0
        invariant found ==> forall i | 0 <= i < high :: Compare(word, t[i].word) > 0
        invariant !found ==> forall i | high <= i < |t| :: Compare(word, t[i].word) < 0
        decreases high - low, !found
      {
        var next := (high + low) / 2;
        var cmp := Compare(word, entries[next].word);
        forall i | 0 <= i < |t|
          ensures cmp < 0 && i >= next ==> Compare(word, t[i].word) < 0
          ensures cmp >= 0 && i < next ==> Compare(word, t[i].word) > 0
        {
          SideOf(t, word, next, i);
        }
        if cmp == 0 {
          high := next;
          found := true;
        } else if cmp < 0 {
          high := next;
        } else {
          low := next;
        }
      }
      pos := high;
    }

    /** Open a gap and fill it; the end of the table is the smallest gap. */
    method InsertAt(pos: nat, word: string)
      requires Valid() && pos <= useLen
      modifies this`useLen, entries
      ensures useLen == old(useLen) + 1 <= entries.Length
      ensures entries[..useLen] == old(entries[..useLen])[..pos] + [Entry(word, 1)] + old(entries[..useLen])[pos..]
    {
      forall i | pos < i <= useLen {
        entries[i] := entries[i - 1];
      }
      entries[pos] := Entry(word, 1);
      useLen := useLen + 1;
    }

    method Grow()
      requires useLen == entries.Length > 0
      modifies this`entries
      ensures Valid() && fresh(entries) && Contents() == old(entries[..useLen])
    {
      var bigger := new Entry[2 * entries.Length](i => Entry("", 0));
      forall i | 0 <= i < useLen {
        bigger[i] := entries[i];
      }
      entries := bigger;
    }

    /** wordcount_reduce: one more of a word. */
    method Reduce(word: string)
      requires Valid() && Sorted(Contents())
      modifies this, entries
      ensures Valid() && Contents() == Added(old(Contents()), word)
      ensures entries == old(entries) || fresh(entries)
    {
      hide Sorted, Compare, Place;
      var pos, found := Search(word);
      AddedAt(Contents(), word, pos, found);
      if found {
        entries[pos] := Entry(entries[pos].word, entries[pos].count + 1);
      } else {
        InsertAt(pos, word);
      }
      if useLen == entries.Length {
        Grow();
      }
    }
  }

  // ---------------------------------------------------- the words of a section

  /** The C string at a position. */
  predicate StringAt(data: seq<char>, p: nat, w: string) {
    && p + |w| < |data| && data[p + |w|] == '\0'
    && forall i | p <= i < p + |w| :: data[i] == w[i - p] && data[i] != '\0'
  }

  method ReadString(data: array<char>, p: nat, ghost w: string) returns (r: string)
    requires StringAt(data[..], p, w)
    ensures r == w
  {
    r := "";
    var i := p;
    while data[i] != '\0'
      invariant p <= i <= p + |w| && r == w[..i - p]
      decreases p + |w| - i
    {
      r := r + [data[i]];
      i := i + 1;
    }
    assert w[..i - p] == w;
  }

  /** Nothing of a word being read is a string's end. */
  predicate Plain(s: string) {
    forall k | 0 <= k < |s| :: s[k] != '\0'
  }

  lemma {:induction false} CurrentIsPlain(text: string)
    ensures Plain(LexOf(text).current)
  {
    if text != [] { CurrentIsPlain(text[..|text| - 1]); }
  }

  /** The bytes of the buffer after k characters of a section were read: the word being read
      is in place in upper case, and nothing from there on has changed. */
  ghost predicate Edited(now: seq<char>, was: seq<char>, start: nat, length: nat, k: nat, current: string) {
    && |now| == |was| && k <= length && start + length < |was| && |current| <= k
    && (forall i | 0 <= i < start || start + k <= i < |was| :: now[i] == was[i])
    && (forall i | 0 <= i < |current| :: now[start + k - |current| + i] == current[i])
  }

  lemma EditedStart(was: seq<char>, start: nat, length: nat)
    requires start + length < |was|
    ensures Edited(was, was, start, length, 0, "")
  {
  }

  lemma EditedAppend(now: seq<char>, was: seq<char>, start: nat, length: nat, k: nat, current: string, c: char)
    requires Edited(now, was, start, length, k, current) && k < length
    ensures Edited(now[start + k := c], was, start, length, k + 1, current + [c])
  {
  }

  lemma EditedClose(now: seq<char>, was: seq<char>, start: nat, length: nat, k: nat, current: string)
    requires Edited(now, was, start, length, k, current) && Plain(current)
    ensures StringAt(now[start + k := '\0'], start + k - |current|, current)
    ensures k < length ==> Edited(now[start + k := '\0'], was, start, length, k + 1, "")
  {
  }

  lemma EditedSkip(now: seq<char>, was: seq<char>, start: nat, length: nat, k: nat)
    requires Edited(now, was, start, length, k, "") && k < length
    ensures Edited(now, was, start, length, k + 1, "")
  {
  }

  lemma EditedRest(now: seq<char>, was: seq<char>, start: nat, length: nat, k: nat, current: string)
    requires Edited(now, was, start, length, k, current)
    ensures |now| == |was| && start + length < |was| && |current| <= k <= length
    ensures forall i | 0 <= i < start || start + k <= i < |was| :: now[i] == was[i]
  {
  }

  /** wordcount_map: the words of a section, edited in place, added to the thread's table. */
  method WordcountMap(data: array<char>, start: nat, length: nat, table: WordTable)
    requires start + length < data.Length
    requires table.Valid() && table.Contents() == []
    modifies data, table, table.entries
    ensures table.Valid() && table.Contents() == TableOf(Tokens(old(data[start..start + length])))
    ensures forall i | 0 <= i < start || start + length < i < data.Length :: data[i] == old(data[i])
    ensures data[start + length] == old(data[start + length]) || (length > 0 && data[start + length] == '\0')
  {
    hide Edited, StringAt, TableOf, Plain;
    ghost var was := data[..];
    ghost var text := data[start..start + length];
    ghost var lex := Lex([], "");
    assert text[..0] == "";
    assert TableOf([]) == [] by { EmptyTable(); }
    EditedStart(was, start, length);
    var currStart: nat := start;
    var inWord := false;
    var i := 0;
    while i < length
      invariant i <= length && lex == LexOf(text[..i])
      invariant inWord <==> lex.current != ""
      invariant inWord ==> currStart + |lex.current| == start + i
      invariant Edited(data[..], was, start, length, i, lex.current)
      invariant table.Valid() && table.Contents() == TableOf(lex.words)
      invariant table.entries == old(table.entries) || fresh(table.entries)
    {
      EditedRest(data[..], was, start, length, i, lex.current);
      LexStep(text, i);
      CurrentIsPlain(text[..i]);
      hide LexOf;
      currStart, inWord := EatChar(data, was, start, length, i, table, lex, currStart, inWord);
      lex := Eat(lex, text[i]);
      i := i + 1;
    }
    assert text[..i] == text;
    CurrentIsPlain(text);
    EditedRest(data[..], was, start, length, length, lex.current);
    if inWord {
      EditedClose(data[..], was, start, length, length, lex.current);
      ghost var now := data[..];
      data[start + length] := '\0';
      assert data[..] == now[start + length := '\0'];
      Record(data, currStart, table, lex.words, lex.current);
    }
  }

  lemma EmptyTable()
    ensures TableOf([]) == []
  {
  }

  /** The body of the loop of wordcount_map. */
  method EatChar(data: array<char>, ghost was: seq<char>, start: nat, length: nat, i: nat, table: WordTable,
                 ghost lex: Lex, currStart: nat, inWord: bool) returns (currStart': nat, inWord': bool)
    requires i < length && start + length < data.Length
    requires Edited(data[..], was, start, length, i, lex.current) && Plain(lex.current)
    requires inWord <==> lex.current != ""
    requires inWord ==> currStart + |lex.current| == start + i
    requires table.Valid() && table.Contents() == TableOf(lex.words)
    modifies data, table, table.entries
    ensures var lex' := Eat(lex, old(data[start + i]));
            && Edited(data[..], was, start, length, i + 1, lex'.current)
            && (inWord' <==> lex'.current != "")
            && (inWord' ==> currStart' + |lex'.current| == start + i + 1)
            && table.Valid() && table.Contents() == TableOf(lex'.words)
    ensures table.entries == old(table.entries) || fresh(table.entries)
  {
    hide Edited, StringAt, TableOf, Plain;
    currStart', inWord' := currStart, inWord;
    ghost var now := data[..];
    var currLtr := Upper(data[start + i]);
    if inWord {
      data[start + i] := currLtr;
      EditedAppend(now, was, start, length, i, lex.current, currLtr);
      assert data[..] == now[start + i := currLtr];
      if !('A' <= currLtr <= 'Z') && currLtr != '\'' {
        data[start + i] := '\0';
        assert data[..] == now[start + i := '\0'];
        EditedClose(now, was, start, length, i, lex.current);
        Record(data, currStart, table, lex.words, lex.current);
        inWord' := false;
      }
    } else if 'A' <= currLtr <= 'Z' {
      currStart' := start + i;
      data[start + i] := currLtr;
      EditedAppend(now, was, start, length, i, "", currLtr);
      assert "" + [currLtr] == [currLtr];
      assert data[..] == now[start + i := currLtr];
      inWord' := true;
    } else {
      EditedSkip(now, was, start, length, i);
    }
  }

  /** Hand a finished word to the table. */
  method Record(data: array<char>, p: nat, table: WordTable, ghost ws: seq<string>, ghost w: string)
    requires StringAt(data[..], p, w)
    requires table.Valid() && table.Contents() == TableOf(ws)
    modifies table, table.entries
    ensures table.Valid() && table.Contents() == TableOf(ws + [w])
    ensures table.entries == old(table.entries) || fresh(table.entries)
  {
    TableCounts(ws, w);
    var word := ReadString(data, p, w);
    table.Reduce(word);
    assert (ws + [w])[..|ws|] == ws;
  }

  // ------------------------------------------------------------- the sections

  /** Contiguous sections from the start of a text, each ending before white space or at the end. */
  ghost predicate Sections(text: string, cuts: seq<nat>) {
    && cuts != [] && cuts[0] == 0
    && (forall k | 0 <= k < |cuts| :: cuts[k] <= |text|)
    && (forall k | 0 <= k < |cuts| - 1 :: CutAt(text, cuts, k))
  }

  /** Section k is cut off at the white space or the end of the text. */
  predicate CutAt(text: string, cuts: seq<nat>, k: nat)
    requires k + 1 < |cuts|
  {
    cuts[k] <= cuts[k + 1] <= |text| && (cuts[k + 1] == |text| || Space(text[cuts[k + 1]]))
  }

  lemma SectionAppend(text: string, cuts: seq<nat>, next: nat)
    requires Sections(text, cuts) && cuts[|cuts| - 1] <= next <= |text| && (next == |text| || Space(text[next]))
    ensures Sections(text, cuts + [next])
  {
    forall k | 0 <= k < |cuts| ensures CutAt(text, cuts + [next], k) {
      assert k < |cuts| - 1 ==> CutAt(text, cuts, k);
    }
  }

  lemma Uncovered(flen: nat, n: nat, cut: nat)
    requires n >= 1 && cut >= n * (flen / n)
    ensures flen - cut < n
  {
    assert flen == n * (flen / n) + flen % n;
  }

  /** The text while sections are being cut: a thread that is already running may have put
      the terminator of its last word over the white space at a cut. */
  ghost predicate Terminated(data: seq<char>, text: string, cuts: seq<nat>) {
    && |text| < |data|
    && forall i | 0 <= i < |text| :: data[i] == text[i] || (data[i] == '\0' && Space(text[i]) && Overwritten(text, cuts, i))
  }

  lemma TerminatedAppend(data: seq<char>, text: string, cuts: seq<nat>, next: nat)
    requires Terminated(data, text, cuts)
    ensures Terminated(data, text, cuts + [next])
  {
    hide Overwritten;
    forall i | 0 <= i < |text| && Overwritten(text, cuts, i) ensures Overwritten(text, cuts + [next], i) {
      OverwrittenMore(text, cuts, i, next);
    }
  }

  lemma TerminatedMore(data: seq<char>, text: string, cuts: seq<nat>, k: nat)
    requires Sections(text, cuts) && Terminated(data, text, cuts) && 1 <= k < |cuts| && EndsInWord(text, cuts[k - 1], cuts[k])
    ensures cuts[k] <= |text| < |data| && Terminated(data[cuts[k] := '\0'], text, cuts)
  {
    hide EndsInWord;
    assert CutAt(text, cuts, k - 1);
    assert Overwritten(text, cuts, cuts[k]);
  }

  /** Behind the last cut the text is as it was; at the cut it may be overwritten. */
  lemma BehindLastCut(data: seq<char>, text: string, cuts: seq<nat>, start: nat)
    requires Terminated(data, text, cuts) && start <= |text| && forall c | c in cuts :: c <= start
    ensures forall i | start < i < |text| :: data[i] == text[i]
    ensures start < |text| ==> data[start] == text[start] || (data[start] == '\0' && Space(text[start]) && Overwritten(text, cuts, start))
  {
    hide EndsInWord;
    forall i | start < i < |text| ensures data[i] == text[i] {
      if Overwritten(text, cuts, i) { OverwrittenMore(text, cuts, i, 0); }
    }
  }

  /** The white space a search finds in the text as it is now makes a cut where it belongs. */
  lemma CutFound(data: seq<char>, text: string, cuts: seq<nat>, req: nat)
    requires Terminated(data, text, cuts) && cuts != [] && cuts[|cuts| - 1] <= |text|
    requires forall c | c in cuts :: c <= cuts[|cuts| - 1]
    ensures var start := cuts[|cuts| - 1];
            var now := data[..|text|];
            var next := SectionEnd(now, Asked(now, start, req));
            CutMade(text, req, cuts + [next], |cuts| - 1)
  {
    var start := cuts[|cuts| - 1];
    BehindLastCut(data, text, cuts, start);
    hide Terminated, Overwritten;
    var now := data[..|text|];
    var from := Asked(now, start, req);
    var next := SectionEnd(now, from);
    if start < |text| && from == start && data[start] != text[start] {
      SectionEndIs(text, start + 1, next);
      OverwrittenMore(text, cuts, start, next);
    } else {
      SectionEndIs(text, from, next);
    }
  }

  /** Where the section from `start` ends: at white space at or after the asked length. */
  method EndSection(data: array<char>, flen: nat, start: nat, reqBytes: nat) returns (fpos: nat)
    requires start <= flen <= data.Length
    ensures fpos == SectionEnd(data[..flen], Asked(data[..flen], start, reqBytes))
  {
    var available := flen - start;
    var length := if reqBytes < available then reqBytes else available;
    fpos := start + length;
    while fpos < flen && !Space(data[fpos])
      invariant start + length <= fpos <= flen
      invariant forall q | start + length <= q < fpos :: !Space(data[q])
    {
      fpos := fpos + 1;
    }
    SectionEndIs(data[..flen], start + length, fpos);
  }

  /** Cuts where they belong are sections. */
  lemma {:induction false} CutsAreSections(text: string, req: nat, cuts: seq<nat>)
    requires CutsMade(text, req, cuts)
    ensures Sections(text, cuts)
  {
    hide Overwritten;
    forall k | 0 <= k < |cuts| - 1 ensures CutAt(text, cuts, k) {
      assert CutMade(text, req, cuts, k);
    }
    forall k | 0 <= k < |cuts| ensures cuts[k] <= |text| {
      CutsRise(text, req, cuts, k, k);
    }
  }

  /** Each cut of n reaches as far as asked for. */
  lemma {:induction false} CutsReach(text: string, req: nat, cuts: seq<nat>, k: nat)
    requires CutsMade(text, req, cuts) && k < |cuts|
    ensures cuts[k] >= k * req || cuts[k] == |text|
    ensures cuts[k] <= |text|
  {
    hide Overwritten;
    CutsRise(text, req, cuts, k, k);
    if k > 0 {
      CutsReach(text, req, cuts, k - 1);
      assert CutMade(text, req, cuts, k - 1);
      assert k * req == (k - 1) * req + req;
    }
  }

  lemma FewUncovered(text: string, procs: nat, cuts: seq<nat>)
    requires 1 <= procs && |cuts| == procs + 1 && CutsMade(text, |text| / procs, cuts)
    ensures cuts[procs] <= |text| && |text| - cuts[procs] < procs
  {
    hide CutsMade;
    CutsReach(text, |text| / procs, cuts, procs);
    if cuts[procs] < |text| {
      Uncovered(|text|, procs, cuts[procs]);
    }
  }

  /** The first loop of wordcount_splitter, with threads already at work on earlier sections:
      every cut is where it belongs. */
  method CutSections(data: array<char>, flen: nat, numProcs: nat) returns (cuts: seq<nat>)
    requires 1 <= numProcs && flen < data.Length
    modifies data
    ensures |cuts| == numProcs + 1 && CutsMade(old(data[..flen]), flen / numProcs, cuts)
    ensures Sections(old(data[..flen]), cuts)
    ensures Terminated(data[..], old(data[..flen]), cuts)
    ensures flen - cuts[numProcs] < numProcs
  {
    hide Terminated, CutsMade, CutMade, EndsInWord;
    var text := data[..flen];
    var reqBytes := flen / numProcs;
    var fpos := 0;
    cuts := [0];
    OneCut(data[..], text, reqBytes);
    var i := 0;
    while i < numProcs
      invariant i <= numProcs && |cuts| == i + 1 && CutsMade(text, reqBytes, cuts) && cuts[i] == fpos <= flen
      invariant Terminated(data[..], text, cuts)
    {
      var start := fpos;
      fpos := EndSection(data, flen, start, reqBytes);
      forall c | c in cuts ensures c <= start {
        var j :| 0 <= j < |cuts| && cuts[j] == c;
        CutsRise(text, reqBytes, cuts, j, i);
      }
      assert data[..][..flen] == data[..flen];
      CutFound(data[..], text, cuts, reqBytes);
      CutsMadeMore(text, reqBytes, cuts, fpos);
      TerminatedAppend(data[..], text, cuts, fpos);
      cuts := cuts + [fpos];
      CutsAreSections(text, reqBytes, cuts);
      EndEarly(data, text, cuts);
      i := i + 1;
    }
    CutsAreSections(text, reqBytes, cuts);
    FewUncovered(text, numProcs, cuts);
  }

  /** By now any of the threads started may have ended its last word. */
  method EndEarly(data: array<char>, text: string, cuts: seq<nat>)
    requires Sections(text, cuts) && Terminated(data[..], text, cuts)
    modifies data
    ensures Terminated(data[..], text, cuts)
  {
    hide Terminated;
    var k := 1;
    while k < |cuts|
      invariant Terminated(data[..], text, cuts)
    {
      if EndsInWord(text, cuts[k - 1], cuts[k]) {
        TerminatedMore(data[..], text, cuts, k);
        if * {
          ghost var now := data[..];
          data[cuts[k]] := '\0';
          assert data[..] == now[cuts[k] := '\0'];
        }
      }
      k := k + 1;
    }
  }

  lemma OneCut(data: seq<char>, text: string, req: nat)
    requires |text| < |data| && text == data[..|text|]
    ensures Sections(text, [0]) && Terminated(data, text, [0]) && CutsMade(text, req, [0])
  {
  }

  /** The words of the first k sections are those of the text up to their end. */
  lemma SectionTokens(text: string, cuts: seq<nat>, k: nat)
    requires Sections(text, cuts) && k + 1 < |cuts|
    ensures cuts[k] <= cuts[k + 1] <= |text|
    ensures Tokens(text[..cuts[k + 1]]) == Tokens(text[..cuts[k]]) + Tokens(text[cuts[k]..cuts[k + 1]])
  {
    assert CutAt(text, cuts, k);
    assert k > 0 ==> CutAt(text, cuts, k - 1);
    var a, b := text[..cuts[k]], text[cuts[k]..cuts[k + 1]];
    assert text[..cuts[k + 1]] == a + b;
    if k == 0 {
      assert a == "" && a + b == b;
    } else {
      TokensSplit(a, b);
    }
  }

  /** The tables of the threads. */
  ghost predicate TablesFor(text: string, cuts: seq<nat>, tables: seq<seq<Entry>>) {
    |tables| < |cuts| && forall k | 0 <= k < |tables| :: TableAt(text, cuts, tables, k)
  }

  predicate TableAt(text: string, cuts: seq<nat>, tables: seq<seq<Entry>>, k: nat)
    requires k < |tables| < |cuts|
  {
    cuts[k] <= cuts[k + 1] <= |text| && tables[k] == TableOf(Tokens(text[cuts[k]..cuts[k + 1]]))
  }

  lemma {:induction false} TotalSplit(a: seq<seq<Entry>>, t: seq<Entry>, w: string)
    ensures TotalOf(a + [t], w) == TotalOf(a, w) + CountOf(t, w)
  {
    if a == [] {
      assert a + [t] == [t];
    } else {
      assert (a + [t])[1..] == a[1..] + [t];
      TotalSplit(a[1..], t, w);
    }
  }

  /** Together the threads' tables count every word of the covered text. */
  lemma {:induction false} TablesCount(text: string, cuts: seq<nat>, tables: seq<seq<Entry>>, w: string)
    requires Sections(text, cuts) && TablesFor(text, cuts, tables)
    ensures AllSorted(tables) && cuts[|tables|] <= |text|
    ensures TotalOf(tables, w) == Occurrences(Tokens(text[..cuts[|tables|]]), w)
  {
    hide TableOf, Tokens, Occurrences, Sorted, CountOf;
    if tables == [] {
      NoTokens(text, w);
    } else {
      var k := |tables| - 1;
      var front := tables[..k];
      assert tables == front + [tables[k]];
      forall i | 0 <= i < k ensures TableAt(text, cuts, front, i) {
        assert TableAt(text, cuts, tables, i);
      }
      TablesCount(text, cuts, front, w);
      assert TableAt(text, cuts, tables, k);
      SectionTokens(text, cuts, k);
      TableCounts(Tokens(text[cuts[k]..cuts[k + 1]]), w);
      TotalSplit(front, tables[k], w);
      OccurrencesSplit(Tokens(text[..cuts[k]]), Tokens(text[cuts[k]..cuts[k + 1]]), w);
    }
  }

  lemma NoTokens(text: string, w: string)
    ensures text[..0] == "" && Occurrences(Tokens(text[..0]), w) == 0
  {
  }

  /** What a thread finds in its section: the text, but for the white space at the cut before
      it, which its neighbour may have overwritten with a terminator. */
  ghost predicate Intact(data: seq<char>, text: string, cuts: seq<nat>, k: nat)
    requires k + 1 < |cuts|
  {
    && cuts[k] <= cuts[k + 1] <= |text| < |data|
    && (forall i | cuts[k] < i < cuts[k + 1] :: data[i] == text[i])
    && (cuts[k] < cuts[k + 1] ==> data[cuts[k]] == text[cuts[k]] || (Space(text[cuts[k]]) && data[cuts[k]] == '\0'))
  }

  lemma {:induction false} CutsGrow(text: string, cuts: seq<nat>, j: nat, k: nat)
    requires Sections(text, cuts) && j <= k < |cuts|
    ensures cuts[j] <= cuts[k]
  {
    if j < k {
      assert CutAt(text, cuts, k - 1);
      CutsGrow(text, cuts, j, k - 1);
    }
  }

  /** No cut lies inside a section. */
  lemma AllIntact(data: seq<char>, text: string, cuts: seq<nat>, k: nat)
    requires Sections(text, cuts) && Terminated(data, text, cuts) && k + 1 < |cuts|
    ensures Intact(data, text, cuts, k)
  {
    assert CutAt(text, cuts, k);
    forall i | cuts[k] < i < cuts[k + 1] ensures data[i] == text[i] {
      if Overwritten(text, cuts, i) {
        OverwrittenMore(text, cuts, i, 0);
        var j :| 0 <= j < |cuts| && cuts[j] == i;
        if j <= k { CutsGrow(text, cuts, j, k); } else { CutsGrow(text, cuts, k + 1, j); }
      }
    }
  }

  lemma SameTokens(data: seq<char>, text: string, cuts: seq<nat>, k: nat)
    requires k + 1 < |cuts| && Intact(data, text, cuts, k)
    ensures Tokens(data[cuts[k]..cuts[k + 1]]) == Tokens(text[cuts[k]..cuts[k + 1]])
  {
    var a, b := data[cuts[k]..cuts[k + 1]], text[cuts[k]..cuts[k + 1]];
    if a == b {
    } else {
      assert a != [] && a[1..] == b[1..];
      assert a[0] == data[cuts[k]] && b[0] == text[cuts[k]];
      FirstCharIrrelevant(a, b);
    }
  }

  /** One thread's work leaves every other section as its thread expects it. */
  lemma OthersIntact(before: seq<char>, after: seq<char>, text: string, cuts: seq<nat>, k: nat, j: nat)
    requires Sections(text, cuts) && k + 1 < |cuts| && j + 1 < |cuts| && j != k
    requires Intact(before, text, cuts, j) && cuts[k] <= cuts[k + 1] <= |text| && |after| == |before|
    requires forall i | 0 <= i < cuts[k] || cuts[k + 1] < i < |after| :: after[i] == before[i]
    requires after[cuts[k + 1]] == before[cuts[k + 1]] || (cuts[k] < cuts[k + 1] && after[cuts[k + 1]] == '\0')
    ensures Intact(after, text, cuts, j)
  {
    assert CutAt(text, cuts, k);
    if j < k { CutsGrow(text, cuts, j + 1, k); } else { CutsGrow(text, cuts, k + 1, j); }
  }

  /** One thread on its section of the buffer. */
  method RunThread(data: array<char>, ghost text: string, cuts: seq<nat>, k: nat, ghost others: set<nat>)
    returns (table: seq<Entry>)
    requires Sections(text, cuts) && k + 1 < |cuts| && Intact(data[..], text, cuts, k)
    requires k !in others && forall j | j in others :: j + 1 < |cuts| && Intact(data[..], text, cuts, j)
    modifies data
    ensures cuts[k] <= cuts[k + 1] <= |text| && table == TableOf(Tokens(text[cuts[k]..cuts[k + 1]]))
    ensures forall j | j in others :: Intact(data[..], text, cuts, j)
  {
    hide Sections, TableOf, Tokens;
    var t := new WordTable();
    ghost var now := data[..];
    assert cuts[k] <= cuts[k + 1] <= |text| < |now|;
    assert data[cuts[k]..cuts[k + 1]] == now[cuts[k]..cuts[k + 1]];
    SameTokens(now, text, cuts, k);
    hide Intact;
    WordcountMap(data, cuts[k], cuts[k + 1] - cuts[k], t);
    forall j | j in others ensures Intact(data[..], text, cuts, j) {
      OthersIntact(now, data[..], text, cuts, k, j);
    }
    table := t.entries[..t.useLen];
  }

  function Upto(n: nat): (s: set<nat>)
    ensures forall i: nat :: i in s <==> i < n
  {
    if n == 0 then {} else Upto(n - 1) + {n - 1}
  }

  /** The threads, in any order, each on its section of the same buffer. */
  method MapSections(data: array<char>, ghost text: string, cuts: seq<nat>) returns (tables: seq<seq<Entry>>)
    requires Sections(text, cuts) && Terminated(data[..], text, cuts)
    modifies data
    ensures |tables| == |cuts| - 1 && TablesFor(text, cuts, tables)
  {
    hide Sections, TableOf, Tokens, Terminated, Intact;
    assert cuts != [] by { FirstCut(text, cuts); }
    var n := |cuts| - 1;
    tables := seq(n, i => []);
    var waiting := Upto(n);
    forall k | k in waiting ensures Intact(data[..], text, cuts, k) {
      AllIntact(data[..], text, cuts, k);
    }
    while waiting != {}
      invariant |tables| == n && forall k | k in waiting :: k < n && Intact(data[..], text, cuts, k)
      invariant forall k | 0 <= k < n && k !in waiting :: TableAt(text, cuts, tables, k)
      decreases waiting
    {
      var k :| k in waiting;
      waiting := waiting - {k};
      var table := RunThread(data, text, cuts, k, waiting);
      tables := tables[k := table];
    }
  }

  lemma FirstCut(text: string, cuts: seq<nat>)
    requires Sections(text, cuts)
    ensures cuts != []
  {
  }

  // ----------------------------------------------------------------- merging

  lemma MergeHere(a: seq<Entry>, b: seq<Entry>)
    requires a != [] && b != []
    ensures var c := Compare(a[0].word, b[0].word);
            Merge(a, b) == if c == 0 then Merge([Entry(a[0].word, a[0].count + b[0].count)] + a[1..], b[1..])
                           else if c < 0 then [a[0]] + Merge(a[1..], b)
                           else [b[0]] + Merge(a, b[1..])
  {
  }

  lemma MergeRest(a: seq<Entry>, b: seq<Entry>)
    requires a == [] || b == []
    ensures Merge(a, b) == a + b
  {
  }

  /** One turn of the loop of merge_sections. */
  method MergeStep(data1: array<Entry>, data2: array<Entry>, length1: nat, length2: nat, i: nat, j: nat,
                   out: array<Entry>, n: nat)
    returns (i': nat, j': nat, n': nat)
    requires data1 != data2 && out != data1 && out != data2
    requires i < length1 <= data1.Length && j < length2 <= data2.Length && n < out.Length
    modifies data1, out
    ensures i <= i' <= length1 && j <= j' <= length2 && n <= n' <= n + 1 && i' + j' == i + j + 1
    ensures out[..n'] + Merge(data1[i'..length1], data2[j'..length2])
         == old(out[..n] + Merge(data1[i..length1], data2[j..length2]))
  {
    hide Merge, Compare;
    i', j', n' := i, j, n;
    ghost var a, b := data1[i..length1], data2[j..length2];
    ghost var done := out[..n];
    MergeHere(a, b);
    var c := Compare(data1[i].word, data2[j].word);
    if c == 0 {
      data1[i] := Entry(data1[i].word, data1[i].count + data2[j].count);
      j' := j + 1;
      assert data1[i..length1] == [data1[i]] + a[1..];
      assert data2[j'..length2] == b[1..];
    } else if c < 0 {
      out[n] := data1[i];
      n', i' := n + 1, i + 1;
      assert out[..n'] == done + [a[0]];
      assert data1[i'..length1] == a[1..];
      Assoc(done, a[0], Merge(a[1..], b));
    } else {
      out[n] := data2[j];
      n', j' := n + 1, j + 1;
      assert out[..n'] == done + [b[0]];
      assert data2[j'..length2] == b[1..];
      Assoc(done, b[0], Merge(a, b[1..]));
    }
  }

  lemma Assoc(a: seq<Entry>, e: Entry, b: seq<Entry>)
    ensures a + [e] + b == a + ([e] + b)
  {
  }

  /** merge_sections */
  method MergeSections(data1: array<Entry>, length1: nat, data2: array<Entry>, length2: nat)
    returns (out: array<Entry>, lengthOut: nat)
    requires data1 != data2 && length1 <= data1.Length && length2 <= data2.Length
    modifies data1
    ensures fresh(out) && lengthOut <= out.Length && out[..lengthOut] == Merge(old(data1[..length1]), old(data2[..length2]))
  {
    hide Merge;
    ghost var all := Merge(data1[..length1], data2[..length2]);
    out := new Entry[length1 + length2](i => Entry("", 0));
    lengthOut := 0;
    var curr1, curr2 := 0, 0;
    assert data1[0..length1] == data1[..length1] && data2[0..length2] == data2[..length2];
    assert out[..lengthOut] == [];
    while curr1 < length1 && curr2 < length2
      invariant curr1 <= length1 && curr2 <= length2 && lengthOut <= curr1 + curr2
      invariant out[..lengthOut] + Merge(data1[curr1..length1], data2[curr2..length2]) == all
      decreases length1 - curr1 + length2 - curr2
    {
      curr1, curr2, lengthOut := MergeStep(data1, data2, length1, length2, curr1, curr2, out, lengthOut);
    }
    MergeRest(data1[curr1..length1], data2[curr2..length2]);
    CopyRest(data1, curr1, length1, data2, curr2, length2, out, lengthOut);
    lengthOut := lengthOut + (length1 - curr1) + (length2 - curr2);
  }

  /** The two copies at the end of merge_sections go to the same place: one of them is empty. */
  method CopyRest(data1: array<Entry>, i: nat, length1: nat, data2: array<Entry>, j: nat, length2: nat, out: array<Entry>, n: nat)
    requires i <= length1 <= data1.Length && j <= length2 <= data2.Length && (i == length1 || j == length2)
    requires out != data1 && out != data2 && n + (length1 - i) + (length2 - j) <= out.Length
    modifies out
    ensures out[..n + (length1 - i) + (length2 - j)] == old(out[..n]) + (data1[i..length1] + data2[j..length2])
  {
    forall k | 0 <= k < length1 - i {
      out[n + k] := data1[i + k];
    }
    forall k | 0 <= k < length2 - j {
      out[n + k] := data2[j + k];
    }
  }

  /** One pair of tables, in arrays of their own. */
  method MergePair(a: seq<Entry>, b: seq<Entry>) returns (r: seq<Entry>)
    ensures r == Merge(a, b)
  {
    var data1 := new Entry[|a|](i requires 0 <= i < |a| => a[i]);
    var data2 := new Entry[|b|](i requires 0 <= i < |b| => b[i]);
    assert data1[..|a|] == a && data2[..|b|] == b;
    var out, n := MergeSections(data1, |a|, data2, |b|);
    r := out[..n];
  }

  /** The merging threads of one round; they only read the old tables. */
  method MergeNeighbours(words: array<seq<Entry>>, numThreads: nat) returns (mwords: array<seq<Entry>>)
    requires 2 * numThreads <= words.Length
    ensures fresh(mwords) && mwords.Length == numThreads
    ensures forall k | 0 <= k < numThreads :: mwords[k] == Merge(words[2 * k], words[2 * k + 1])
  {
    hide Merge;
    mwords := new seq<Entry>[numThreads](i => []);
    var i := 0;
    while i < numThreads
      invariant i <= numThreads
      invariant forall k | 0 <= k < i :: mwords[k] == Merge(words[2 * k], words[2 * k + 1])
    {
      mwords[i] := MergePair(words[i * 2], words[i * 2 + 1]);
      i := i + 1;
    }
  }

  /** After the barrier the merged tables and the odd one take the first places; the odd one
      is read from a place that no merged table has overwritten. */
  method TakeOver(words: array<seq<Entry>>, mwords: array<seq<Entry>>, numThreads: nat, remNum: nat)
    requires remNum <= 1 <= numThreads == mwords.Length && 2 * numThreads + remNum <= words.Length && words != mwords
    modifies words
    ensures forall k | 0 <= k < numThreads :: words[k] == mwords[k]
    ensures remNum == 1 ==> words[numThreads] == old(words[2 * numThreads])
  {
    var i := 0;
    while i < numThreads
      invariant i <= numThreads
      invariant forall k | 0 <= k < i :: words[k] == mwords[k]
      invariant forall k | numThreads <= k < words.Length :: words[k] == old(words[k])
    {
      words[i] := mwords[i];
      i := i + 1;
    }
    if remNum == 1 {
      words[numThreads] := words[numThreads * 2];
    }
  }

  lemma {:induction false} RoundIs(was: seq<seq<Entry>>, now: seq<seq<Entry>>, n: nat)
    requires 2 * n <= |was| <= 2 * n + 1 && |now| == |was| - n
    requires forall k | 0 <= k < n :: now[k] == Merge(was[2 * k], was[2 * k + 1])
    requires |was| == 2 * n + 1 ==> now[n] == was[2 * n]
    ensures now == Round(was)
  {
    hide Merge, Round;
    forall k | 0 <= k < |now| ensures now[k] == Round(was)[k] {
      RoundAt(was, k);
    }
  }

  /** One round of the tournament. */
  method PlayRound(words: array<seq<Entry>>, numThreads: nat, remNum: nat)
    requires remNum <= 1 <= numThreads && 2 * numThreads + remNum <= words.Length
    modifies words
    ensures words[..numThreads + remNum] == Round(old(words[..2 * numThreads + remNum]))
  {
    hide Merge, Round;
    ghost var was := words[..2 * numThreads + remNum];
    var mwords := MergeNeighbours(words, numThreads);
    TakeOver(words, mwords, numThreads, remNum);
    RoundIs(was, words[..numThreads + remNum], numThreads);
  }

  /** The merge loop of wordcount_splitter: one table is left, for any number of threads. */
  method MergeTables(words: array<seq<Entry>>)
    requires words.Length >= 1
    modifies words
    ensures words[0] == Tournament(old(words[..]))
  {
    hide Merge, Round;
    var numThreads: nat, remNum: nat := words.Length / 2, words.Length % 2;
    ghost var live := words[..2 * numThreads + remNum];
    assert live == words[..];
    while numThreads > 0
      invariant remNum <= 1 && 1 <= 2 * numThreads + remNum <= words.Length
      invariant live == words[..2 * numThreads + remNum] && Tournament(live) == old(Tournament(words[..]))
      decreases 2 * numThreads + remNum
    {
      PlayRound(words, numThreads, remNum);
      live := words[..numThreads + remNum];
      var oldNum := numThreads;
      numThreads := (numThreads + remNum) / 2;
      remNum := (oldNum + remNum) % 2;
      assert 2 * numThreads + remNum == |live|;
    }
    assert live == [words[0]];
  }

  /** The whole count.  The result is strictly sorted and maps every word of the covered text to
      its number of occurrences, for every text and number of threads.  The covered text ends
      where the last section belongs, before white space or at the end, and fewer than num_procs
      characters are left out; with a steady text it is one number. */
  method CountWords(data: array<char>, flen: nat, numProcs: nat) returns (result: seq<Entry>, covered: nat)
    requires 1 <= numProcs && flen < data.Length
    modifies data
    ensures covered <= flen < covered + numProcs
    ensures covered == flen || Space(old(data[covered]))
    ensures CanCover(old(data[..flen]), numProcs, covered)
    ensures Steady(old(data[..flen]), numProcs) ==> covered == CutPos(old(data[..flen]), flen / numProcs, numProcs)
    ensures Sorted(result)
    ensures forall w :: CountOf(result, w) == Occurrences(Words(old(data[..covered]), 0), w)
  {
    hide Sections, Terminated, TablesFor, Sorted, CountOf, Occurrences, TotalOf, Tournament, Tokens, Words, TableOf, CutsMade,
      Steady, CutPos;
    ghost var text := data[..flen];
    var cuts := CutSections(data, flen, numProcs);
    covered := cuts[numProcs];
    LastCut(text, cuts);
    assert CanCover(text, numProcs, covered);
    if Steady(text, numProcs) { CoverIs(text, numProcs, covered); }
    var tables := MapSections(data, text, cuts);
    var words := new seq<Entry>[numProcs](i requires 0 <= i < numProcs => tables[i]);
    assert words[..] == tables;
    MergeTables(words);
    result := words[0];
    assert text[..covered] == old(data[..covered]);
    TablesCount(text, cuts, tables, "");
    TournamentKeeps(tables, "");
    TokensAreWords(text[..covered]);
    forall w ensures CountOf(result, w) == Occurrences(Words(text[..covered], 0), w) {
      TablesCount(text, cuts, tables, w);
      TournamentKeeps(tables, w);
    }
  }

  lemma LastCut(text: string, cuts: seq<nat>)
    requires Sections(text, cuts) && |cuts| >= 2
    ensures var last := cuts[|cuts| - 1]; last <= |text| && (last == |text| || Space(text[last]))
  {
    assert CutAt(text, cuts, |cuts| - 2);
  }

  /** A table that is sorted and counts right is unique: there is one right answer. */
  lemma {:induction false} AnswerIsUnique(a: seq<Entry>, b: seq<Entry>)
    requires Sorted(a) && Sorted(b) && forall w :: CountOf(a, w) == CountOf(b, w)
    ensures a == b
  {
    if a == [] || b == [] {
      if a != [] { HeadCounts(a); }
      if b != [] { HeadCounts(b); }
    } else {
      FirstWord(a, b);
      FirstWord(b, a);
      CompareFlips(a[0].word, b[0].word);
      CompareEqual(a[0].word, b[0].word);
      SortedTail(a);
      SortedTail(b);
      NotInTail(a, a[0].word);
      NotInTail(b, b[0].word);
      forall w ensures CountOf(a[1..], w) == CountOf(b[1..], w) {
        assert CountOf(a, w) == CountOf(b, w);
      }
      assert CountOf(a, a[0].word) == CountOf(b, a[0].word);
      AnswerIsUnique(a[1..], b[1..]);
      assert a == [a[0]] + a[1..] && b == [b[0]] + b[1..];
    }
  }

  lemma {:induction false} NotAbove(t: seq<Entry>, w: string)
    requires Above(t, w)
    ensures CountOf(t, w) == 0
  {
    if t != [] {
      CompareEqual(w, t[0].word);
      NotAbove(t[1..], w);
    }
  }

  lemma NotInTail(t: seq<Entry>, w: string)
    requires t != [] && Sorted(t) && w == t[0].word
    ensures CountOf(t[1..], w) == 0
  {
    SortedTail(t);
    NotAbove(t[1..], w);
  }

  /** b's first word does not come before a's. */
  lemma FirstWord(a: seq<Entry>, b: seq<Entry>)
    requires Sorted(a) && Sorted(b) && a != [] && b != [] && CountOf(a, b[0].word) == CountOf(b, b[0].word)
    ensures Compare(b[0].word, a[0].word) >= 0
  {
    HeadCounts(b);
    if Compare(b[0].word, a[0].word) < 0 {
      AboveCons(a, b[0].word);
      NotAbove(a, b[0].word);
    }
  }

  lemma HeadCounts(t: seq<Entry>)
    requires Sorted(t) && t != []
    ensures CountOf(t, t[0].word) >= 1
  {
  }
}
