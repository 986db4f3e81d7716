/** Word count under every interleaving: the splitter and the threads it has started share
    one text, and a step is one character read and written by one of them. */
module WordThreads {
  import opened WordSpec
  import opened CountSpec
  import opened CutSpec
  import opened WordCount

  /** An entry of a table: where its word stands in the text, and how often it was read. */
  datatype Slot = Slot(pos: nat, count: nat)

  /** A thread of wordcount_map: its section, how far it is, and its table. */
  datatype Thread = Thread(start: nat, length: nat, i: nat, currStart: nat, inWord: bool, done: bool, table: seq<Slot>)

  /** `fpos` is where the splitter looks for the next cut. */
  datatype State = State(data: seq<char>, cuts: seq<nat>, fpos: nat, threads: seq<Thread>)

  /** Length of the text, number of threads, and the length asked for each section. */
  datatype Job = Job(flen: nat, procs: nat, req: nat)

  datatype Step = Advance | Cut | Read(k: nat) | End(k: nat)

  /** The C string at a position. */
  function StringFrom(data: seq<char>, p: nat): string
    decreases |data| - p
  {
    if p >= |data| || data[p] == '\0' then [] else [data[p]] + StringFrom(data, p + 1)
  }

  /** The words and counts that a table stands for, as the text is now. */
  function Deref(data: seq<char>, table: seq<Slot>): (r: seq<Entry>)
    ensures |r| == |table| && forall k | 0 <= k < |r| :: r[k] == Entry(StringFrom(data, table[k].pos), table[k].count)
  {
    seq(|table|, k requires 0 <= k < |table| => Entry(StringFrom(data, table[k].pos), table[k].count))
  }

  /** wordcount_reduce: the word at p is compared with those at the entries' positions. */
  function SlotsAdded(data: seq<char>, table: seq<Slot>, p: nat): seq<Slot> {
    if table == [] then [Slot(p, 1)]
    else
      var c := Compare(StringFrom(data, p), StringFrom(data, table[0].pos));
      if c == 0 then [Slot(table[0].pos, table[0].count + 1)] + table[1..]
      else if c < 0 then [Slot(p, 1)] + table
      else [table[0]] + SlotsAdded(data, table[1..], p)
  }

  function Clip(job: Job, p: nat): nat {
    if p < job.flen then p else job.flen
  }

  function Init(job: Job, data: seq<char>): State {
    State(data, [0], Clip(job, job.req), [])
  }

  predicate AtCut(job: Job, st: State) {
    st.fpos < |st.data| && (st.fpos >= job.flen || Space(st.data[st.fpos]))
  }

  predicate Enabled(job: Job, st: State, step: Step) {
    match step
    case Advance => |st.threads| < job.procs && st.fpos < job.flen < |st.data| && !AtCut(job, st)
    case Cut => |st.threads| < job.procs && AtCut(job, st) && st.cuts != [] && st.cuts[|st.cuts| - 1] <= st.fpos
    case Read(k) =>
      k < |st.threads| && st.threads[k].i < st.threads[k].length && st.threads[k].start + st.threads[k].i < |st.data|
    case End(k) =>
      && k < |st.threads| && st.threads[k].i == st.threads[k].length && !st.threads[k].done
      && st.threads[k].start + st.threads[k].length < |st.data|
  }

  /** The body of the loop of wordcount_map. */
  function ReadChar(data: seq<char>, t: Thread): (seq<char>, Thread)
    requires t.start + t.i < |data|
  {
    var p := t.start + t.i;
    var c := Upper(data[p]);
    var next := t.(i := t.i + 1);
    if t.inWord then
      if !('A' <= c <= 'Z') && c != '\'' then
        (data[p := '\0'], next.(inWord := false, table := SlotsAdded(data[p := '\0'], t.table, t.currStart)))
      else (data[p := c], next)
    else if 'A' <= c <= 'Z' then (data[p := c], next.(inWord := true, currStart := p))
    else (data, next)
  }

  /** What wordcount_map does after its loop. */
  function EndThread(data: seq<char>, t: Thread): (seq<char>, Thread)
    requires t.start + t.length < |data|
  {
    if t.inWord then
      var ended := data[t.start + t.length := '\0'];
      (ended, t.(done := true, table := SlotsAdded(ended, t.table, t.currStart)))
    else (data, t.(done := true))
  }

  function Do(job: Job, st: State, step: Step): State
    requires Enabled(job, st, step)
  {
    match step
    case Advance => st.(fpos := st.fpos + 1)
    case Cut =>
      var start := st.cuts[|st.cuts| - 1];
      st.(cuts := st.cuts + [st.fpos], fpos := Clip(job, st.fpos + job.req),
          threads := st.threads + [Thread(start, st.fpos - start, 0, start, false, false, [])])
    case Read(k) =>
      var (data, t) := ReadChar(st.data, st.threads[k]);
      st.(data := data, threads := st.threads[k := t])
    case End(k) =>
      var (data, t) := EndThread(st.data, st.threads[k]);
      st.(data := data, threads := st.threads[k := t])
  }

  // ------------------------------------------------------------- invariant

  /** A position of the text nobody has edited, but for a terminator over white space. */
  predicate Spared(data: seq<char>, text: string, p: nat) {
    p < |text| < |data| && (data[p] == text[p] || (data[p] == '\0' && Space(text[p])))
  }

  predicate Same(data: seq<char>, text: string, p: nat) {
    p < |text| < |data| && data[p] == text[p]
  }

  predicate SplitterOk(job: Job, text: string, st: State) {
    && |text| == job.flen < |st.data| && |st.cuts| == |st.threads| + 1 && |st.threads| <= job.procs
    && var last := st.cuts[|st.cuts| - 1];
       && last <= st.fpos <= job.flen
       && (st.fpos >= last + job.req || st.fpos == job.flen)
       && (forall p | last < p < job.flen :: Same(st.data, text, p))
       && (last < job.flen ==> Spared(st.data, text, last))
       && Searched(job, text, st)
  }

  /** What the splitter has passed since the last cut is no white space, but for one at the cut
      that a thread had overwritten. */
  predicate Searched(job: Job, text: string, st: State)
    requires st.cuts != [] && |text| < |st.data|
  {
    var last := st.cuts[|st.cuts| - 1];
    && (forall q | last < q < st.fpos && q < |text| && Asked(text, last, job.req) <= q :: !Space(text[q]))
    && (Asked(text, last, job.req) == last < st.fpos && last < |text| ==> !Space(text[last]) || Overwritten(text, st.cuts, last))
    && (last < |text| && st.data[last] != text[last] ==> Overwritten(text, st.cuts, last))
  }

  /** The word being read is in place; its first letter is one of the text's letters. */
  predicate WordInPlace(data: seq<char>, text: string, t: Thread, current: string) {
    && t.start <= t.currStart && t.currStart + |current| == t.start + t.i <= |data|
    && t.currStart < |text| && Letter(text[t.currStart])
    && forall p | t.currStart <= p < t.start + t.i :: data[p] == current[p - t.currStart]
  }

  /** Every entry's word begins at a letter of the section and is closed behind what was read. */
  predicate Closed(data: seq<char>, text: string, t: Thread, p: nat) {
    && t.start <= p < |text| && Letter(text[p])
    && p + |StringFrom(data, p)| < t.start + t.i + if t.done then 1 else 0
  }

  predicate ThreadOk(data: seq<char>, text: string, t: Thread) {
    && t.i <= t.length && t.start + t.length <= |text| < |data|
    && var lex := LexOf(text[t.start..t.start + t.i]);
       && (t.done ==> t.i == t.length && Deref(data, t.table) == TableOf(Finish(lex)))
       && (!t.done ==> Deref(data, t.table) == TableOf(lex.words) && (t.inWord <==> lex.current != ""))
       && (!t.done && t.inWord ==> WordInPlace(data, text, t, lex.current))
       && (t.i == 0 && t.length > 0 ==> Spared(data, text, t.start))
       && (forall k | 0 <= k < |t.table| :: Closed(data, text, t, t.table[k].pos))
       && (forall p | t.start + t.i <= p < t.start + t.length && t.start < p :: Same(data, text, p))
  }

  predicate ThreadAt(text: string, st: State, k: nat)
    requires k < |st.threads| && |st.cuts| == |st.threads| + 1
  {
    && st.threads[k].start == st.cuts[k] && st.threads[k].start + st.threads[k].length == st.cuts[k + 1]
    && ThreadOk(st.data, text, st.threads[k])
  }

  ghost predicate Inv(job: Job, text: string, st: State) {
    && SplitterOk(job, text, st) && Sections(text, st.cuts) && CutsMade(text, job.req, st.cuts)
    && forall k | 0 <= k < |st.threads| :: ThreadAt(text, st, k)
  }

  // -------------------------------------------------------- one thread's step

  lemma {:induction false} ReadString(data: seq<char>, p: nat, w: string)
    requires StringAt(data, p, w)
    ensures StringFrom(data, p) == w
    decreases |w|
  {
    if w != "" {
      ReadString(data, p + 1, w[1..]);
      assert w == [w[0]] + w[1..];
    }
  }

  /** A string depends only on its own characters and the one that ends it. */
  lemma {:induction false} StringKept(data: seq<char>, after: seq<char>, p: nat)
    requires |after| == |data| && p + |StringFrom(data, p)| < |data|
    requires forall q | p <= q <= p + |StringFrom(data, p)| :: after[q] == data[q]
    ensures StringFrom(after, p) == StringFrom(data, p)
    decreases |data| - p
  {
    if data[p] != '\0' {
      StringKept(data, after, p + 1);
    }
  }

  /** Adding by position does to the words what adding by word does. */
  lemma {:induction false} DerefAdded(data: seq<char>, table: seq<Slot>, p: nat)
    ensures Deref(data, SlotsAdded(data, table, p)) == Added(Deref(data, table), StringFrom(data, p))
  {
    hide StringFrom, Compare;
    if table != [] {
      assert Deref(data, table)[1..] == Deref(data, table[1..]);
      DerefAdded(data, table[1..], p);
    }
  }

  /** Its positions are those there were and the new one. */
  lemma {:induction false} AddedPositions(data: seq<char>, table: seq<Slot>, p: nat, k: nat)
    requires k < |SlotsAdded(data, table, p)|
    ensures var q := SlotsAdded(data, table, p)[k].pos; q == p || exists j :: 0 <= j < |table| && table[j].pos == q
  {
    hide StringFrom, Compare;
    if table != [] && k > 0 {
      var c := Compare(StringFrom(data, p), StringFrom(data, table[0].pos));
      if c < 0 {
        assert SlotsAdded(data, table, p)[k] == table[k - 1];
      } else if c == 0 {
        assert SlotsAdded(data, table, p)[k] == table[k];
      } else {
        AddedPositions(data, table[1..], p, k - 1);
      }
    } else if table != [] {
      assert SlotsAdded(data, table, p)[0].pos == p || SlotsAdded(data, table, p)[0].pos == table[0].pos;
    }
  }

  /** The words of a thread's table are not touched by an edit outside what it has closed. */
  lemma WordsKept(data: seq<char>, after: seq<char>, text: string, t: Thread)
    requires ThreadOk(data, text, t) && |after| == |data|
    requires forall p, q | 0 <= p < |text| && Closed(data, text, t, p) && p <= q <= p + |StringFrom(data, p)| :: after[q] == data[q]
    ensures Deref(after, t.table) == Deref(data, t.table)
    ensures forall k | 0 <= k < |t.table| :: Closed(after, text, t, t.table[k].pos)
  {
    hide LexOf, TableOf, StringFrom, WordInPlace, Spared, Same;
    forall k | 0 <= k < |t.table|
      ensures StringFrom(after, t.table[k].pos) == StringFrom(data, t.table[k].pos) && Closed(after, text, t, t.table[k].pos)
    {
      assert Closed(data, text, t, t.table[k].pos);
      StringKept(data, after, t.table[k].pos);
    }
  }

  lemma TableNext(ws: seq<string>, w: string)
    ensures TableOf(ws + [w]) == Added(TableOf(ws), w)
  {
    assert (ws + [w])[..|ws|] == ws;
  }

  /** The word in place, closed by a terminator, is the C string the table gets. */
  lemma WordRead(data: seq<char>, text: string, t: Thread, current: string)
    requires WordInPlace(data, text, t, current) && Plain(current) && t.start + t.i < |data|
    ensures StringFrom(data[t.start + t.i := '\0'], t.currStart) == current
  {
    ReadString(data[t.start + t.i := '\0'], t.currStart, current);
  }

  /** Characters that may stand at a thread's position in place of the text's are no word's. */
  lemma SameEat(data: seq<char>, text: string, t: Thread, lex: Lex)
    requires ThreadOk(data, text, t) && t.i < t.length && lex == LexOf(text[t.start..t.start + t.i])
    ensures Eat(lex, data[t.start + t.i]) == Eat(lex, text[t.start + t.i])
  {
    hide TableOf;
    if t.i == 0 {
      assert text[t.start..t.start] == "";
    } else {
      assert Same(data, text, t.start + t.i);
    }
  }

  lemma LexGrows(text: string, start: nat, i: nat)
    requires start + i < |text|
    ensures LexOf(text[start..start + i + 1]) == Eat(LexOf(text[start..start + i]), text[start + i])
  {
    var t := text[start..];
    LexStep(t, i);
    assert t[..i + 1] == text[start..start + i + 1] && t[..i] == text[start..start + i];
  }

  /** A thread's own step edits only behind the words of its table. */
  lemma OwnEditKeepsWords(data: seq<char>, after: seq<char>, text: string, t: Thread)
    requires ThreadOk(data, text, t) && |after| == |data| && !t.done
    requires forall q | 0 <= q < |data| && q != t.start + t.i :: after[q] == data[q]
    ensures Deref(after, t.table) == Deref(data, t.table)
    ensures forall k | 0 <= k < |t.table| :: Closed(after, text, t, t.table[k].pos)
  {
    hide LexOf, TableOf, StringFrom, WordInPlace, Spared, Same, Deref;
    WordsKept(data, after, text, t);
  }

  /** Closing a word adds it to the table. */
  lemma WordAdded(data: seq<char>, text: string, t: Thread, t': Thread, current: string)
    requires ThreadOk(data, text, t) && !t.done && WordInPlace(data, text, t, current) && Plain(current)
    requires t.start + t.i < |data|
    requires var closed := data[t.start + t.i := '\0'];
             t' == t.(i := t'.i, inWord := t'.inWord, done := t'.done, table := SlotsAdded(closed, t.table, t.currStart))
             && (t'.i == t.i + 1 || (t'.i == t.i && t'.done))
    ensures var closed := data[t.start + t.i := '\0'];
            && Deref(closed, t'.table) == Added(Deref(data, t.table), current)
            && forall k | 0 <= k < |t'.table| :: Closed(closed, text, t', t'.table[k].pos)
  {
    hide LexOf, TableOf, StringFrom, Plain, Added, Deref, SlotsAdded, Spared, Same;
    var closed := data[t.start + t.i := '\0'];
    WordRead(data, text, t, current);
    OwnEditKeepsWords(data, closed, text, t);
    DerefAdded(closed, t.table, t.currStart);
    forall k | 0 <= k < |t'.table| ensures Closed(closed, text, t', t'.table[k].pos) {
      AddedPositions(closed, t.table, t.currStart, k);
    }
  }

  lemma ReadKeepsThread(data: seq<char>, text: string, t: Thread)
    requires ThreadOk(data, text, t) && t.i < t.length
    ensures var (data', t') := ReadChar(data, t);
            && ThreadOk(data', text, t') && t'.start == t.start && t'.length == t.length
            && |data'| == |data| && forall q | 0 <= q < |data| && q != t.start + t.i :: data'[q] == data[q]
    ensures t.i == 0 && data[t.start] == '\0' ==> ReadChar(data, t).0 == data
  {
    hide LexOf, TableOf, StringFrom, Plain, Added, SlotsAdded, Deref;
    var lex := LexOf(text[t.start..t.start + t.i]);
    var p := t.start + t.i;
    SameEat(data, text, t, lex);
    LexGrows(text, t.start, t.i);
    CurrentIsPlain(text[t.start..p]);
    var (data', t') := ReadChar(data, t);
    OwnEditKeepsWords(data, data', text, t);
    if t.inWord {
      TableNext(lex.words, lex.current);
      assert Same(data, text, p);
      if !WordChar(data[p]) {
        WordAdded(data, text, t, t', lex.current);
      }
    } else {
      assert t.i > 0 ==> Same(data, text, p);
    }
    RestSame(data, data', text, t);
    NoWordInNothing(text, t.start);
  }

  /** What is still unread stays as it was. */
  lemma RestSame(data: seq<char>, after: seq<char>, text: string, t: Thread)
    requires ThreadOk(data, text, t) && |after| == |data|
    requires forall q | 0 <= q < |data| && q != t.start + t.i :: after[q] == data[q]
    ensures forall q | t.start + t.i + 1 <= q < t.start + t.length :: Same(after, text, q)
  {
    hide LexOf, TableOf, WordInPlace, Spared;
    forall q | t.start + t.i + 1 <= q < t.start + t.length ensures Same(after, text, q) {
      assert Same(data, text, q);
    }
  }

  lemma EndKeepsThread(data: seq<char>, text: string, t: Thread)
    requires ThreadOk(data, text, t) && t.i == t.length && !t.done
    ensures var (data', t') := EndThread(data, t);
            && ThreadOk(data', text, t') && t'.start == t.start && t'.length == t.length
            && |data'| == |data| && forall q | 0 <= q < |data| && q != t.start + t.length :: data'[q] == data[q]
    ensures var data' := EndThread(data, t).0;
            data' == data || (EndsInWord(text, t.start, t.start + t.length) && data'[t.start + t.length] == '\0')
  {
    hide LexOf, TableOf, StringFrom, Plain, Added, SlotsAdded, Deref;
    var lex := LexOf(text[t.start..t.start + t.i]);
    CurrentIsPlain(text[t.start..t.start + t.i]);
    var (data', t') := EndThread(data, t);
    OwnEditKeepsWords(data, data', text, t);
    if t.inWord {
      WordAdded(data, text, t, t', lex.current);
      TableNext(lex.words, lex.current);
      NoWordInNothing(text, t.start);
    }
  }

  lemma NoWordInNothing(text: string, p: nat)
    requires p <= |text|
    ensures LexOf(text[p..p]) == Lex([], "")
  {
    assert text[p..p] == "";
  }

  // --------------------------------------------------- the others meanwhile

  /** One edit in section k, or a terminator at its end. */
  predicate EditIn(text: string, data: seq<char>, after: seq<char>, lo: nat, hi: nat) {
    && |after| == |data| > |text| && lo <= hi <= |text|
    && (forall q | 0 <= q < |data| && !(lo <= q <= hi) :: after[q] == data[q])
    && (data[lo] == '\0' ==> after[lo] == '\0')
    && (after[hi] == data[hi] || (EndsInWord(text, lo, hi) && after[hi] == '\0' && (hi < |text| ==> Space(text[hi]))))
  }

  lemma OutsideKeepsWords(text: string, data: seq<char>, after: seq<char>, lo: nat, hi: nat, t: Thread)
    requires ThreadOk(data, text, t) && EditIn(text, data, after, lo, hi)
    requires t.start + t.length <= lo || hi <= t.start
    ensures Deref(after, t.table) == Deref(data, t.table)
    ensures forall k | 0 <= k < |t.table| :: Closed(after, text, t, t.table[k].pos)
  {
    hide LexOf, TableOf, Deref, WordInPlace, Spared, Same;
    forall p, q | 0 <= p < |text| && Closed(data, text, t, p) && p <= q <= p + |StringFrom(data, p)|
      ensures after[q] == data[q]
    {
      StringEnds(data, p);
    }
    WordsKept(data, after, text, t);
  }

  lemma {:induction false} StringEnds(data: seq<char>, p: nat)
    ensures var n := p + |StringFrom(data, p)|; n < |data| ==> data[n] == '\0'
    decreases |data| - p
  {
    if p < |data| && data[p] != '\0' {
      StringEnds(data, p + 1);
    }
  }

  lemma OutsideKeepsRest(text: string, data: seq<char>, after: seq<char>, lo: nat, hi: nat, t: Thread)
    requires ThreadOk(data, text, t) && EditIn(text, data, after, lo, hi)
    requires t.start + t.length <= lo || hi <= t.start
    ensures t.i == 0 && t.length > 0 ==> Spared(after, text, t.start)
    ensures forall p | t.start + t.i <= p < t.start + t.length && t.start < p :: Same(after, text, p)
  {
    hide LexOf, TableOf, StringFrom, Deref, Closed, WordInPlace;
    forall p | t.start + t.i <= p < t.start + t.length && t.start < p ensures Same(after, text, p) {
      assert Same(data, text, p);
    }
  }

  lemma OutsideKeepsWord(text: string, data: seq<char>, after: seq<char>, lo: nat, hi: nat, t: Thread, current: string)
    requires WordInPlace(data, text, t, current) && EditIn(text, data, after, lo, hi)
    requires t.start + t.i <= lo || hi <= t.start
    ensures WordInPlace(after, text, t, current)
  {
  }

  /** An edit in one section leaves the threads of the others where they were. */
  lemma OthersKept(text: string, data: seq<char>, after: seq<char>, lo: nat, hi: nat, t: Thread)
    requires ThreadOk(data, text, t) && EditIn(text, data, after, lo, hi)
    requires t.start + t.length <= lo || hi <= t.start
    requires lo == hi ==> after == data
    ensures ThreadOk(after, text, t) && Deref(after, t.table) == Deref(data, t.table)
  {
    hide LexOf, TableOf, StringFrom, Deref, Closed, WordInPlace, Same, Spared;
    OutsideKeepsWords(text, data, after, lo, hi, t);
    OutsideKeepsRest(text, data, after, lo, hi, t);
    var lex := LexOf(text[t.start..t.start + t.i]);
    if !t.done && t.inWord {
      OutsideKeepsWord(text, data, after, lo, hi, t, lex.current);
    }
  }

  // ------------------------------------------------- every step keeps Inv

  lemma InitOk(job: Job, text: string, data: seq<char>)
    requires |text| == job.flen < |data| && data[..job.flen] == text
    ensures Inv(job, text, Init(job, data))
  {
    hide Sections, CutsMade;
    OneCut(data, text, job.req);
    forall p | 0 <= p < job.flen ensures data[p] == text[p] {
      assert data[..job.flen][p] == text[p];
    }
  }

  lemma AdvanceOk(job: Job, text: string, st: State)
    requires Inv(job, text, st) && Enabled(job, st, Advance)
    ensures Inv(job, text, Do(job, st, Advance))
  {
    hide Sections, ThreadOk, CutsMade, Overwritten;
    var st' := Do(job, st, Advance);
    assert Searched(job, text, st') by {
      var last := st.cuts[|st.cuts| - 1];
      if last < st.fpos { assert Same(st.data, text, st.fpos); }
    }
    forall k | 0 <= k < |st'.threads| ensures ThreadAt(text, st', k) {
      assert ThreadAt(text, st, k);
    }
  }

  /** The character at a cut is white space of the text itself. */
  lemma CutIsSpace(job: Job, text: string, st: State)
    requires SplitterOk(job, text, st) && AtCut(job, st)
    ensures st.fpos < job.flen ==> Space(text[st.fpos])
  {
    var last := st.cuts[|st.cuts| - 1];
    if last < st.fpos < job.flen {
      assert Same(st.data, text, st.fpos);
    }
  }

  /** A new thread finds its section untouched, but perhaps for a terminator at the cut. */
  lemma NewThreadOk(job: Job, text: string, st: State)
    requires SplitterOk(job, text, st)
    ensures var last := st.cuts[|st.cuts| - 1];
            ThreadOk(st.data, text, Thread(last, st.fpos - last, 0, last, false, false, []))
  {
    hide LexOf, TableOf;
    var last := st.cuts[|st.cuts| - 1];
    NoWordInNothing(text, last);
    EmptyTable();
    forall p | last <= p < st.fpos && last < p ensures Same(st.data, text, p) {
    }
  }

  lemma CutSplitterOk(job: Job, text: string, st: State)
    requires SplitterOk(job, text, st) && Enabled(job, st, Cut)
    ensures SplitterOk(job, text, Do(job, st, Cut))
  {
    var last := st.cuts[|st.cuts| - 1];
    var st' := Do(job, st, Cut);
    hide Overwritten, Space;
    forall p | st.fpos < p < job.flen ensures Same(st'.data, text, p) {
      assert Same(st.data, text, p);
    }
    if last < st.fpos < job.flen {
      assert Same(st.data, text, st.fpos);
    } else if st.fpos == last && last < job.flen && st.data[last] != text[last] {
      OverwrittenMore(text, st.cuts, last, st.fpos);
    }
  }

  /** The cut belongs where it is made. */
  lemma CutBelongs(job: Job, text: string, st: State)
    requires SplitterOk(job, text, st) && AtCut(job, st)
    ensures CutMade(text, job.req, st.cuts + [st.fpos], |st.cuts| - 1)
  {
    CutIsSpace(job, text, st);
    hide Overwritten, Space, Same, Spared;
    var last := st.cuts[|st.cuts| - 1];
    var from := Asked(text, last, job.req);
    if from == last < st.fpos && last < |text| && Space(text[last]) {
      OverwrittenMore(text, st.cuts, last, st.fpos);
      SectionEndIs(text, last + 1, st.fpos);
    } else {
      SectionEndIs(text, from, st.fpos);
    }
  }

  lemma CutOk(job: Job, text: string, st: State)
    requires Inv(job, text, st) && Enabled(job, st, Cut)
    ensures Inv(job, text, Do(job, st, Cut))
  {
    CutIsSpace(job, text, st);
    CutSplitterOk(job, text, st);
    NewThreadOk(job, text, st);
    SectionAppend(text, st.cuts, st.fpos);
    CutBelongs(job, text, st);
    CutsMadeMore(text, job.req, st.cuts, st.fpos);
    hide Sections, ThreadOk, Same, Spared, CutsMade, SplitterOk;
    var st' := Do(job, st, Cut);
    forall k | 0 <= k < |st'.threads| ensures ThreadAt(text, st', k) {
      if k < |st.threads| { assert ThreadAt(text, st, k); }
    }
  }

  /** A thread's edit lies in its section, or is the terminator at the cut behind it. */
  lemma EditFits(job: Job, text: string, st: State, k: nat, after: seq<char>)
    requires Inv(job, text, st) && k < |st.threads| && |after| == |st.data|
    requires st.threads[k].start + st.threads[k].length < |st.data|
    requires var t := st.threads[k];
             || (t.i < t.length && (t.i == 0 && st.data[t.start] == '\0' ==> after == st.data)
                 && forall q | 0 <= q < |after| && q != t.start + t.i :: after[q] == st.data[q])
             || ((after == st.data || (EndsInWord(text, t.start, t.start + t.length) && after[t.start + t.length] == '\0'))
                 && forall q | 0 <= q < |after| && q != t.start + t.length :: after[q] == st.data[q])
    ensures EditIn(text, st.data, after, st.cuts[k], st.cuts[k + 1]) && (st.cuts[k] == st.cuts[k + 1] ==> after == st.data)
  {
    hide ThreadOk, Sections;
    assert ThreadAt(text, st, k);
    assert CutAt(text, st.cuts, k) by { CutHolds(text, st.cuts, k); }
  }

  lemma CutHolds(text: string, cuts: seq<nat>, k: nat)
    requires Sections(text, cuts) && k + 1 < |cuts|
    ensures CutAt(text, cuts, k)
  {
  }

  /** The splitter reads only behind the last cut. */
  lemma SplitterKept(job: Job, text: string, st: State, k: nat, t: Thread, after: seq<char>)
    requires Inv(job, text, st) && k < |st.threads| && EditIn(text, st.data, after, st.cuts[k], st.cuts[k + 1])
    ensures SplitterOk(job, text, st.(data := after, threads := st.threads[k := t]))
  {
    hide ThreadAt, Sections;
    CutsGrow(text, st.cuts, k + 1, |st.cuts| - 1);
    forall p | st.cuts[|st.cuts| - 1] < p < job.flen ensures Same(after, text, p) {
      assert Same(st.data, text, p);
    }
  }

  lemma EditOk(job: Job, text: string, st: State, k: nat, t: Thread, after: seq<char>)
    requires Inv(job, text, st) && k < |st.threads|
    requires EditIn(text, st.data, after, st.cuts[k], st.cuts[k + 1]) && (st.cuts[k] == st.cuts[k + 1] ==> after == st.data)
    requires ThreadOk(after, text, t) && t.start == st.threads[k].start && t.length == st.threads[k].length
    ensures Inv(job, text, st.(data := after, threads := st.threads[k := t]))
  {
    hide ThreadOk, Sections, EditIn, SplitterOk, CutsMade;
    SplitterKept(job, text, st, k, t, after);
    var st' := st.(data := after, threads := st.threads[k := t]);
    assert |st.cuts| == |st.threads| + 1 by { CutCount(job, text, st); }
    forall j | 0 <= j < |st'.threads| ensures ThreadAt(text, st', j) {
      assert ThreadAt(text, st, j);
      if j != k {
        if j < k { CutsGrow(text, st.cuts, j + 1, k); } else { CutsGrow(text, st.cuts, k + 1, j); }
        OthersKept(text, st.data, after, st.cuts[k], st.cuts[k + 1], st.threads[j]);
      }
    }
  }

  lemma CutCount(job: Job, text: string, st: State)
    requires SplitterOk(job, text, st)
    ensures |st.cuts| == |st.threads| + 1
  {
  }

  lemma StepKeepsInv(job: Job, text: string, st: State, step: Step)
    requires Inv(job, text, st) && Enabled(job, st, step)
    ensures Inv(job, text, Do(job, st, step))
  {
    hide Sections, ThreadOk, SplitterOk, EditIn, ReadChar, EndThread;
    CutCount(job, text, st);
    match step
    case Advance => AdvanceOk(job, text, st);
    case Cut => CutOk(job, text, st);
    case Read(k) =>
      var t := st.threads[k];
      assert ThreadAt(text, st, k);
      InText(st.data, text, t);
      ReadKeepsThread(st.data, text, t);
      EditFits(job, text, st, k, ReadChar(st.data, t).0);
      EditOk(job, text, st, k, ReadChar(st.data, t).1, ReadChar(st.data, t).0);
    case End(k) =>
      var t := st.threads[k];
      assert ThreadAt(text, st, k);
      EndKeepsThread(st.data, text, t);
      EditFits(job, text, st, k, EndThread(st.data, t).0);
      EditOk(job, text, st, k, EndThread(st.data, t).1, EndThread(st.data, t).0);
  }

  lemma InText(data: seq<char>, text: string, t: Thread)
    requires ThreadOk(data, text, t)
    ensures t.start + t.length <= |text| < |data|
  {
    hide LexOf, TableOf;
  }

  /** A word once counted is never edited again: whoever takes a step, the strings at the
      positions in every thread's table stay what they are. */
  lemma CountedWordsStay(job: Job, text: string, st: State, step: Step, k: nat, i: nat)
    requires Inv(job, text, st) && Enabled(job, st, step) && k < |st.threads| && i < |st.threads[k].table|
    ensures var p := st.threads[k].table[i].pos; StringFrom(Do(job, st, step).data, p) == StringFrom(st.data, p)
  {
    hide Sections, ThreadOk, SplitterOk, EditIn, ReadChar, EndThread, StringFrom;
    CutCount(job, text, st);
    assert ThreadAt(text, st, k);
    if step.Read? || step.End? {
      var j := step.k;
      var t := st.threads[j];
      assert ThreadAt(text, st, j);
      InText(st.data, text, t);
      if step.Read? { ReadKeepsThread(st.data, text, t); } else { EndKeepsThread(st.data, text, t); }
      var after := Do(job, st, step).data;
      if j == k {
        DoneAtEnd(st.data, text, t);
        OwnEditKeepsWords(st.data, after, text, t);
      } else {
        EditFits(job, text, st, j, after);
        if k < j { CutsGrow(text, st.cuts, k + 1, j); } else { CutsGrow(text, st.cuts, j + 1, k); }
        OthersKept(text, st.data, after, st.cuts[j], st.cuts[j + 1], st.threads[k]);
      }
      assert Deref(after, st.threads[k].table)[i] == Deref(st.data, st.threads[k].table)[i];
    }
  }

  lemma DoneAtEnd(data: seq<char>, text: string, t: Thread)
    requires ThreadOk(data, text, t)
    ensures t.done ==> t.i == t.length
  {
    hide LexOf, TableOf, StringFrom;
  }

  // ------------------------------------------------------------ whole runs

  predicate Legal(job: Job, st: State, steps: seq<Step>)
    decreases |steps|
  {
    steps == [] || (Enabled(job, st, steps[0]) && Legal(job, Do(job, st, steps[0]), steps[1..]))
  }

  function Run(job: Job, st: State, steps: seq<Step>): State
    requires Legal(job, st, steps)
    decreases |steps|
  {
    if steps == [] then st else Run(job, Do(job, st, steps[0]), steps[1..])
  }

  lemma {:induction false} RunKeepsInv(job: Job, text: string, st: State, steps: seq<Step>)
    requires Inv(job, text, st) && Legal(job, st, steps)
    ensures Inv(job, text, Run(job, st, steps))
    decreases |steps|
  {
    hide Inv, Enabled, Do;
    if steps != [] {
      StepKeepsInv(job, text, st, steps[0]);
      RunKeepsInv(job, text, Do(job, st, steps[0]), steps[1..]);
    }
  }

  /** All sections cut and all threads through. */
  predicate Finished(job: Job, st: State) {
    |st.threads| == job.procs && forall k | 0 <= k < |st.threads| :: st.threads[k].done
  }

  /** As long as that is not so, somebody can go on. */
  lemma SomebodyGoesOn(job: Job, text: string, st: State) returns (step: Step)
    requires Inv(job, text, st) && !Finished(job, st)
    ensures Enabled(job, st, step)
  {
    hide Sections, ThreadOk, Same, Spared;
    if |st.threads| < job.procs {
      step := if AtCut(job, st) then Cut else Advance;
    } else {
      var k :| 0 <= k < |st.threads| && !st.threads[k].done;
      assert ThreadAt(text, st, k);
      InText(st.data, text, st.threads[k]);
      ProgressBound(st.data, text, st.threads[k]);
      step := if st.threads[k].i < st.threads[k].length then Read(k) else End(k);
    }
  }

  lemma ProgressBound(data: seq<char>, text: string, t: Thread)
    requires ThreadOk(data, text, t)
    ensures t.i <= t.length
  {
    hide LexOf, TableOf;
  }

  /** The tables as the merges see them: their words are read from the text as it is now. */
  function Tables(st: State): (r: seq<seq<Entry>>)
    ensures |r| == |st.threads| && forall k | 0 <= k < |r| :: r[k] == Deref(st.data, st.threads[k].table)
  {
    seq(|st.threads|, k requires 0 <= k < |st.threads| => Deref(st.data, st.threads[k].table))
  }

  lemma TablesAreRight(job: Job, text: string, st: State)
    requires Inv(job, text, st) && Finished(job, st)
    ensures Sections(text, st.cuts) && TablesFor(text, st.cuts, Tables(st))
  {
    hide Sections, TableOf, SplitterOk;
    CutCount(job, text, st);
    forall k | 0 <= k < |st.threads| ensures TableAt(text, st.cuts, Tables(st), k) {
      assert ThreadAt(text, st, k);
    }
  }

  lemma Coverage(job: Job, text: string, st: State)
    requires Inv(job, text, st) && Finished(job, st) && 1 <= job.procs && job.req == job.flen / job.procs
    ensures |st.cuts| == job.procs + 1 && |text| == job.flen && job.flen - st.cuts[job.procs] < job.procs
    ensures CutsMade(text, job.flen / job.procs, st.cuts) && CanCover(text, job.procs, st.cuts[job.procs])
  {
    hide Sections, ThreadAt, Same, Spared, CutsMade, Searched;
    FewUncovered(text, job.procs, st.cuts);
  }

  /** Whatever the interleaving of the splitter and its threads, once all are through the
      merged table is strictly sorted and maps every word of the covered text to its number of
      occurrences.  The covered text ends where the last section belongs, which for a steady
      text is one number; fewer than num_procs characters are not covered. */
  lemma CountUnderInterleaving(data: seq<char>, flen: nat, procs: nat, steps: seq<Step>, w: string)
    requires 1 <= procs && flen < |data|
    requires var job := Job(flen, procs, flen / procs);
             Legal(job, Init(job, data), steps) && Finished(job, Run(job, Init(job, data), steps))
    ensures var job := Job(flen, procs, flen / procs);
            var st := Run(job, Init(job, data), steps);
            && |st.cuts| == procs + 1 && |st.threads| == procs
            && var covered := st.cuts[procs];
               var result := Tournament(Tables(st));
               && covered <= flen < covered + procs && (covered == flen || Space(data[covered]))
               && CutsMade(data[..flen], flen / procs, st.cuts) && CanCover(data[..flen], procs, covered)
               && (Steady(data[..flen], procs) ==> covered == CutPos(data[..flen], flen / procs, procs))
               && Sorted(result) && CountOf(result, w) == Occurrences(Words(data[..covered], 0), w)
  {
    hide Legal, Run, Inv, Sections, TablesFor, Sorted, CountOf, Occurrences, TotalOf, Tournament, Tokens, Words, TableOf, CutsMade,
      CanCover, Steady, CutPos;
    var job := Job(flen, procs, flen / procs);
    var text := data[..flen];
    var st := Run(job, Init(job, data), steps);
    InitOk(job, text, data);
    RunKeepsInv(job, text, Init(job, data), steps);
    TablesAreRight(job, text, st);
    Coverage(job, text, st);
    var covered := st.cuts[procs];
    if Steady(text, procs) { CoverIs(text, procs, covered); }
    LastCut(text, st.cuts);
    TablesCount(text, st.cuts, Tables(st), w);
    TournamentKeeps(Tables(st), w);
    TokensAreWords(text[..covered]);
    assert text[..covered] == data[..covered];
  }

  // ------------------------------------------------------ every run can finish

  /** Characters that threads have still to read, and the ends they have still to reach. */
  function Work(threads: seq<Thread>): nat {
    if threads == [] then 0
    else
      var t := threads[|threads| - 1];
      Work(threads[..|threads| - 1]) + (if t.i < t.length then t.length - t.i else 0) + if t.done then 0 else 1
  }

  lemma {:induction false} WorkSet(threads: seq<Thread>, k: nat, t: Thread)
    requires k < |threads|
    requires t.length == threads[k].length
    requires if threads[k].i < threads[k].length then t.i == threads[k].i + 1 && t.done == threads[k].done
             else t.i == threads[k].i && t.done && !threads[k].done
    ensures Work(threads[k := t]) == Work(threads) - 1
  {
    var n := |threads| - 1;
    if k == n {
      assert threads[k := t][..n] == threads[..n];
    } else {
      assert threads[k := t][..n] == threads[..n][k := t];
      WorkSet(threads[..n], k, t);
    }
  }

  /** A thread's step leaves the splitter's fields alone and takes one off its work. */
  lemma ThreadStepCounts(job: Job, st: State, step: Step)
    requires Enabled(job, st, step) && (step.Read? || step.End?)
    ensures var st' := Do(job, st, step);
            st'.cuts == st.cuts && st'.fpos == st.fpos && |st'.threads| == |st.threads| && Work(st'.threads) == Work(st.threads) - 1
  {
    hide Work, SlotsAdded;
    WorkSet(st.threads, step.k, Do(job, st, step).threads[step.k]);
  }

  lemma Appended(job: Job, st: State, step: Step, rest: seq<Step>) returns (steps: seq<Step>)
    requires Enabled(job, st, step) && Legal(job, Do(job, st, step), rest)
    ensures Legal(job, st, steps) && Run(job, st, steps) == Run(job, Do(job, st, step), rest)
  {
    hide Do, Enabled;
    steps := [step] + rest;
    assert steps[1..] == rest && steps[0] == step;
  }

  /** From every state of every run all sections can still be cut and all threads get through;
      the cuts made are kept, and later ones lie no further back than the splitter is. */
  lemma {:induction false} CanFinish(job: Job, text: string, st: State) returns (steps: seq<Step>)
    requires Inv(job, text, st)
    ensures Legal(job, st, steps) && Finished(job, Run(job, st, steps)) && Inv(job, text, Run(job, st, steps))
    ensures st.cuts <= Run(job, st, steps).cuts
    ensures forall k | |st.cuts| <= k < |Run(job, st, steps).cuts| :: st.fpos <= Run(job, st, steps).cuts[k]
    decreases job.procs - |st.threads|, job.flen - st.fpos, Work(st.threads)
  {
    hide Inv, Enabled, Do, Legal, Run, Work;
    if Finished(job, st) {
      steps := [];
      NoSteps(job, st);
    } else {
      var step := SomebodyGoesOn(job, text, st);
      StepKeepsInv(job, text, st, step);
      StepGoesForward(job, text, st, step);
      var rest := CanFinish(job, text, Do(job, st, step));
      steps := Appended(job, st, step, rest);
      CutsGoOn(st.cuts, st.fpos, Do(job, st, step).cuts, Do(job, st, step).fpos, Run(job, Do(job, st, step), rest).cuts);
    }
  }

  lemma NoSteps(job: Job, st: State)
    ensures Legal(job, st, []) && Run(job, st, []) == st
  {
  }

  lemma CutsGoOn(a: seq<nat>, fa: nat, b: seq<nat>, fb: nat, c: seq<nat>)
    requires (b == a || b == a + [fa]) && fa <= fb && b <= c && forall k | |b| <= k < |c| :: fb <= c[k]
    ensures a <= c && forall k | |a| <= k < |c| :: fa <= c[k]
  {
  }

  lemma StepGoesForward(job: Job, text: string, st: State, step: Step)
    requires Inv(job, text, st) && Enabled(job, st, step)
    ensures var st' := Do(job, st, step);
            && st.fpos <= st'.fpos && (st'.cuts == st.cuts || st'.cuts == st.cuts + [st.fpos])
            && |st.threads| <= |st'.threads| && job.procs >= |st.threads| && job.flen >= st.fpos
            && ((|st'.threads| > |st.threads| && job.procs > |st.threads|)
                || (|st'.threads| == |st.threads| && st'.fpos > st.fpos && job.flen > st.fpos)
                || (|st'.threads| == |st.threads| && st'.fpos == st.fpos && Work(st'.threads) < Work(st.threads)))
  {
    hide Sections, ThreadAt, CutsMade, Searched, Work;
    if step.Read? || step.End? {
      ThreadStepCounts(job, st, step);
    }
  }

  // ------------------------------------------------ when the timing matters

  /** The splitter passes characters that are no white space. */
  lemma {:induction false} Advances(job: Job, text: string, st: State, to: nat) returns (steps: seq<Step>)
    requires Inv(job, text, st) && |st.threads| < job.procs && st.fpos <= to <= job.flen
    requires forall q | st.fpos <= q < to :: q < |st.data| && !Space(st.data[q])
    ensures Legal(job, st, steps) && Run(job, st, steps) == st.(fpos := to) && Inv(job, text, st.(fpos := to))
    decreases if st.fpos <= to then to - st.fpos else 0
  {
    if st.fpos == to {
      steps := [];
    } else {
      FlenInside(job, text, st);
      StepKeepsInv(job, text, st, Advance);
      hide Inv;
      var rest := Advances(job, text, Do(job, st, Advance), to);
      steps := Appended(job, st, Advance, rest);
    }
  }

  lemma FlenInside(job: Job, text: string, st: State)
    requires Inv(job, text, st)
    ensures |text| == job.flen < |st.data| && |st.cuts| == |st.threads| + 1 && st.cuts[|st.cuts| - 1] <= st.fpos <= job.flen
    ensures CutsMade(text, job.req, st.cuts)
  {
    hide Sections, ThreadAt, CutsMade, Searched;
  }

  /** With nothing asked for, all the cuts that are left are made at one white space. */
  lemma {:induction false} CutsInPlace(job: Job, text: string, st: State) returns (steps: seq<Step>)
    requires Inv(job, text, st) && job.req == 0 && AtCut(job, st) && st.fpos < job.flen
    ensures Legal(job, st, steps) && Inv(job, text, Run(job, st, steps)) && |Run(job, st, steps).threads| == job.procs
    ensures var cuts := Run(job, st, steps).cuts;
            st.cuts <= cuts && |cuts| == job.procs + 1 && forall k | |st.cuts| <= k < |cuts| :: cuts[k] == st.fpos
    decreases job.procs - |st.threads|
  {
    FlenInside(job, text, st);
    ThreadsBound(job, text, st);
    if |st.threads| == job.procs {
      steps := [];
      NoSteps(job, st);
    } else {
      StepKeepsInv(job, text, st, Cut);
      hide Inv, Legal, Run;
      var st' := Do(job, st, Cut);
      var rest := CutsInPlace(job, text, st');
      steps := Appended(job, st, Cut, rest);
      var cuts := Run(job, st', rest).cuts;
      assert st'.cuts == st.cuts + [st.fpos] && st'.cuts <= cuts;
      assert cuts[|st.cuts|] == st.fpos;
    }
  }

  lemma ThreadsBound(job: Job, text: string, st: State)
    requires Inv(job, text, st)
    ensures |st.threads| <= job.procs
  {
    hide Sections, ThreadAt, CutsMade, Searched;
  }

  lemma {:induction false} RunJoins(job: Job, st: State, a: seq<Step>, b: seq<Step>)
    requires Legal(job, st, a) && Legal(job, Run(job, st, a), b)
    ensures Legal(job, st, a + b) && Run(job, st, a + b) == Run(job, Run(job, st, a), b)
    decreases |a|
  {
    hide Do, Enabled;
    if a == [] {
      assert a + b == b;
    } else {
      assert (a + b)[1..] == a[1..] + b && (a + b)[0] == a[0];
      RunJoins(job, Do(job, st, a[0]), a[1..], b);
    }
  }

  /** The first thread runs to its end; if its section ends in a word, it overwrites the white
      space behind it. */
  lemma {:induction false} FirstThreadEnds(job: Job, text: string, st: State) returns (steps: seq<Step>)
    requires Inv(job, text, st) && |st.threads| == 1 && !st.threads[0].done
    requires EndsInWord(text, 0, st.cuts[1])
    ensures Legal(job, st, steps) && Inv(job, text, Run(job, st, steps))
    ensures var end := Run(job, st, steps);
            && end.cuts == st.cuts && end.fpos == st.fpos && |end.threads| == 1
            && st.cuts[1] < |end.data| && end.data[st.cuts[1]] == '\0'
    decreases Work(st.threads)
  {
    FlenInside(job, text, st);
    FirstOk(job, text, st);
    var t := st.threads[0];
    InText(st.data, text, t);
    ProgressBound(st.data, text, t);
    var step := if t.i < t.length then Read(0) else End(0);
    StepKeepsInv(job, text, st, step);
    ThreadStepCounts(job, st, step);
    var st' := Do(job, st, step);
    if t.i < t.length {
      ReadOn(st.data, t);
      hide Inv, Legal, Run, Enabled, Do, ThreadOk, Work;
      var rest := FirstThreadEnds(job, text, st');
      steps := Appended(job, st, step, rest);
    } else {
      EndWrites(st.data, text, t);
      hide Inv, Legal, Run, Work;
      NoSteps(job, st');
      steps := Appended(job, st, step, []);
    }
  }

  lemma FirstOk(job: Job, text: string, st: State)
    requires Inv(job, text, st) && |st.threads| == 1
    ensures |st.cuts| == 2 && st.cuts[0] == 0 && st.threads[0].start == 0 && st.threads[0].length == st.cuts[1]
    ensures ThreadOk(st.data, text, st.threads[0])
  {
    hide ThreadOk, CutsMade, Searched, Same, Spared;
    assert ThreadAt(text, st, 0);
  }

  lemma ReadOn(data: seq<char>, t: Thread)
    requires t.start + t.i < |data|
    ensures ReadChar(data, t).1.done == t.done
  {
  }

  lemma EndWrites(data: seq<char>, text: string, t: Thread)
    requires ThreadOk(data, text, t) && t.i == t.length && !t.done && EndsInWord(text, t.start, t.start + t.length)
    ensures t.start + t.length < |data| && EndThread(data, t).0[t.start + t.length] == '\0'
  {
    hide LexOf, TableOf, StringFrom, Deref, SlotsAdded, Closed, WordInPlace, Same, Spared;
  }

  /** The splitter's way to the first cut. */
  lemma ToFirstCut(job: Job, text: string, data: seq<char>) returns (steps: seq<Step>)
    requires |text| == job.flen < |data| && data[..job.flen] == text && job.req == 0 && 1 <= job.procs
    ensures Inv(job, text, Init(job, data)) && Legal(job, Init(job, data), steps)
    ensures Run(job, Init(job, data), steps) == Init(job, data).(fpos := SectionEnd(text, 0))
    ensures Inv(job, text, Init(job, data).(fpos := SectionEnd(text, 0)))
  {
    InitOk(job, text, data);
    forall q | 0 <= q < job.flen ensures data[q] == text[q] {
      assert data[..job.flen][q] == text[q];
    }
    steps := Advances(job, text, Init(job, data), SectionEnd(text, 0));
  }

  /** All cuts first, at the first white space. */
  lemma CutsFirst(job: Job, text: string, data: seq<char>) returns (steps: seq<Step>)
    requires |text| == job.flen < |data| && data[..job.flen] == text && job.req == 0 && 1 <= job.procs
    requires SectionEnd(text, 0) < job.flen
    ensures Legal(job, Init(job, data), steps) && Finished(job, Run(job, Init(job, data), steps))
    ensures var cuts := Run(job, Init(job, data), steps).cuts; |cuts| == job.procs + 1 && cuts[job.procs] == SectionEnd(text, 0)
  {
    var a := ToFirstCut(job, text, data);
    var p := SectionEnd(text, 0);
    var st := Init(job, data).(fpos := p);
    assert data[p] == text[p] by { assert data[..job.flen][p] == text[p]; }
    var b := CutsInPlace(job, text, st);
    var st2 := Run(job, st, b);
    var c := CanFinish(job, text, st2);
    hide Inv, Legal, Run, SectionEnd;
    RunJoins(job, Init(job, data), a, b);
    RunJoins(job, Init(job, data), a + b, c);
    steps := a + b + c;
    CutsCounted(job, text, Run(job, st2, c));
    assert st2.cuts <= Run(job, st2, c).cuts;
  }

  lemma CutsCounted(job: Job, text: string, st: State)
    requires Inv(job, text, st) && Finished(job, st)
    ensures |st.cuts| == job.procs + 1
  {
    FlenInside(job, text, st);
  }

  /** One cut, the first thread to its end, and then the others: they begin further on. */
  lemma ThreadFirst(job: Job, text: string, data: seq<char>) returns (steps: seq<Step>)
    requires |text| == job.flen < |data| && data[..job.flen] == text && job.req == 0 && 2 <= job.procs
    requires SectionEnd(text, 0) < job.flen && EndsInWord(text, 0, SectionEnd(text, 0))
    ensures Legal(job, Init(job, data), steps) && Finished(job, Run(job, Init(job, data), steps))
    ensures var cuts := Run(job, Init(job, data), steps).cuts; |cuts| == job.procs + 1 && cuts[job.procs] > SectionEnd(text, 0)
  {
    var p := SectionEnd(text, 0);
    hide EndsInWord;
    var a := ToFirstCut(job, text, data);
    var st := Init(job, data).(fpos := p);
    assert data[p] == text[p] by { assert data[..job.flen][p] == text[p]; }
    StepKeepsInv(job, text, st, Cut);
    var st1 := Do(job, st, Cut);
    assert st1.cuts == [0, p] && st1.fpos == p && |st1.threads| == 1 && !st1.threads[0].done;
    assert Enabled(job, st, Cut);
    hide Inv, Legal, Run, SectionEnd, Do, Enabled;
    var b := FirstThreadEnds(job, text, st1);
    var st2 := Run(job, st1, b);
    FlenInside(job, text, st2);
    var c := PastTerminator(job, text, st2);
    var ab := Appended(job, st, Cut, b);
    var bc := ab + c;
    RunJoins(job, st, ab, c);
    RunJoins(job, Init(job, data), a, bc);
    steps := a + bc;
    CutsCounted(job, text, Run(job, st2, c));
  }

  lemma PastTerminator(job: Job, text: string, st: State) returns (steps: seq<Step>)
    requires Inv(job, text, st) && |st.threads| == 1 && 2 <= job.procs && |st.cuts| == 2 && st.fpos < job.flen < |st.data|
    requires st.data[st.fpos] == '\0'
    ensures Legal(job, st, steps) && Finished(job, Run(job, st, steps)) && Inv(job, text, Run(job, st, steps))
    ensures forall k | 2 <= k < |Run(job, st, steps).cuts| :: Run(job, st, steps).cuts[k] > st.fpos
  {
    assert Enabled(job, st, Advance);
    StepKeepsInv(job, text, st, Advance);
    var st' := Do(job, st, Advance);
    assert st'.fpos == st.fpos + 1 && st'.cuts == st.cuts;
    hide Inv, Legal, Run, Do, Enabled;
    var rest := CanFinish(job, text, st');
    steps := Appended(job, st, Advance, rest);
  }

  /** And so exactly for steady texts the covered text does not depend on the timing: for any
      other there are two complete runs that cover different texts. */
  lemma TimingMatters(data: seq<char>, flen: nat, procs: nat) returns (a: seq<Step>, b: seq<Step>)
    requires 1 <= procs && flen < |data| && !Steady(data[..flen], procs)
    ensures var job := Job(flen, procs, flen / procs);
            && Legal(job, Init(job, data), a) && Finished(job, Run(job, Init(job, data), a))
            && Legal(job, Init(job, data), b) && Finished(job, Run(job, Init(job, data), b))
            && var ca, cb := Run(job, Init(job, data), a).cuts, Run(job, Init(job, data), b).cuts;
               |ca| == |cb| == procs + 1 && ca[procs] < cb[procs]
  {
    var job := Job(flen, procs, flen / procs);
    var text := data[..flen];
    Quotient(flen, procs);
    InWordIsLonger(text, 0, SectionEnd(text, 0));
    hide Legal, Run, EndsInWord, SectionEnd;
    a := CutsFirst(job, text, data);
    b := ThreadFirst(job, text, data);
  }
}
