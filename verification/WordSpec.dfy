/** Words, their order, and the sorted tables of word counts. */
module WordSpec {

  // ------------------------------------------------------------ characters

  function Upper(c: char): char {
    if 'a' <= c <= 'z' then (c as int - 32) as char else c
  }

  predicate Letter(c: char) {
    'A' <= Upper(c) <= 'Z'
  }

  /** Inside a word an apostrophe counts as well. */
  predicate WordChar(c: char) {
    Letter(c) || c == '\''
  }

  predicate Space(c: char) {
    c == ' ' || c == '\t' || c == '\r' || c == '\n'
  }

  /** What the characters are: letters of either case, which are folded to upper case, the
      apostrophe, and the four kinds of white space, which are in no word. */
  lemma Characters(c: char)
    ensures Letter(c) <==> 'a' <= c <= 'z' || 'A' <= c <= 'Z'
    ensures Letter(c) ==> Letter(Upper(c)) && 'A' <= Upper(c) <= 'Z' && (c == Upper(c) || c as int == Upper(c) as int + 32)
    ensures WordChar(c) <==> Letter(c) || c == '\''
    ensures Space(c) <==> c in " \t\r\n"
    ensures Space(c) ==> !WordChar(c)
  {
  }

  // ----------------------------------------- the words of a text, declared

  /** Length of the run of word characters at i. */
  function RunEnd(text: string, i: nat): (r: nat)
    requires i <= |text|
    ensures i <= r <= |text| && (r < |text| ==> !WordChar(text[r]))
    ensures forall k | i <= k < r :: WordChar(text[k])
    decreases |text| - i
  {
    if i == |text| || !WordChar(text[i]) then i else RunEnd(text, i + 1)
  }

  function UpperAll(s: string): (r: string)
    ensures |r| == |s| && forall k | 0 <= k < |r| :: r[k] == Upper(s[k])
  {
    seq(|s|, k requires 0 <= k < |s| => Upper(s[k]))
  }

  /** The words from offset i on: each starts at a letter and goes on as long as it can. */
  function Words(text: string, i: nat): seq<string>
    requires i <= |text|
    decreases |text| - i
  {
    if i == |text| then []
    else if !Letter(text[i]) then Words(text, i + 1)
    else [UpperAll(text[i..RunEnd(text, i + 1)])] + Words(text, RunEnd(text, i + 1))
  }

  /** The case of letters makes no difference to the words of a text. */
  lemma {:induction false} CaseIsFolded(text: string, i: nat)
    requires i <= |text|
    ensures Words(UpperAll(text), i) == Words(text, i)
    decreases |text| - i
  {
    var upper := UpperAll(text);
    if i < |text| {
      Characters(text[i]);
      if Letter(text[i]) {
        SameRun(text, i + 1);
        var end := RunEnd(text, i + 1);
        assert UpperAll(upper[i..end]) == UpperAll(text[i..end]) by {
          forall k | i <= k < end ensures Upper(upper[k]) == Upper(text[k]) {
            UpperTwice(text[k]);
          }
        }
        CaseIsFolded(text, end);
      } else {
        UpperTwice(text[i]);
        CaseIsFolded(text, i + 1);
      }
    }
  }

  lemma UpperTwice(c: char)
    ensures Upper(Upper(c)) == Upper(c) && (Letter(Upper(c)) <==> Letter(c)) && (WordChar(Upper(c)) <==> WordChar(c))
  {
  }

  lemma {:induction false} SameRun(text: string, i: nat)
    requires i <= |text|
    ensures RunEnd(UpperAll(text), i) == RunEnd(text, i)
    decreases |text| - i
  {
    if i < |text| {
      UpperTwice(text[i]);
      SameRun(text, i + 1);
    }
  }

  // -------------------------------------------- the words, as the loop sees

  /** Words finished so far, and the one being read; empty when not in a word. */
  datatype Lex = Lex(words: seq<string>, current: string)

  function Eat(l: Lex, c: char): Lex {
    if l.current != "" then
      if WordChar(c) then l.(current := l.current + [Upper(c)]) else Lex(l.words + [l.current], "")
    else if Letter(c) then l.(current := [Upper(c)]) else l
  }

  function LexOf(text: string): Lex {
    if text == [] then Lex([], "") else Eat(LexOf(text[..|text| - 1]), text[|text| - 1])
  }

  function Finish(l: Lex): seq<string> {
    if l.current != "" then l.words + [l.current] else l.words
  }

  function Tokens(text: string): seq<string> {
    Finish(LexOf(text))
  }

  function EatAll(l: Lex, text: string, i: nat): Lex
    requires i <= |text|
    decreases |text| - i
  {
    if i == |text| then l else EatAll(Eat(l, text[i]), text, i + 1)
  }

  lemma LexStep(text: string, i: nat)
    requires i < |text|
    ensures LexOf(text[..i + 1]) == Eat(LexOf(text[..i]), text[i])
  {
    assert text[..i + 1][..i] == text[..i];
  }

  lemma {:induction false} EatAllIsLex(text: string, i: nat)
    requires i <= |text|
    ensures EatAll(LexOf(text[..i]), text, i) == LexOf(text)
    decreases |text| - i
  {
    if i == |text| {
      assert text[..i] == text;
    } else {
      LexStep(text, i);
      EatAllIsLex(text, i + 1);
    }
  }

  /** Between words the loop finds exactly the words that are left. */
  lemma {:induction false} EatBetween(ws: seq<string>, text: string, i: nat)
    requires i <= |text|
    ensures Finish(EatAll(Lex(ws, ""), text, i)) == ws + Words(text, i)
    decreases |text| - i
  {
    if i < |text| {
      if Letter(text[i]) {
        EatWithin(ws, text, i, i + 1);
        var end := RunEnd(text, i + 1);
        assert UpperAll(text[i..i + 1]) == [Upper(text[i])];
        assert ws + ([UpperAll(text[i..end])] + Words(text, end)) == ws + [UpperAll(text[i..end])] + Words(text, end);
      } else {
        EatBetween(ws, text, i + 1);
      }
    }
  }

  /** Within a word it goes on to the end of the run. */
  lemma {:induction false} EatWithin(ws: seq<string>, text: string, start: nat, i: nat)
    requires start < i <= |text| && RunEnd(text, start) == RunEnd(text, i) >= i
    ensures Finish(EatAll(Lex(ws, UpperAll(text[start..i])), text, i))
         == ws + [UpperAll(text[start..RunEnd(text, i)])] + Words(text, RunEnd(text, i))
    decreases |text| - i, 1
  {
    var cur := UpperAll(text[start..i]);
    if i == |text| {
    } else if WordChar(text[i]) {
      assert UpperAll(text[start..i + 1]) == cur + [Upper(text[i])];
      EatWithin(ws, text, start, i + 1);
    } else {
      EatBetween(ws + [cur], text, i + 1);
    }
  }

  /** The state machine finds the declared words. */
  lemma TokensAreWords(text: string)
    ensures Tokens(text) == Words(text, 0)
  {
    EatAllIsLex(text, 0);
    EatBetween([], text, 0);
    assert text[..0] == [];
  }

  /** A text may be cut in front of any character that is not a word's. */
  lemma TokensSplit(a: string, b: string)
    requires b == [] || !WordChar(b[0])
    ensures Tokens(a + b) == Tokens(a) + Tokens(b)
  {
    if b == [] {
      assert a + b == a;
    } else {
      LexAfterCut(a, b);
    }
  }

  lemma {:induction false} LexAfterCut(a: string, b: string)
    requires b != [] && !WordChar(b[0])
    ensures LexOf(a + b) == Lex(Tokens(a) + LexOf(b).words, LexOf(b).current)
  {
    var n := |b| - 1;
    assert (a + b)[..|a + b| - 1] == a + b[..n];
    if n == 0 {
      assert a + b[..n] == a;
      assert b[..n] == [];
    } else {
      LexAfterCut(a, b[..n]);
    }
  }

  /** What stands in front of a word does not matter as long as it is no word's character. */
  lemma {:induction false} FirstCharIrrelevant(a: string, b: string)
    requires |a| == |b| && (a != [] ==> !WordChar(a[0]) && !WordChar(b[0]) && a[1..] == b[1..])
    ensures LexOf(a) == LexOf(b)
  {
    if |a| > 1 {
      assert a[..|a| - 1][1..] == b[..|a| - 1][1..] by {
        assert a[..|a| - 1][1..] == a[1..][..|a| - 2] && b[..|a| - 1][1..] == b[1..][..|a| - 2];
      }
      FirstCharIrrelevant(a[..|a| - 1], b[..|a| - 1]);
      assert a[|a| - 1] == a[1..][|a| - 2] && b[|a| - 1] == b[1..][|a| - 2];
    } else if |a| == 1 {
      assert a[..0] == b[..0];
    }
  }

  function Occurrences(ws: seq<string>, w: string): nat {
    if ws == [] then 0 else Occurrences(ws[..|ws| - 1], w) + if ws[|ws| - 1] == w then 1 else 0
  }

  lemma {:induction false} OccurrencesSplit(a: seq<string>, b: seq<string>, w: string)
    ensures Occurrences(a + b, w) == Occurrences(a, w) + Occurrences(b, w)
  {
    if b == [] {
      assert a + b == a;
    } else {
      assert (a + b)[..|a + b| - 1] == a + b[..|b| - 1];
      OccurrencesSplit(a, b[..|b| - 1], w);
    }
  }
}
