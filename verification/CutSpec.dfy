/** Where the sections of a text end: at the first white space at or after the length asked
    for, or, with nothing asked for, perhaps one white space later. */
module CutSpec {
  import opened WordSpec

  /** The first white space at or after i, or the end. */
  function SectionEnd(text: string, i: nat): (p: nat)
    requires i <= |text|
    ensures i <= p <= |text| && (p < |text| ==> Space(text[p]))
    ensures forall q | i <= q < p :: !Space(text[q])
    decreases |text| - i
  {
    if i == |text| || Space(text[i]) then i else SectionEnd(text, i + 1)
  }

  lemma SectionEndIs(text: string, i: nat, p: nat)
    requires i <= p <= |text| && (p < |text| ==> Space(text[p])) && forall q | i <= q < p :: !Space(text[q])
    ensures SectionEnd(text, i) == p
  {
  }

  /** Where a search for the end of a section from p on begins. */
  function Asked(text: string, p: nat, req: nat): (r: nat)
    ensures r <= |text| && (p <= |text| ==> p <= r)
  {
    if p + req < |text| then p + req else |text|
  }

  /** Cut k of the text alone. */
  function CutPos(text: string, req: nat, k: nat): (p: nat)
    ensures p <= |text|
  {
    if k == 0 then 0 else SectionEnd(text, Asked(text, CutPos(text, req, k - 1), req))
  }

  predicate EndsInWord(text: string, lo: nat, hi: nat) {
    lo < hi <= |text| && LexOf(text[lo..hi]).current != ""
  }

  /** Some section ends at p in a word, so its thread overwrites the white space there. */
  predicate Overwritten(text: string, cuts: seq<nat>, p: nat) {
    exists j :: 0 <= j < |cuts| - 1 && cuts[j + 1] == p && EndsInWord(text, cuts[j], p)
  }

  /** Cut k + 1 is where it belongs.  If no length is asked for, the search begins at cut k
      itself, and goes past it if the white space there is overwritten already. */
  predicate CutMade(text: string, req: nat, cuts: seq<nat>, k: nat)
    requires k + 1 < |cuts|
  {
    && cuts[k] <= |text|
    && (|| cuts[k + 1] == SectionEnd(text, Asked(text, cuts[k], req))
        || (req == 0 && cuts[k] < |text| && Space(text[cuts[k]]) && Overwritten(text, cuts, cuts[k])
            && cuts[k + 1] == SectionEnd(text, cuts[k] + 1)))
  }

  ghost predicate CutsMade(text: string, req: nat, cuts: seq<nat>) {
    cuts != [] && cuts[0] == 0 && forall k | 0 <= k < |cuts| - 1 :: CutMade(text, req, cuts, k)
  }

  lemma OverwrittenMore(text: string, cuts: seq<nat>, p: nat, next: nat)
    requires Overwritten(text, cuts, p)
    ensures Overwritten(text, cuts + [next], p) && p in cuts
  {
    hide EndsInWord;
    var j :| 0 <= j < |cuts| - 1 && cuts[j + 1] == p && EndsInWord(text, cuts[j], p);
    var more := cuts + [next];
    assert more[j + 1] == p && EndsInWord(text, more[j], p);
  }

  lemma CutsMadeMore(text: string, req: nat, cuts: seq<nat>, next: nat)
    requires CutsMade(text, req, cuts) && CutMade(text, req, cuts + [next], |cuts| - 1)
    ensures CutsMade(text, req, cuts + [next])
  {
    hide EndsInWord, Overwritten;
    var more := cuts + [next];
    forall k | 0 <= k < |more| - 1 ensures CutMade(text, req, more, k) {
      if k < |cuts| - 1 {
        assert CutMade(text, req, cuts, k);
        if Overwritten(text, cuts, cuts[k]) { OverwrittenMore(text, cuts, cuts[k], next); }
      }
    }
  }

  lemma {:induction false} CutsRise(text: string, req: nat, cuts: seq<nat>, j: nat, k: nat)
    requires CutsMade(text, req, cuts) && j <= k < |cuts|
    ensures cuts[j] <= cuts[k] <= |text|
    decreases k - j
  {
    hide EndsInWord, Overwritten;
    if j < k {
      CutsRise(text, req, cuts, j, k - 1);
      assert CutMade(text, req, cuts, k - 1);
    } else if k > 0 {
      assert CutMade(text, req, cuts, k - 1);
    }
  }

  /** Do the cuts not depend on the threads' timing?  With at least as many characters as
      threads they do not; with fewer they do if the first section ends in a word in front of
      more text. */
  predicate Steady(text: string, procs: nat) {
    procs <= |text| || SectionEnd(text, 0) == |text| || !EndsInWord(text, 0, SectionEnd(text, 0))
  }

  lemma Quotient(n: nat, procs: nat)
    requires 1 <= procs
    ensures n / procs == 0 <==> n < procs
  {
  }

  /** Then every cut is that of the text alone. */
  lemma {:induction false} SteadyCuts(text: string, procs: nat, cuts: seq<nat>, k: nat)
    requires 1 <= procs && Steady(text, procs) && CutsMade(text, |text| / procs, cuts) && k < |cuts|
    ensures cuts[k] == CutPos(text, |text| / procs, k)
    ensures |text| / procs == 0 && k > 0 ==> cuts[k] == SectionEnd(text, 0)
  {
    hide EndsInWord;
    var req := |text| / procs;
    Quotient(|text|, procs);
    if k > 0 {
      SteadyCuts(text, procs, cuts, k - 1);
      assert CutMade(text, req, cuts, k - 1);
      var p := cuts[k - 1];
      if req == 0 && Overwritten(text, cuts, p) && p < |text| {
        var j :| 0 <= j < |cuts| - 1 && cuts[j + 1] == p && EndsInWord(text, cuts[j], p);
        InWordIsLonger(text, cuts[j], p);
        if j >= k { CutsRise(text, req, cuts, k - 1, j); }
        if j > 0 { SteadyCuts(text, procs, cuts, j); }
        assert false;
      }
      if req == 0 { EndAgain(text, 0); }
    }
  }

  lemma InWordIsLonger(text: string, lo: nat, hi: nat)
    requires EndsInWord(text, lo, hi)
    ensures lo < hi <= |text|
  {
  }

  lemma EndAgain(text: string, i: nat)
    requires i <= |text|
    ensures SectionEnd(text, SectionEnd(text, i)) == SectionEnd(text, i)
  {
  }

  /** What can be covered: the last cut of any cuts made. */
  ghost predicate CanCover(text: string, procs: nat, covered: nat)
    requires 1 <= procs
  {
    exists cuts :: CutsMade(text, |text| / procs, cuts) && |cuts| == procs + 1 && cuts[procs] == covered
  }

  lemma CoverIs(text: string, procs: nat, covered: nat)
    requires 1 <= procs && CanCover(text, procs, covered) && Steady(text, procs)
    ensures covered == CutPos(text, |text| / procs, procs)
  {
    hide Steady, CutPos, CutsMade;
    var cuts :| CutsMade(text, |text| / procs, cuts) && |cuts| == procs + 1 && cuts[procs] == covered;
    SteadyCuts(text, procs, cuts, procs);
  }
}
