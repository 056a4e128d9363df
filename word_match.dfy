/** Whole-word, case-insensitive search: what `Regex.Match` finds for a
    pattern `\b` + literal + `\b` with `RegexOptions.IgnoreCase`. */
module WordMatch {
  import opened Strings

  /** `\b` at offset `i`: a word character on exactly one side. */
  predicate IsBoundary(s: string, i: nat)
    requires i <= |s|
  {
    (i > 0 && IsWordChar(s[i - 1])) != (i < |s| && IsWordChar(s[i]))
  }

  /** `p` occurs at `i`, ignoring case, with a word boundary on both sides. */
  predicate WholeWordAt(s: string, p: string, i: nat) {
    MatchesAt(s, p, i) && IsBoundary(s, i) && IsBoundary(s, i + |p|)
  }

  function FirstWholeWordFrom(s: string, p: string, from: nat): (r: Option<nat>)
    requires from <= |s| + 1
    ensures r.Some? ==> from <= r.value && WholeWordAt(s, p, r.value)
    ensures r.Some? ==> forall j :: from <= j < r.value ==> !WholeWordAt(s, p, j)
    ensures r.None? ==> forall j: nat :: from <= j ==> !WholeWordAt(s, p, j)
    decreases |s| + 1 - from
  {
    if from > |s| then None
    else if WholeWordAt(s, p, from) then Some(from)
    else FirstWholeWordFrom(s, p, from + 1)
  }

  /** The leftmost whole-word occurrence of `p` in `s`, ignoring case. */
  function FirstWholeWord(s: string, p: string): (r: Option<nat>)
    ensures r.Some? ==> WholeWordAt(s, p, r.value) && r.value + |p| <= |s|
    ensures r.Some? ==> forall j :: 0 <= j < r.value ==> !WholeWordAt(s, p, j)
    ensures r.None? <==> forall j: nat :: !WholeWordAt(s, p, j)
  {
    FirstWholeWordFrom(s, p, 0)
  }

  /** A word inside a longer word is not a whole word: "AC" is not found
      in "act". */
  lemma NotInsideWord()
    ensures FirstWholeWord("act", "AC") == None
  {
    forall j: nat ensures !WholeWordAt("act", "AC", j) {
      if j == 0 && MatchesAt("act", "AC", 0) {
        assert !IsBoundary("act", 2);
      }
    }
  }

  /** With white space around it, the word is found. */
  lemma FoundBetweenSpaces()
    ensures FirstWholeWord("in AC 101", "AC") == Some(3)
  {
    var s := "in AC 101";
    assert WholeWordAt(s, "AC", 3) by {
      assert MatchesAt(s, "AC", 3);
    }
    assert s[0] == 'i' && s[1] == 'n' && s[2] == ' ';
    assert !MatchesAt(s, "AC", 0) by { assert ToLower(s[0]) != ToLower("AC"[0]); }
    assert !IsBoundary(s, 1);
    assert !MatchesAt(s, "AC", 2) by { assert ToLower(s[2]) != ToLower("AC"[0]); }
  }
}
