/** The event details popup (`EventDetailsPanel`) and the cleaner that turns
    an event's HTML description into one line of plain text. */
module EventDetails {
  import opened Strings

  const LineBreakTag: string := "<br/>"
  const EventTypeMarker: string := "Event type"
  const NoDescriptionMessage: string := "No description available for this event."

  /** The first `>` of `t`, provided no line feed comes before it: where the
      lazy pattern `.*?>` ends when started at the front of `t` (`.` does
      not match `\n`). */
  function TagEnd(t: string): (r: Option<nat>)
    ensures r.Some? ==> r.value < |t| && t[r.value] == '>'
    ensures r.Some? ==> forall k :: 0 <= k < r.value ==> t[k] != '>' && t[k] != '\n'
    ensures r.None? ==> forall j :: 0 <= j < |t| && t[j] == '>' ==> exists k :: 0 <= k < j && t[k] == '\n'
  {
    if t == [] then None
    else if t[0] == '>' then Some(0)
    else if t[0] == '\n' then None
    else
      match TagEnd(t[1..])
      case Some(j) => Some(j + 1)
      case None =>
        assert forall j :: 1 <= j < |t| ==> t[j] == t[1..][j - 1];
        None
  }

  /** No `<` is followed by a `>` on the same line. */
  predicate NoTag(s: string) {
    forall i :: 0 <= i < |s| && s[i] == '<' ==> TagEnd(s[i + 1..]).None?
  }

  /** `Regex.Replace(s, "<.*?>", "")`: scanning left to right, each `<` that
      has a `>` after it on the same line is removed with everything up to
      and including that `>`.  That no tag is left is `RemoveTagsLeavesNoTag`. */
  function RemoveTags(s: string): (r: string)
    ensures IsSubsequence(r, s)
    ensures '<' !in s ==> r == s
    decreases |s|
  {
    if s == [] then []
    else if s[0] == '<' && TagEnd(s[1..]).Some? then
      var r := RemoveTags(s[TagEnd(s[1..]).value + 2..]);
      SubsequenceOfSuffix(r, s, TagEnd(s[1..]).value + 2);
      r
    else
      var rest := RemoveTags(s[1..]);
      assert ([s[0]] + rest)[1..] == rest;
      assert '<' !in s ==> s == [s[0]] + s[1..];
      [s[0]] + rest
  }

  /** Tag removal keeps a line that has no `>`: the text after a `<` that
      opens no tag still opens none after the removal. */
  lemma {:induction false} NoTagLineKept(t: string)
    requires TagEnd(t).None?
    ensures TagEnd(RemoveTags(t)).None?
    decreases |t|
  {
    if t != [] && t[0] != '\n' {
      assert TagEnd(t[1..]).None?;
      NoTagLineKept(t[1..]);
      assert RemoveTags(t) == [t[0]] + RemoveTags(t[1..]);
      assert ([t[0]] + RemoveTags(t[1..]))[1..] == RemoveTags(t[1..]);
    }
  }

  /** No tag survives the removal, though a `<` that opens none may. */
  lemma {:induction false} RemoveTagsLeavesNoTag(s: string)
    ensures NoTag(RemoveTags(s))
    decreases |s|
  {
    if s == [] {
    } else if s[0] == '<' && TagEnd(s[1..]).Some? {
      RemoveTagsLeavesNoTag(s[TagEnd(s[1..]).value + 2..]);
    } else {
      var rest := RemoveTags(s[1..]);
      var r := [s[0]] + rest;
      assert RemoveTags(s) == r;
      RemoveTagsLeavesNoTag(s[1..]);
      forall i | 0 <= i < |r| && r[i] == '<' ensures TagEnd(r[i + 1..]).None? {
        if i == 0 {
          assert r[1..] == rest;
          NoTagLineKept(s[1..]);
        } else {
          assert r[i + 1..] == rest[i..];
        }
      }
    }
  }

  /** Every white-space character is a plain space and none is next to another. */
  predicate SingleSpaced(s: string) {
    NoDoubleSpace(s) && forall i :: 0 <= i < |s| && IsWhiteSpace(s[i]) ==> s[i] == ' '
  }

  /** The characters of `s` that are not white space, in order. */
  function Visible(s: string): string {
    if s == [] then [] else (if IsWhiteSpace(s[0]) then [] else [s[0]]) + Visible(s[1..])
  }

  /** A non-empty run of characters none of which is white space. */
  predicate IsWord(w: string) {
    w != [] && forall i :: 0 <= i < |w| ==> !IsWhiteSpace(w[i])
  }

  /** How many characters at the front of `s` are not white space. */
  function WordLength(s: string): (n: nat)
    ensures n <= |s|
    ensures forall i :: 0 <= i < n ==> !IsWhiteSpace(s[i])
    ensures n < |s| ==> IsWhiteSpace(s[n])
  {
    if s == [] || IsWhiteSpace(s[0]) then 0
    else
      var n := WordLength(s[1..]);
      assert forall i :: 1 <= i < |s| ==> s[i] == s[1..][i - 1];
      1 + n
  }

  /** The words of `s`: its maximal runs of characters that are not white
      space, in order. */
  function Words(s: string): seq<string>
    decreases |s|
  {
    if s == [] then []
    else if IsWhiteSpace(s[0]) then Words(s[1..])
    else [s[..WordLength(s)]] + Words(s[WordLength(s)..])
  }

  /** Each of the words is non-empty and free of white space. */
  lemma {:induction false} WordsAreWords(s: string)
    ensures forall k :: 0 <= k < |Words(s)| ==> IsWord(Words(s)[k])
    decreases |s|
  {
    if s != [] {
      if IsWhiteSpace(s[0]) {
        WordsAreWords(s[1..]);
      } else {
        var n := WordLength(s);
        assert IsWord(s[..n]);
        WordsAreWords(s[n..]);
      }
    }
  }

  /** The words, separated by one space each. */
  function Join(ws: seq<string>): string {
    if ws == [] then []
    else if |ws| == 1 then ws[0]
    else ws[0] + " " + Join(ws[1..])
  }

  /** `Regex.Replace(s, @"\s+", " ")`: each run of white space becomes one
      space.  The words stay as they are (`CollapseKeepsWords`), and the
      result starts and ends with a space exactly when `s` starts and ends
      with white space. */
  function CollapseWhiteSpace(s: string): (r: string)
    ensures SingleSpaced(r)
    ensures r == [] <==> s == []
    ensures s != [] ==> (IsWhiteSpace(r[0]) <==> IsWhiteSpace(s[0]))
    ensures s != [] ==> (IsWhiteSpace(r[|r| - 1]) <==> IsWhiteSpace(s[|s| - 1]))
    decreases |s|
  {
    if s == [] then []
    else if IsWhiteSpace(s[0]) then
      var t := TrimStart(s[1..]);
      var rest := CollapseWhiteSpace(t);
      ConsNoDoubleSpace(' ', rest);
      assert ([' '] + rest)[1..] == rest;
      TrimStartSuffix(s[1..]);
      assert t != [] ==> t[|t| - 1] == s[|s| - 1];
      assert t == [] && |s| > 1 ==> s[|s| - 1] == s[1..][..|s| - 1][|s| - 2];
      [' '] + rest
    else
      var rest := CollapseWhiteSpace(s[1..]);
      ConsNoDoubleSpace(s[0], rest);
      assert ([s[0]] + rest)[1..] == rest;
      [s[0]] + rest
  }

  /** `WordLength` is fixed by its contract. */
  lemma WordLengthIs(s: string, n: nat)
    requires n <= |s| && forall i :: 0 <= i < n ==> !IsWhiteSpace(s[i])
    requires n < |s| ==> IsWhiteSpace(s[n])
    ensures WordLength(s) == n
  {
  }

  /** The first word of `a` is the first word of `a + b` unless it runs
      into `b`. */
  lemma WordLengthAppend(a: string, b: string)
    requires WordLength(a) < |a| || b == [] || IsWhiteSpace(b[0])
    ensures WordLength(a + b) == WordLength(a)
  {
    var n := WordLength(a);
    assert forall i :: 0 <= i < |a| ==> (a + b)[i] == a[i];
    assert n == |a| && b != [] ==> (a + b)[n] == b[0];
    WordLengthIs(a + b, n);
  }

  /** Text that is cut between two words, or next to white space, has the
      words of its two parts. */
  lemma {:induction false} WordsAppend(a: string, b: string)
    requires a == [] || b == [] || IsWhiteSpace(a[|a| - 1]) || IsWhiteSpace(b[0])
    ensures Words(a + b) == Words(a) + Words(b)
    decreases |a|, 1
  {
    if a == [] {
      assert a + b == b;
    } else if IsWhiteSpace(a[0]) {
      assert (a + b)[1..] == a[1..] + b;
      WordsAppend(a[1..], b);
    } else {
      WordsAppendWord(a, b);
    }
  }

  /** `WordsAppend` when `a` starts with a word. */
  lemma {:induction false} WordsAppendWord(a: string, b: string)
    requires a != [] && !IsWhiteSpace(a[0])
    requires b == [] || IsWhiteSpace(a[|a| - 1]) || IsWhiteSpace(b[0])
    ensures Words(a + b) == Words(a) + Words(b)
    decreases |a|, 0
  {
    var n := WordLength(a);
    var rest := a[n..];
    assert n == |a| ==> !IsWhiteSpace(a[|a| - 1]);
    WordLengthAppend(a, b);
    var ab := a + b;
    assert ab[0] == a[0];
    assert ab[..n] == a[..n];
    assert ab[n..] == rest + b;
    assert rest != [] ==> rest[|rest| - 1] == a[|a| - 1];
    WordsAppend(rest, b);
  }

  lemma {:induction false} WordsOfWhiteSpace(s: string)
    requires AllWhiteSpace(s)
    ensures Words(s) == []
  {
    if s != [] {
      WordsOfWhiteSpace(s[1..]);
    }
  }

  lemma WordsOfWord(w: string)
    requires IsWord(w)
    ensures Words(w) == [w]
  {
    WordLengthIs(w, |w|);
    assert w[..|w|] == w && w[|w|..] == [];
  }

  /** Collapsing keeps the words of the text, all of them and in order. */
  lemma {:induction false} CollapseKeepsWords(s: string)
    ensures Words(CollapseWhiteSpace(s)) == Words(s)
    decreases |s|, 1
  {
    if s == [] {
    } else if IsWhiteSpace(s[0]) {
      CollapseKeepsWordsAfterSpace(s);
    } else {
      CollapseKeepsWordsAfterWord(s);
    }
  }

  /** `CollapseKeepsWords` when `s` starts with white space. */
  lemma {:induction false} CollapseKeepsWordsAfterSpace(s: string)
    requires s != [] && IsWhiteSpace(s[0])
    ensures Words(CollapseWhiteSpace(s)) == Words(s)
    decreases |s|, 0
  {
    var t := TrimStart(s[1..]);
    var r := CollapseWhiteSpace(s);
    assert r[1..] == CollapseWhiteSpace(t);
    CollapseKeepsWords(t);
    WordsTrimStart(s[1..]);
  }

  /** Leading white space carries no word. */
  lemma {:induction false} WordsTrimStart(s: string)
    ensures Words(TrimStart(s)) == Words(s)
  {
    if s != [] && IsWhiteSpace(s[0]) {
      WordsTrimStart(s[1..]);
    }
  }

  /** `CollapseKeepsWords` when `s` starts with a word. */
  lemma {:induction false} CollapseKeepsWordsAfterWord(s: string)
    requires s != [] && !IsWhiteSpace(s[0])
    ensures Words(CollapseWhiteSpace(s)) == Words(s)
    decreases |s|, 0
  {
    var n := WordLength(s);
    var word, tail := s[..n], s[n..];
    assert s == word + tail;
    var c := CollapseWhiteSpace(tail);
    CollapseOfVisiblePrefix(word, tail);
    assert tail != [] ==> IsWhiteSpace(c[0]);
    WordsAppend(word, c);
    WordsOfWord(word);
    CollapseKeepsWords(tail);
  }

  /** Trimming keeps the words. */
  lemma TrimKeepsWords(s: string)
    ensures Words(Trim(s)) == Words(s)
  {
    var r, k := Trim(s), TrimOffset(s);
    TrimDropsOnlyWhiteSpace(s);
    var pre, suf := s[..k], s[k + |r|..];
    assert s == (pre + r) + suf;
    WordsAppend(pre + r, suf);
    WordsAppend(pre, r);
    WordsOfWhiteSpace(pre);
    WordsOfWhiteSpace(suf);
  }

  /** A trimmed, single-spaced string is its words joined by spaces. */
  lemma {:induction false} JoinWords(r: string)
    requires SingleSpaced(r) && NoEdgeSpace(r)
    ensures Join(Words(r)) == r
    decreases |r|
  {
    if r != [] {
      var n := WordLength(r);
      if n == |r| {
        WordsOfWord(r);
      } else {
        assert !SpacePairAt(r, n);
        var rest := r[n + 1..|r|];
        SliceSingleSpaced(r, n + 1, |r|);
        assert NoEdgeSpace(rest);
        JoinWords(rest);
        assert r[n..][1..] == rest;
        assert Words(r) == [r[..n]] + Words(rest);
        assert ([r[..n]] + Words(rest))[1..] == Words(rest);
        assert r == r[..n] + " " + rest;
      }
    }
  }

  /** Joining words and splitting the result gives the words back. */
  lemma {:induction false} WordsJoin(ws: seq<string>)
    requires forall k :: 0 <= k < |ws| ==> IsWord(ws[k])
    ensures Words(Join(ws)) == ws
  {
    if |ws| == 1 {
      WordsOfWord(ws[0]);
    } else if |ws| > 1 {
      var rest := Join(ws[1..]);
      assert ws[0] + " " + rest == ws[0] + (" " + rest);
      WordsAppend(ws[0], " " + rest);
      WordsOfWord(ws[0]);
      assert (" " + rest)[1..] == rest;
      WordsJoin(ws[1..]);
    }
  }

  lemma {:induction false} VisibleOfWhiteSpace(s: string)
    requires AllWhiteSpace(s)
    ensures Visible(s) == []
  {
    if s != [] {
      VisibleOfWhiteSpace(s[1..]);
    }
  }

  lemma {:induction false} VisibleAppend(a: string, b: string)
    ensures Visible(a + b) == Visible(a) + Visible(b)
  {
    if a == [] {
      assert a + b == b;
    } else {
      assert (a + b)[0] == a[0];
      assert (a + b)[1..] == a[1..] + b;
      VisibleAppend(a[1..], b);
      assert Visible(a + b) == (if IsWhiteSpace(a[0]) then [] else [a[0]]) + Visible(a[1..] + b);
    }
  }

  /** Collapsing changes only the white space: every other character stays,
      in order. */
  lemma {:induction false} CollapseKeepsVisible(s: string)
    ensures Visible(CollapseWhiteSpace(s)) == Visible(s)
    decreases |s|
  {
    if s != [] {
      var r := CollapseWhiteSpace(s);
      if IsWhiteSpace(s[0]) {
        var t := TrimStart(s[1..]);
        TrimStartSuffix(s[1..]);
        CollapseKeepsVisible(t);
        assert s[1..] == s[1..][..|s| - 1 - |t|] + t;
        VisibleAppend(s[1..][..|s| - 1 - |t|], t);
        VisibleOfWhiteSpace(s[1..][..|s| - 1 - |t|]);
        assert r[1..] == CollapseWhiteSpace(t);
      } else {
        CollapseKeepsVisible(s[1..]);
        assert r[1..] == CollapseWhiteSpace(s[1..]);
      }
    }
  }

  /** A slice of a single-spaced string is single-spaced. */
  lemma SliceSingleSpaced(s: string, a: nat, b: nat)
    requires a <= b <= |s| && SingleSpaced(s)
    ensures SingleSpaced(s[a..b])
  {
    var t := s[a..b];
    forall i | 0 <= i < |t| - 1 ensures !SpacePairAt(t, i) {
      assert t[i] == s[a + i] && t[i + 1] == s[a + i + 1];
      assert !SpacePairAt(s, a + i);
    }
  }

  /** Trimming removes only white space. */
  lemma TrimKeepsVisible(s: string)
    ensures Visible(Trim(s)) == Visible(s)
  {
    var r, k := Trim(s), TrimOffset(s);
    TrimDropsOnlyWhiteSpace(s);
    assert s == s[..k] + r + s[k + |r|..];
    VisibleAppend(s[..k] + r, s[k + |r|..]);
    VisibleAppend(s[..k], r);
    VisibleOfWhiteSpace(s[..k]);
    VisibleOfWhiteSpace(s[k + |r|..]);
  }

  /** `Regex.Replace(s, @"\s+", " ").Trim()`: the words of `s`, one space
      between each two. */
  function CollapseAndTrim(s: string): (r: string)
    ensures NoEdgeSpace(r) && SingleSpaced(r)
    ensures Visible(r) == Visible(s)
    ensures r == Join(Words(s))
  {
    var collapsed := CollapseWhiteSpace(s);
    var r := Trim(collapsed);
    assert SingleSpaced(r) by {
      SliceSingleSpaced(collapsed, TrimOffset(collapsed), TrimOffset(collapsed) + |r|);
    }
    assert Visible(r) == Visible(s) by {
      CollapseKeepsVisible(s);
      TrimKeepsVisible(collapsed);
    }
    assert r == Join(Words(s)) by {
      CollapseKeepsWords(s);
      TrimKeepsWords(collapsed);
      JoinWords(r);
    }
    r
  }

  /** Drops everything from the first "Event type" (any case) on, and trims. */
  function CutAtEventType(s: string): (r: string)
    requires NoEdgeSpace(s) && SingleSpaced(s)
    ensures NoEdgeSpace(r) && SingleSpaced(r)
    ensures !ContainsIgnoreCase(r, EventTypeMarker)
    ensures !ContainsIgnoreCase(s, EventTypeMarker) ==> r == s
    ensures IndexOfIgnoreCase(s, EventTypeMarker).Some? ==>
      Unpadded(r, s[..IndexOfIgnoreCase(s, EventTypeMarker).value])
    ensures Visible(r) <= Visible(s)
  {
    match IndexOfIgnoreCase(s, EventTypeMarker)
    case None => s
    case Some(index) =>
      CutHeadSingleSpaced(s, index);
      CutHeadWithoutMarker(s, index);
      TrimUnpadded(s[..index]);
      CutHeadVisible(s, index);
      Trim(s[..index])
  }

  /** What is kept before a cut is a prefix of the visible text. */
  lemma CutHeadVisible(s: string, index: nat)
    requires index <= |s|
    ensures Visible(Trim(s[..index])) <= Visible(s)
  {
    TakeDrop(s, index);
    TrimmedHeadVisible(s[..index], s[index..]);
  }

  lemma TrimmedHeadVisible(head: string, tail: string)
    ensures Visible(Trim(head)) <= Visible(head + tail)
  {
    TrimKeepsVisible(head);
    VisibleAppend(head, tail);
  }


  lemma CutHeadSingleSpaced(s: string, index: nat)
    requires index <= |s| && SingleSpaced(s)
    ensures SingleSpaced(Trim(s[..index]))
  {
    var head := s[..index];
    SliceSingleSpaced(s, 0, index);
    SliceSingleSpaced(head, TrimOffset(head), TrimOffset(head) + |Trim(head)|);
  }

  lemma CutHeadWithoutMarker(s: string, index: nat)
    requires IndexOfIgnoreCase(s, EventTypeMarker) == Some(index)
    ensures !ContainsIgnoreCase(Trim(s[..index]), EventTypeMarker)
  {
    BeforeFirstMatch(s, EventTypeMarker, index);
    TrimKeepsNotContains(s[..index], EventTypeMarker);
  }

  /** The decoded text without tags that `StripHtml` goes on to clean. */
  function PlainText(input: string, htmlDecode: string -> string): string {
    htmlDecode(RemoveTags(ReplaceAll(input, LineBreakTag, "\n")))
  }

  /** `StripHtml`, given `WebUtility.HtmlDecode` as `htmlDecode`: line breaks
      become newlines, tags are removed, entities decoded, white space
      collapsed and trimmed, and everything from "Event type" on dropped.
      The kept text is the words of the plain text joined by single spaces,
      up to the first marker. */
  function StripHtml(input: string, htmlDecode: string -> string): (r: string)
    ensures input == [] ==> r == []
    ensures NoEdgeSpace(r) && SingleSpaced(r)
    ensures !ContainsIgnoreCase(r, EventTypeMarker)
    ensures '\n' !in r
    ensures input != [] ==> Visible(r) <= Visible(PlainText(input, htmlDecode))
    ensures input != [] && !ContainsIgnoreCase(Join(Words(PlainText(input, htmlDecode))), EventTypeMarker) ==>
      r == Join(Words(PlainText(input, htmlDecode)))
    ensures input != [] && IndexOfIgnoreCase(Join(Words(PlainText(input, htmlDecode))), EventTypeMarker).Some? ==>
      Unpadded(r, Join(Words(PlainText(input, htmlDecode)))
                    [..IndexOfIgnoreCase(Join(Words(PlainText(input, htmlDecode))), EventTypeMarker).value])
  {
    if input == [] then []
    else
      var noHtml := PlainText(input, htmlDecode);
      CutAtEventType(CollapseAndTrim(noHtml))
  }

  /** A line break between two words ends up as a single space. */
  lemma LineBreakBecomesSpace()
    ensures StripHtml("a<br/>b", (s: string) => s) == "a b"
  {
    ReplaceLineBreakExample();
    RemoveTagsExample();
    CollapseAndTrimExample();
    CutExample();
  }

  lemma RemoveTagsExample()
    ensures RemoveTags("a\nb") == "a\nb"
  {
    assert '<' !in "a\nb";
  }

  lemma CollapseAndTrimExample()
    ensures CollapseAndTrim("a\nb") == "a b"
  {
    CollapseLineBreakExample();
    assert NoEdgeSpace("a b");
  }

  lemma CutExample()
    ensures CutAtEventType("a b") == "a b"
  {
    NoEventTypeExample();
  }

  lemma ReplaceLineBreakExample()
    ensures ReplaceAll("a<br/>b", LineBreakTag, "\n") == "a\nb"
  {
    assert ReplaceAll("<br/>b", LineBreakTag, "\n") == "\nb" by {
      assert "<br/>b"[..5] == LineBreakTag;
      assert "<br/>b"[5..] == "b";
    }
    assert "a<br/>b"[..5][0] == 'a';
    assert "a<br/>b"[1..] == "<br/>b";
  }

  lemma CollapseLineBreakExample()
    ensures CollapseWhiteSpace("a\nb") == "a b"
  {
    var s := "a\nb";
    assert !IsWhiteSpace(s[0]) && s[1..] == "\nb";
    CollapseSpaceThenLetter();
    assert CollapseWhiteSpace(s) == [s[0]] + CollapseWhiteSpace(s[1..]);
    assert [s[0]] + " b" == "a b";
  }

  lemma CollapseSpaceThenLetter()
    ensures CollapseWhiteSpace("\nb") == " b"
  {
    assert "\nb"[1..] == "b";
    assert TrimStart("b") == "b";
    CollapseLetter();
  }

  lemma CollapseLetter()
    ensures CollapseWhiteSpace("b") == "b"
  {
    assert "b"[1..] == [];
  }

  lemma NoEventTypeExample()
    ensures !ContainsIgnoreCase("a b", EventTypeMarker)
  {
  }

  /** A string without white space collapses to itself. */
  lemma {:induction false} CollapseOfVisibleWord(s: string)
    requires forall i :: 0 <= i < |s| ==> !IsWhiteSpace(s[i])
    ensures CollapseWhiteSpace(s) == s
  {
    if s != [] {
      CollapseOfVisibleWord(s[1..]);
      assert [s[0]] + s[1..] == s;
    }
  }

  /** White-space-free text in front is kept as it is. */
  lemma {:induction false} CollapseOfVisiblePrefix(a: string, b: string)
    requires forall i :: 0 <= i < |a| ==> !IsWhiteSpace(a[i])
    ensures CollapseWhiteSpace(a + b) == a + CollapseWhiteSpace(b)
  {
    if a == [] {
      assert a + b == b;
    } else {
      assert (a + b)[1..] == a[1..] + b;
      CollapseOfVisiblePrefix(a[1..], b);
      assert [a[0]] + (a[1..] + CollapseWhiteSpace(b)) == a + CollapseWhiteSpace(b);
    }
  }

  /** The description label's text: the cleaned description, or the
      default message when nothing of it remains. */
  function DisplayedDescription(description: string, htmlDecode: string -> string): string {
    var cleaned := StripHtml(description, htmlDecode);
    if cleaned == [] then NoDescriptionMessage else cleaned
  }

  class EventDetailsPanel {
    /** Whether the panel's transform has a parent object in the scene. */
    const hasTransformParent: bool

    var titleText: string
    var timeText: string
    var locationText: string
    var descriptionText: string
    /** `gameObject.activeSelf`. */
    var active: bool
    /** `parent.activeSelf`, for the object in the `parent` field. */
    var parentActive: bool
    /** `transform.parent.gameObject.activeSelf`, the object the event board
        shows and hides; meaningful only with `hasTransformParent`. */
    var transformParentActive: bool

    constructor (hasTransformParent: bool)
      ensures this.hasTransformParent == hasTransformParent
      ensures titleText == [] && timeText == [] && locationText == [] && descriptionText == []
      ensures !active && !parentActive && !transformParentActive
    {
      this.hasTransformParent := hasTransformParent;
      titleText, timeText, locationText, descriptionText := [], [], [], [];
      active, parentActive, transformParentActive := false, false, false;
    }

    /** The labels show these details, the description cleaned, or the
        default message when nothing of it remains; the panel is active. */
    ghost predicate Shows(title: string, time: string, location: string, description: string,
                          htmlDecode: string -> string)
      reads this`titleText, this`timeText, this`locationText, this`descriptionText, this`active
    {
      && titleText == title && timeText == time && locationText == location && active
      && descriptionText == DisplayedDescription(description, htmlDecode)
    }

    /** Fills the labels and activates the panel. */
    method ShowDetails(title: string, time: string, location: string, description: string,
                       htmlDecode: string -> string)
      modifies this`titleText, this`timeText, this`locationText, this`descriptionText, this`active
      ensures Shows(title, time, location, description, htmlDecode)
      ensures descriptionText != [] && NoEdgeSpace(descriptionText)
    {
      titleText := title;
      timeText := time;
      locationText := location;
      var cleanedDescription := StripHtml(description, htmlDecode);
      TrimmedBlankIsEmpty(cleanedDescription);
      if AllWhiteSpace(cleanedDescription) {
        cleanedDescription := NoDescriptionMessage;
      }
      descriptionText := cleanedDescription;
      active := true;
    }

    /** Deactivates the object in the `parent` field. */
    method Hide()
      modifies this`parentActive
      ensures !parentActive
    {
      parentActive := false;
    }
  }
}
