/** The part of the event feed renderer (`EventScraperUIGrouped`) that finds
    a building's name in an event's location text and wraps it in a
    clickable rich-text link. */
module LocationLinks {
  import opened Strings
  import opened Buildings
  import opened WordMatch
  import opened EventDetails

  /** The first offset at or after `from` that is not white space. */
  function SkipWhiteSpace(s: string, from: nat): (r: nat)
    requires from <= |s|
    ensures from <= r <= |s|
    ensures forall k :: from <= k < r ==> IsWhiteSpace(s[k])
    ensures r < |s| ==> !IsWhiteSpace(s[r])
    decreases |s| - from
  {
    if from < |s| && IsWhiteSpace(s[from]) then SkipWhiteSpace(s, from + 1) else from
  }

  /** The first offset at or after `from` that is not a digit. */
  function SkipDigits(s: string, from: nat): (r: nat)
    requires from <= |s|
    ensures from <= r <= |s|
    ensures forall k :: from <= k < r ==> IsDigit(s[k])
    ensures r < |s| ==> !IsDigit(s[r])
    decreases |s| - from
  {
    if from < |s| && IsDigit(s[from]) then SkipDigits(s, from + 1) else from
  }

  /** A match ending at `end` is extended over the white space that follows
      it and then over the digits after that ("AC 101"). */
  function ExtendedEnd(s: string, end: nat): (r: nat)
    requires end <= |s|
    ensures end <= r <= |s|
    ensures forall k :: end <= k < r ==> IsWhiteSpace(s[k]) || IsDigit(s[k])
  {
    SkipDigits(s, SkipWhiteSpace(s, end))
  }

  /** The two `while` loops that extend a match. */
  method ExtendMatchEnd(location: string, matchEnd0: nat) returns (matchEnd: nat)
    requires matchEnd0 <= |location|
    ensures matchEnd == ExtendedEnd(location, matchEnd0)
  {
    matchEnd := matchEnd0;
    while matchEnd < |location| && IsWhiteSpace(location[matchEnd])
      invariant matchEnd0 <= matchEnd <= |location|
      invariant SkipWhiteSpace(location, matchEnd) == SkipWhiteSpace(location, matchEnd0)
      decreases |location| - matchEnd
    {
      matchEnd := matchEnd + 1;
    }
    ghost var afterSpace := matchEnd;
    while matchEnd < |location| && IsDigit(location[matchEnd])
      invariant afterSpace <= matchEnd <= |location|
      invariant SkipDigits(location, matchEnd) == SkipDigits(location, afterSpace)
      decreases |location| - matchEnd
    {
      matchEnd := matchEnd + 1;
    }
  }

  /** A candidate name's match in a location: where it starts, how long it
      is once extended, whether the extension took anything in, and whose
      name it was. */
  datatype MatchInfo = MatchInfo(start: nat, length: nat, extended: bool, building: Building)

  /** A building together with one of its names. */
  datatype Candidate = Candidate(building: Building, name: string)

  /** The leftmost whole-word match of the candidate's name, extended. */
  function MatchOf(location: string, c: Candidate): (m: Option<MatchInfo>)
    ensures m.None? <==> FirstWholeWord(location, c.name).None?
    ensures m.Some? ==>
      && Some(m.value.start) == FirstWholeWord(location, c.name)
      && m.value.building == c.building
      && m.value.start + m.value.length <= |location|
      && |c.name| <= m.value.length
      && (m.value.extended <==> m.value.length > |c.name|)
    ensures m.Some? ==> forall k :: m.value.start + |c.name| <= k < m.value.start + m.value.length ==>
      IsWhiteSpace(location[k]) || IsDigit(location[k])
  {
    match FirstWholeWord(location, c.name)
    case None => None
    case Some(index) =>
      var matchEnd := ExtendedEnd(location, index + |c.name|);
      var matchLength := matchEnd - index;
      Some(MatchInfo(index, matchLength, matchLength > |c.name|, c.building))
  }

  /** The replacement rule of the search: an extended match beats one that
      is not, and otherwise the longer match wins.  Where a match starts
      does not matter. */
  predicate Better(m: MatchInfo, best: MatchInfo) {
    (m.extended && !best.extended) || (m.extended == best.extended && m.length > best.length)
  }

  /** `Better` is a strict order ... */
  lemma BetterIsStrict(a: MatchInfo, b: MatchInfo, c: MatchInfo)
    ensures !Better(a, a)
    ensures Better(a, b) ==> !Better(b, a)
    ensures Better(a, b) && Better(b, c) ==> Better(a, c)
  {
  }

  /** ... in which any two matches are comparable: beating `b` means beating
      everything `b` is not beaten by. */
  lemma BetterThrough(a: MatchInfo, b: MatchInfo, c: MatchInfo)
    requires Better(a, b) && !Better(c, b)
    ensures Better(a, c)
  {
  }

  /** One step of the search: the candidate's match replaces the best so far
      when there is none yet or when it is `Better`. */
  function Consider(best: Option<MatchInfo>, m: Option<MatchInfo>): Option<MatchInfo> {
    if m.None? then best
    else if best.None? || Better(m.value, best.value) then m
    else best
  }

  /** The best of the candidates' matches, considered in order. */
  function BestOf(ms: seq<Option<MatchInfo>>): Option<MatchInfo>
    decreases |ms|
  {
    if ms == [] then None else Consider(BestOf(ms[..|ms| - 1]), ms[|ms| - 1])
  }

  /** Match `k` is the first of the best matches: no match beats it and it
      beats every match before it. */
  predicate IsFirstBest(ms: seq<Option<MatchInfo>>, k: nat)
    requires k < |ms|
  {
    && ms[k].Some?
    && (forall j :: 0 <= j < k && ms[j].Some? ==> Better(ms[k].value, ms[j].value))
    && (forall j :: 0 <= j < |ms| && ms[j].Some? ==> !Better(ms[j].value, ms[k].value))
  }

  /** The search finds nothing exactly when no candidate matches, and
      otherwise keeps the first of the best matches. */
  lemma {:induction false} BestOfIsFirstBest(ms: seq<Option<MatchInfo>>)
    ensures BestOf(ms).None? <==> forall k :: 0 <= k < |ms| ==> ms[k].None?
    ensures BestOf(ms).Some? ==> exists k :: 0 <= k < |ms| && IsFirstBest(ms, k) && BestOf(ms) == ms[k]
    decreases |ms|
  {
    if ms != [] {
      var n := |ms| - 1;
      var front := ms[..n];
      BestOfIsFirstBest(front);
      var before := BestOf(front);
      var m := ms[n];
      assert forall k :: 0 <= k < n ==> front[k] == ms[k];
      if before.Some? {
        var k :| 0 <= k < n && IsFirstBest(front, k) && before == front[k];
        if m.Some? && Better(m.value, before.value) {
          forall j | 0 <= j < n && ms[j].Some?
            ensures Better(m.value, ms[j].value)
          {
            BetterThrough(m.value, before.value, ms[j].value);
          }
          forall j | 0 <= j <= n && ms[j].Some?
            ensures !Better(ms[j].value, m.value)
          {
            BetterIsStrict(m.value, ms[j].value, m.value);
          }
          assert IsFirstBest(ms, n);
        } else {
          assert IsFirstBest(ms, k);
        }
      } else if m.Some? {
        assert IsFirstBest(ms, n);
      }
    }
  }

  /** Each candidate's match, in candidate order. */
  function MatchesOf(location: string, cs: seq<Candidate>): (ms: seq<Option<MatchInfo>>)
    ensures |ms| == |cs|
    ensures forall k :: 0 <= k < |cs| ==> ms[k] == MatchOf(location, cs[k])
  {
    seq(|cs|, k requires 0 <= k < |cs| => MatchOf(location, cs[k]))
  }

  /** The names tried for a building: its canonical name unless empty, then
      every alias, an empty alias included. */
  function CandidateNames(b: Building): (names: seq<string>)
    ensures forall n :: n in names <==> (n == CanonicalName(b) && n != []) || n in Aliases(b)
  {
    (if CanonicalName(b) != [] then [CanonicalName(b)] else []) + Aliases(b)
  }

  function Pairs(b: Building, names: seq<string>): (cs: seq<Candidate>)
    ensures |cs| == |names|
    ensures forall k :: 0 <= k < |names| ==> cs[k] == Candidate(b, names[k])
  {
    seq(|names|, k requires 0 <= k < |names| => Candidate(b, names[k]))
  }

  /** Every building's names, building by building in the given order. */
  function AllCandidates(bs: seq<Building>): seq<Candidate>
    decreases |bs|
  {
    if bs == [] then []
    else
      var b := bs[|bs| - 1];
      AllCandidates(bs[..|bs| - 1]) + Pairs(b, CandidateNames(b))
  }

  /** The candidates are exactly the buildings' names. */
  lemma {:induction false} AllCandidatesMembers(bs: seq<Building>, c: Candidate)
    ensures c in AllCandidates(bs) <==> c.building in bs && c.name in CandidateNames(c.building)
    decreases |bs|
  {
    if bs != [] {
      var front := bs[..|bs| - 1];
      var b := bs[|bs| - 1];
      AllCandidatesMembers(front, c);
      assert bs == front + [b];
      var p := Pairs(b, CandidateNames(b));
      assert c in p <==> c.building == b && c.name in CandidateNames(b) by {
        if c in p {
          var k :| 0 <= k < |p| && p[k] == c;
        }
        if c.building == b && c.name in CandidateNames(b) {
          var k :| 0 <= k < |CandidateNames(b)| && CandidateNames(b)[k] == c.name;
          assert p[k] == c;
        }
      }
    }
  }

  /** The best match in a location over all the buildings' names. */
  function BestMatch(location: string, buildings: seq<Building>): Option<MatchInfo> {
    BestOf(MatchesOf(location, AllCandidates(buildings)))
  }

  /** The best match belongs to one of the buildings and is a whole-word match
      of one of its names. */
  lemma BestMatchIsAName(location: string, buildings: seq<Building>)
    requires BestMatch(location, buildings).Some?
    ensures var m := BestMatch(location, buildings).value;
      && m.building in buildings
      && m.start + m.length <= |location|
      && exists name :: name in CandidateNames(m.building) && WholeWordAt(location, name, m.start)
  {
    var cs := AllCandidates(buildings);
    var ms := MatchesOf(location, cs);
    BestOfIsFirstBest(ms);
    var k :| 0 <= k < |ms| && IsFirstBest(ms, k) && BestOf(ms) == ms[k];
    AllCandidatesMembers(buildings, cs[k]);
  }

  /** Considering one more candidate. */
  lemma BestOfSnoc(location: string, tried: seq<Candidate>, c: Candidate)
    ensures BestOf(MatchesOf(location, tried + [c])) == Consider(BestOf(MatchesOf(location, tried)), MatchOf(location, c))
  {
    var ms := MatchesOf(location, tried + [c]);
    assert ms[..|tried|] == MatchesOf(location, tried);
  }

  /** The candidate loop of the renderer: every building's names, in order,
      each tried with the whole-word pattern and extended; a match that is
      the first or `Better` than the best so far replaces it. */
  method FindBestMatch(location: string, buildings: seq<Building>) returns (best: Option<MatchInfo>)
    ensures best == BestMatch(location, buildings)
  {
    best := None;
    var i := 0;
    while i < |buildings|
      invariant 0 <= i <= |buildings|
      invariant best == BestOf(MatchesOf(location, AllCandidates(buildings[..i])))
    {
      best := TryBuilding(location, buildings[i], AllCandidates(buildings[..i]), best);
      assert buildings[..i + 1][..i] == buildings[..i];
      i := i + 1;
    }
    assert buildings[..i] == buildings;
  }

  lemma PairsSnoc(done: seq<Candidate>, b: Building, names: seq<string>, j: nat)
    requires j < |names|
    ensures done + Pairs(b, names[..j + 1]) == done + Pairs(b, names[..j]) + [Candidate(b, names[j])]
  {
  }

  /** The regular-expression match of one name and its extension. */
  method MatchCandidate(location: string, building: Building, candidate: string)
    returns (m: Option<MatchInfo>)
    ensures m == MatchOf(location, Candidate(building, candidate))
  {
    var found := FirstWholeWord(location, candidate);
    if found.None? {
      return None;
    }
    var index := found.value;
    var matchEnd := ExtendMatchEnd(location, index + |candidate|);
    var matchLength := matchEnd - index;
    var extended := matchLength > |candidate|;
    m := Some(MatchInfo(index, matchLength, extended, building));
  }

  /** The inner loop over one building's names. */
  method TryBuilding(location: string, building: Building, ghost done: seq<Candidate>,
                     best0: Option<MatchInfo>) returns (best: Option<MatchInfo>)
    requires best0 == BestOf(MatchesOf(location, done))
    ensures best == BestOf(MatchesOf(location, done + Pairs(building, CandidateNames(building))))
  {
    best := best0;
    var candidates := CandidateNames(building);
    var j := 0;
    assert done + Pairs(building, candidates[..0]) == done;
    while j < |candidates|
      invariant 0 <= j <= |candidates|
      invariant best == BestOf(MatchesOf(location, done + Pairs(building, candidates[..j])))
    {
      var candidate := candidates[j];
      ghost var tried := done + Pairs(building, candidates[..j]);
      PairsSnoc(done, building, candidates, j);
      BestOfSnoc(location, tried, Candidate(building, candidate));
      var m := MatchCandidate(location, building, candidate);
      if m.Some? && (best.None? || (m.value.extended && !best.value.extended)
         || (m.value.extended == best.value.extended && m.value.length > best.value.length))
      {
        best := m;
      }
      j := j + 1;
    }
    assert candidates[..j] == candidates;
  }

  /** The rich-text tags around a location link. */
  function LinkTag(linkId: string): string {
    "<link=\"" + linkId + "\">"
  }

  const UnderlineOpen: string := "<u>"
  const ColorOpen: string := "<color=#0000FF>"
  const ColorClose: string := "</color>"
  const UnderlineClose: string := "</u>"
  const LinkCloseTag: string := "</link>"

  /** The location text with the matched part wrapped in a blue underlined
      link: `before<link="id"><u><color=#0000FF>matched</color></u></link>after`. */
  function Splice(location: string, m: MatchInfo, linkId: string): string
    requires m.start + m.length <= |location|
  {
    location[..m.start]
    + (LinkTag(linkId) + (UnderlineOpen + (ColorOpen + (location[m.start..m.start + m.length]
    + (ColorClose + (UnderlineClose + (LinkCloseTag + location[m.start + m.length..])))))))
  }

  /** Removing tags keeps a prefix without `<`. */
  lemma {:induction false} RemoveTagsPlainPrefix(a: string, b: string)
    requires '<' !in a
    ensures RemoveTags(a + b) == a + RemoveTags(b)
    decreases |a|
  {
    if a != [] {
      assert a[0] in a;
      HeadAppend(a, b);
      RemoveTagsCons(a[0], a[1..] + b);
      NotInSlice(a, '<', 1, |a|);
      RemoveTagsPlainPrefix(a[1..], b);
      HeadAppend(a, RemoveTags(b));
    } else {
      assert a + b == b;
    }
  }

  /** A character other than `<` is kept. */
  lemma RemoveTagsCons(c: char, s: string)
    requires c != '<'
    ensures RemoveTags([c] + s) == [c] + RemoveTags(s)
  {
    assert ([c] + s)[1..] == s;
  }

  /** `t` is one tag: `<`, then no `>` or line feed, then `>`. */
  predicate IsTag(t: string) {
    && |t| >= 2 && t[0] == '<' && t[|t| - 1] == '>'
    && forall k :: 1 <= k < |t| - 1 ==> t[k] != '>' && t[k] != '\n'
  }

  /** A tag is removed whole. */
  lemma RemoveTagsTag(t: string, b: string)
    requires IsTag(t)
    ensures RemoveTags(t + b) == RemoveTags(b)
  {
    var s := t + b;
    var j := |t| - 2;
    TagEndAt(s[1..], j);
    assert s[j + 2..] == b;
  }

  /** The first `>` on the line is where the tag ends. */
  lemma {:induction false} TagEndAt(t: string, j: nat)
    requires j < |t| && t[j] == '>'
    requires forall k :: 0 <= k < j ==> t[k] != '>' && t[k] != '\n'
    ensures TagEnd(t) == Some(j)
    decreases j
  {
    if j > 0 {
      TagEndAt(t[1..], j - 1);
    }
  }

  lemma LinkTagIsTag(linkId: string)
    requires '>' !in linkId && '\n' !in linkId
    ensures IsTag(LinkTag(linkId))
  {
    var t := LinkTag(linkId);
    assert forall k :: 7 <= k < 7 + |linkId| ==> t[k] == linkId[k - 7];
  }

  lemma FixedTagsAreTags()
    ensures IsTag(UnderlineOpen) && IsTag(ColorOpen) && IsTag(ColorClose)
    ensures IsTag(UnderlineClose) && IsTag(LinkCloseTag)
  {
  }

  /** Removing the tags around the linked part leaves the plain parts. */
  lemma {:induction false} UnwrapParts(before: string, linkTag: string, linked: string, after: string)
    requires IsTag(linkTag)
    requires '<' !in before && '<' !in linked && '<' !in after
    ensures RemoveTags(before + (linkTag + (UnderlineOpen + (ColorOpen + (linked
      + (ColorClose + (UnderlineClose + (LinkCloseTag + after)))))))) == before + (linked + after)
  {
    FixedTagsAreTags();
    var a5 := LinkCloseTag + after;
    var a4 := UnderlineClose + a5;
    var a3 := ColorClose + a4;
    var a2 := linked + a3;
    var a1 := ColorOpen + a2;
    var a0 := UnderlineOpen + a1;
    RemoveTagsTag(LinkCloseTag, after);
    RemoveTagsTag(UnderlineClose, a5);
    RemoveTagsTag(ColorClose, a4);
    RemoveTagsPlainPrefix(linked, a3);
    RemoveTagsTag(ColorOpen, a2);
    RemoveTagsTag(UnderlineOpen, a1);
    RemoveTagsTag(linkTag, a0);
    RemoveTagsPlainPrefix(before, linkTag + a0);
    RemoveTagsPlainPrefix(after, []);
    assert after + [] == after;
  }

  /** Removing the markup from a displayed location gives back the location:
      the link only wraps the matched text. */
  lemma SpliceUnwraps(location: string, m: MatchInfo, linkId: string)
    requires m.start + m.length <= |location|
    requires '<' !in location
    requires '>' !in linkId && '\n' !in linkId
    ensures RemoveTags(Splice(location, m, linkId)) == location
  {
    var i, j := m.start, m.start + m.length;
    PlainSlices(location, i, j);
    LinkTagIsTag(linkId);
    UnwrapParts(location[..i], LinkTag(linkId), location[i..j], location[j..]);
    SplitAt(location, i, j);
  }

  /** The three parts of a location without `<` have none either. */
  lemma PlainSlices(location: string, i: nat, j: nat)
    requires i <= j <= |location| && '<' !in location
    ensures '<' !in location[..i] && '<' !in location[i..j] && '<' !in location[j..]
  {
    NotInSlice(location, '<', 0, i);
    NotInSlice(location, '<', i, j);
    NotInSlice(location, '<', j, |location|);
    assert location[0..i] == location[..i] && location[j..|location|] == location[j..];
  }

  /** What the renderer shows for a location: the location with its best
      match turned into a link with the given id, and the linked building;
      an empty location, or a renderer without a lookup manager, is shown
      as it is. */
  function LocationDisplay(location: string, buildings: Option<seq<Building>>, linkId: string)
    : (r: (string, Option<Building>))
    ensures (buildings.None? || location == []) ==> r == (location, None)
    ensures r.1.Some? ==> buildings.Some? && r.1.value in buildings.value
    ensures r.1.None? ==> r.0 == location
  {
    if buildings.None? || location == [] then (location, None)
    else
      match BestMatch(location, buildings.value)
      case None => (location, None)
      case Some(m) =>
        BestMatchIsAName(location, buildings.value);
        (Splice(location, m, linkId), Some(m.building))
  }

  /** A location without markup of its own is shown with the link markup
      around one part of it and nothing else changed. */
  lemma LocationDisplayUnwraps(location: string, buildings: Option<seq<Building>>, linkId: string)
    requires '<' !in location && '>' !in linkId && '\n' !in linkId
    ensures RemoveTags(LocationDisplay(location, buildings, linkId).0) == location
  {
    if buildings.Some? && location != [] {
      var best := BestMatch(location, buildings.value);
      if best.Some? {
        BestMatchIsAName(location, buildings.value);
        SpliceUnwraps(location, best.value, linkId);
      }
    }
  }

  /** The room number after a name is taken into the link: a match of
      "AC" in "AC 101" is extended to the whole text. */
  lemma ExtensionTakesRoomNumber()
    ensures ExtendedEnd("AC 101", 2) == 6
  {
    var s := "AC 101";
    assert s[2] == ' ' && s[3] == '1' && s[4] == '0' && s[5] == '1';
    assert SkipWhiteSpace(s, 3) == 3;
    assert SkipWhiteSpace(s, 2) == 3;
    assert SkipDigits(s, 6) == 6;
    assert SkipDigits(s, 3) == 6;
  }
}
