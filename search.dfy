/** The search box (`BuildingSearchUI`): up to six suggestions that start
    with what has been typed, and a search that focuses the named building. */
module SearchUI {
  import opened Strings
  import opened Buildings
  import opened BuildingLookup

  const MaxSuggestions: nat := 6

  const EmptyQueryMessage: string := "Please enter a location name."

  function NotFoundMessage(query: string): string {
    "No location found for '" + query + "'"
  }

  /** The names that start with `input` (ignoring case), in order. */
  function WithPrefix(names: seq<string>, input: string): (r: seq<string>)
    ensures forall s :: s in r <==> s in names && StartsWithIgnoreCase(s, input)
    ensures IsSubsequence(r, names)
  {
    if names == [] then []
    else
      var rest := WithPrefix(names[1..], input);
      if StartsWithIgnoreCase(names[0], input) then
        assert ([names[0]] + rest)[1..] == rest;
        [names[0]] + rest
      else
        SubsequenceCons(rest, names[1..], names[0]);
        assert [names[0]] + names[1..] == names;
        rest
  }

  /** The `Where(StartsWith).Take(6)` filter: the first six names that start
      with the input, or all of them when there are fewer. */
  function FilteredSuggestions(all: seq<string>, input: string): (r: seq<string>)
    ensures |r| <= MaxSuggestions
    ensures r <= WithPrefix(all, input)
    ensures |r| < MaxSuggestions ==> r == WithPrefix(all, input)
    ensures forall s :: s in r ==> s in all && StartsWithIgnoreCase(s, input)
  {
    var w := WithPrefix(all, input);
    if |w| <= MaxSuggestions then w else w[..MaxSuggestions]
  }

  /** A name that starts with the input also contains it. */
  lemma StartsWithContains(s: string, p: string)
    requires StartsWithIgnoreCase(s, p)
    ensures ContainsIgnoreCase(s, p)
  {
    assert MatchesAt(s, p, 0);
  }

  /** Filtering the registry's "contains" suggestions by "starts with" is
      the same as filtering all registered keys by "starts with". */
  lemma {:induction false} WithPrefixOfContaining(keys: seq<string>, input: string)
    ensures WithPrefix(KeysContaining(keys, input), input) == WithPrefix(keys, input)
  {
    if keys != [] {
      WithPrefixOfContaining(keys[1..], input);
      var rest := KeysContaining(keys[1..], input);
      if StartsWithIgnoreCase(keys[0], input) {
        StartsWithContains(keys[0], input);
        assert ([keys[0]] + rest)[1..] == rest;
      } else if ContainsIgnoreCase(keys[0], input) {
        assert ([keys[0]] + rest)[1..] == rest;
      }
    }
  }

  /** What the panel shows for `input`: nothing for an empty input, else
      the first six registered names that start with the input. */
  lemma ShownAreFirstKeysWithPrefix(r: Registry, input: string)
    requires input != []
    ensures FilteredSuggestions(Suggestions(r, input), input) == FilteredSuggestions(r.keys, input)
  {
    WithPrefixOfContaining(r.keys, input);
  }

  /** What a search did. */
  datatype SearchOutcome = EmptyQuery | Found(building: Building) | NotFound(query: string)

  /** What searching the registry for the trimmed `query` gives: nothing to
      search for, the building registered under that name (ignoring case),
      or no such building. */
  function SearchResult(r: Registry, query: string): (outcome: SearchOutcome)
    requires WellFormed(r)
    ensures outcome.EmptyQuery? <==> query == []
    ensures outcome.Found? <==> query != [] && Lookup(r, query).Some?
    ensures outcome.Found? ==> outcome.building == Lookup(r, query).value
    ensures outcome.NotFound? ==> outcome.query == query
  {
    if query == [] then EmptyQuery
    else match Lookup(r, query)
      case Some(b) => Found(b)
      case None => NotFound(query)
  }

  /** The feedback label's text after a search. */
  function FeedbackFor(outcome: SearchOutcome): string {
    match outcome
    case EmptyQuery => EmptyQueryMessage
    case Found(_) => ""
    case NotFound(q) => NotFoundMessage(q)
  }

  class BuildingSearchUI {
    const manager: BuildingLookupManager
    /** Whether the optional feedback label is assigned in the inspector. */
    const hasFeedbackText: bool

    /** The search field's text. */
    var inputText: string
    var panelActive: bool
    /** The suggestion items currently under the panel. */
    var shownSuggestions: seq<string>
    var feedback: string

    ghost predicate Valid()
      reads manager.Repr()
    {
      manager.Valid() && this !in manager.Repr()
    }

    /** The component after `Start`: the panel hidden. */
    constructor (manager: BuildingLookupManager, hasFeedbackText: bool)
      requires manager.Valid()
      ensures Valid()
      ensures this.manager == manager && this.hasFeedbackText == hasFeedbackText
      ensures inputText == [] && !panelActive && shownSuggestions == [] && feedback == []
    {
      this.manager, this.hasFeedbackText := manager, hasFeedbackText;
      inputText, panelActive, shownSuggestions, feedback := [], false, [], [];
    }

    /** Rebuilds the item list; the panel is shown only when it has items. */
    method UpdateSuggestions(input: string)
      modifies this`shownSuggestions, this`panelActive
      ensures input == [] ==> shownSuggestions == []
      ensures input != [] ==> shownSuggestions == FilteredSuggestions(manager.buildingDict.keys, input)
      ensures panelActive <==> shownSuggestions != []
      ensures |shownSuggestions| <= MaxSuggestions
    {
      shownSuggestions := [];
      if input == [] {
        panelActive := false;
        return;
      }
      var allSuggestions := manager.GetSuggestions(input);
      var filtered := FilteredSuggestions(allSuggestions, input);
      ShownAreFirstKeysWithPrefix(manager.buildingDict, input);
      if |filtered| == 0 {
        panelActive := false;
        return;
      }
      shownSuggestions := filtered;
      panelActive := true;
    }

    /** The user edits the field to `currentText`. */
    method OnInputChanged(currentText: string)
      modifies this`inputText, this`shownSuggestions, this`panelActive
      ensures inputText == currentText
      ensures currentText != [] ==> shownSuggestions == FilteredSuggestions(manager.buildingDict.keys, currentText)
      ensures currentText == [] ==> shownSuggestions == []
      ensures panelActive <==> shownSuggestions != []
    {
      inputText := currentText;
      UpdateSuggestions(currentText);
    }

    /** Copies the clicked suggestion into the field and hides the panel.
        Setting the field's text to a new value fires `onValueChanged`, so
        the items are rebuilt for the suggestion before the panel hides. */
    method OnSuggestionClicked(suggestion: string)
      modifies this`inputText, this`panelActive, this`shownSuggestions
      ensures inputText == suggestion && !panelActive
      ensures suggestion == old(inputText) ==> shownSuggestions == old(shownSuggestions)
      ensures suggestion != old(inputText) && suggestion != [] ==>
        shownSuggestions == FilteredSuggestions(manager.buildingDict.keys, suggestion)
      ensures suggestion != old(inputText) && suggestion == [] ==> shownSuggestions == []
    {
      if suggestion != inputText {
        OnInputChanged(suggestion);
      }
      panelActive := false;
    }

    /** Searches for the trimmed field text and focuses the building it names. */
    method OnSearchClicked() returns (outcome: SearchOutcome)
      requires Valid()
      modifies this`panelActive, this`feedback, manager.Repr()
      ensures Valid()
      ensures !panelActive
      ensures manager.buildingDict == old(manager.buildingDict)
      ensures outcome == SearchResult(manager.buildingDict, Trim(inputText))
      ensures outcome.EmptyQuery? || outcome.NotFound? ==> unchanged(manager.Repr())
      ensures outcome.Found? ==> manager.FocusedOn(outcome.building, old(manager.FocusState()))
      ensures feedback == if hasFeedbackText then FeedbackFor(outcome) else old(feedback)
    {
      panelActive := false;
      outcome := SearchAndFocus(inputText);
      if hasFeedbackText {
        feedback := FeedbackFor(outcome);
      }
    }

    /** The lookup of the trimmed text and the focus on what it finds. */
    method SearchAndFocus(text: string) returns (outcome: SearchOutcome)
      requires Valid()
      modifies manager.Repr()
      ensures Valid()
      ensures manager.buildingDict == old(manager.buildingDict)
      ensures outcome == SearchResult(manager.buildingDict, Trim(text))
      ensures outcome.EmptyQuery? || outcome.NotFound? ==> unchanged(manager.Repr())
      ensures outcome.Found? ==> manager.FocusedOn(outcome.building, old(manager.FocusState()))
    {
      var query := Trim(text);
      if query == [] {
        return EmptyQuery;
      }
      var building := manager.GetBuildingByName(query);
      if building.Some? {
        manager.FocusBuilding(building);
        outcome := Found(building.value);
      } else {
        outcome := NotFound(query);
      }
    }

    /** Submitting the field searches, as the button does. */
    method OnInputSubmit(input: string) returns (outcome: SearchOutcome)
      requires Valid()
      modifies this`panelActive, this`feedback, manager.Repr()
      ensures Valid()
      ensures !panelActive && manager.buildingDict == old(manager.buildingDict)
      ensures outcome == SearchResult(manager.buildingDict, Trim(inputText))
      ensures outcome.EmptyQuery? || outcome.NotFound? ==> unchanged(manager.Repr())
      ensures outcome.Found? ==> manager.FocusedOn(outcome.building, old(manager.FocusState()))
      ensures feedback == if hasFeedbackText then FeedbackFor(outcome) else old(feedback)
    {
      outcome := OnSearchClicked();
    }
  }
}
