/** The event feed of `EventScraperUIGrouped`, after the RSS download and
    the XML parsing: which items become events, their description text,
    their order, their grouping by day and the ids of their links. */
module EventFeed {
  import opened Strings
  import opened WordMatch

  /** One `<item>` of the feed: its text fields and its parsed start and end
      (`None` where `DateTime.TryParse` fails). */
  datatype FeedItem = FeedItem(
    title: string,
    description: string,
    pubDate: string,
    location: string,
    dtStart: Option<int>,
    dtEnd: Option<int>)

  /** `EventInfo`. */
  datatype EventInfo = EventInfo(
    title: string,
    description: string,
    pubDate: string,
    location: string,
    dtStart: int,
    dtEnd: int)

  /** `DateTime.MinValue`, what a failed `TryParse` leaves in `dtend`. */
  const MinDateTime: int := 0

  const CancelledWord: string := "cancelled"
  const EventTypeColon: string := "Event type:"

  /** The alternatives of the time-zone pattern. */
  const TimeZones: seq<string> := ["PST", "PDT", "EST", "EDT", "CST", "CDT", "MST", "MDT"]

  /** Some time-zone token starts at `i` as a whole word, ignoring case. */
  predicate TimeZoneAt(s: string, i: nat) {
    exists k :: 0 <= k < |TimeZones| && WholeWordAt(s, TimeZones[k], i)
  }

  /** Every token is three letters long, so a token at `i` ends at `i + 3`. */
  lemma TimeZoneLength(s: string, i: nat)
    requires TimeZoneAt(s, i)
    ensures i + 3 <= |s|
  {
    var k :| 0 <= k < |TimeZones| && WholeWordAt(s, TimeZones[k], i);
    assert |TimeZones[k]| == 3;
  }

  function FirstTimeZoneFrom(s: string, from: nat): (r: Option<nat>)
    requires from <= |s| + 1
    ensures r.Some? ==> from <= r.value && TimeZoneAt(s, r.value)
    ensures r.Some? ==> forall j :: from <= j < r.value ==> !TimeZoneAt(s, j)
    ensures r.None? ==> forall j: nat :: from <= j ==> !TimeZoneAt(s, j)
    decreases |s| + 1 - from
  {
    if from > |s| then
      assert forall j: nat :: from <= j ==> !TimeZoneAt(s, j) by {
        forall j: nat | from <= j && TimeZoneAt(s, j) ensures false {
          TimeZoneLength(s, j);
        }
      }
      None
    else if TimeZoneAt(s, from) then Some(from)
    else FirstTimeZoneFrom(s, from + 1)
  }

  /** Where the time-zone pattern first matches. */
  function FirstTimeZone(s: string): (r: Option<nat>)
    ensures r.Some? ==> TimeZoneAt(s, r.value) && r.value + 3 <= |s|
    ensures r.Some? ==> forall j :: 0 <= j < r.value ==> !TimeZoneAt(s, j)
    ensures r.None? <==> forall j: nat :: !TimeZoneAt(s, j)
  {
    var r := FirstTimeZoneFrom(s, 0);
    if r.Some? then TimeZoneLength(s, r.value); r else r
  }

  /** `r` is the slice of `s` that starts at `a`. */
  predicate SliceAt(r: string, s: string, a: nat) {
    a + |r| <= |s| && r == s[a..a + |r|]
  }

  /** `r` occurs in `s` at an offset of at least `from`. */
  ghost predicate OccursFrom(r: string, s: string, from: nat) {
    exists a: nat :: from <= a && SliceAt(r, s, a)
  }

  lemma OccursFromTrans(r: string, t: string, s: string, from: nat)
    requires OccursFrom(r, t, 0) && OccursFrom(t, s, from)
    ensures OccursFrom(r, s, from)
  {
    var a: nat :| SliceAt(r, t, a);
    var b: nat :| from <= b && SliceAt(t, s, b);
    SliceOfSlice(s, b, b + |t|, a, a + |r|);
    assert SliceAt(r, s, b + a);
  }

  lemma TrimSlice(s: string)
    ensures SliceAt(Trim(s), s, TrimOffset(s))
  {
  }

  /** What follows the first time-zone token, or all of `d` without one. */
  function ZoneTail(d: string): string {
    match FirstTimeZone(d)
    case None => d
    case Some(i) => d[i + 3..]
  }

  /** The text after the first time-zone token, trimmed; text without a
      token is kept. */
  function AfterTimeZone(d: string): (r: string)
    requires NoEdgeSpace(d)
    ensures NoEdgeSpace(r)
    ensures FirstTimeZone(d).None? ==> r == d
    ensures FirstTimeZone(d).Some? ==> OccursFrom(r, d, FirstTimeZone(d).value + 3)
    ensures Unpadded(r, ZoneTail(d))
  {
    TrimUnpadded(ZoneTail(d));
    ZoneTailOccurs(d);
    match FirstTimeZone(d)
    case None => d
    case Some(i) => Trim(d[i + 3..])
  }

  /** The trimmed tail lies in `d` after the token. */
  lemma ZoneTailOccurs(d: string)
    ensures FirstTimeZone(d).Some? ==> OccursFrom(Trim(ZoneTail(d)), d, FirstTimeZone(d).value + 3)
  {
    match FirstTimeZone(d)
    case None =>
    case Some(i) =>
      var rest := d[i + 3..];
      TrimSlice(rest);
      assert SliceAt(Trim(rest), d, i + 3 + TrimOffset(rest));
  }

  /** The text before the first "Event type:", trimmed; text without the
      marker is kept. */
  function CutAtMarker(z: string): (r: string)
    requires NoEdgeSpace(z)
    ensures NoEdgeSpace(r)
    ensures !ContainsIgnoreCase(r, EventTypeColon)
    ensures !ContainsIgnoreCase(z, EventTypeColon) ==> r == z
    ensures IndexOfIgnoreCase(z, EventTypeColon).Some? ==>
      Unpadded(r, z[..IndexOfIgnoreCase(z, EventTypeColon).value])
    ensures OccursFrom(r, z, 0)
  {
    match IndexOfIgnoreCase(z, EventTypeColon)
    case None =>
      assert SliceAt(z, z, 0);
      z
    case Some(index) =>
      var head := z[..index];
      BeforeFirstMatch(z, EventTypeColon, index);
      TrimKeepsNotContains(head, EventTypeColon);
      TrimSlice(head);
      TrimUnpadded(head);
      assert SliceAt(Trim(head), z, TrimOffset(head));
      Trim(head)
  }

  /** `ExtractEventDetails`: empty input gives ""; otherwise the trimmed
      description loses everything up to and including the first whole-word
      time-zone token, then everything from the first "Event type:" on, and
      the result is trimmed.  With `tail` what follows the token in the
      trimmed description, the result is `tail` without its padding, or the
      part of `tail` before its first marker without its padding. */
  function ExtractEventDetails(raw: string): (r: string)
    ensures raw == [] ==> r == []
    ensures NoEdgeSpace(r)
    ensures !ContainsIgnoreCase(r, EventTypeColon)
    ensures FirstTimeZone(Trim(raw)).None? && !ContainsIgnoreCase(Trim(raw), EventTypeColon) ==>
      r == Trim(raw)
    ensures raw != [] && FirstTimeZone(Trim(raw)).Some? ==>
      OccursFrom(r, Trim(raw), FirstTimeZone(Trim(raw)).value + 3)
    ensures raw != [] && IndexOfIgnoreCase(ZoneTail(Trim(raw)), EventTypeColon).None? ==>
      Unpadded(r, ZoneTail(Trim(raw)))
    ensures raw != [] && IndexOfIgnoreCase(ZoneTail(Trim(raw)), EventTypeColon).Some? ==>
      Unpadded(r, ZoneTail(Trim(raw))[..IndexOfIgnoreCase(ZoneTail(Trim(raw)), EventTypeColon).value])
  {
    if raw == [] then []
    else
      var details := Trim(raw);
      var afterZone := AfterTimeZone(details);
      var r := CutAtMarker(afterZone);
      KeptPart(details);
      if FirstTimeZone(details).Some? then
        OccursFromTrans(r, afterZone, details, FirstTimeZone(details).value + 3);
        r
      else
        r
  }

  /** The marker search after trimming finds the marker where the search
      before trimming does, and what is kept is the same. */
  lemma KeptPart(d: string)
    requires NoEdgeSpace(d)
    ensures var tail, r := ZoneTail(d), CutAtMarker(AfterTimeZone(d));
      && (IndexOfIgnoreCase(tail, EventTypeColon).None? ==> Unpadded(r, tail))
      && (IndexOfIgnoreCase(tail, EventTypeColon).Some? ==>
            Unpadded(r, tail[..IndexOfIgnoreCase(tail, EventTypeColon).value]))
  {
    var z := AfterTimeZone(d);
    UnpaddedCut(z, ZoneTail(d), EventTypeColon, CutAtMarker(z));
  }


  /** The item is kept: its title does not mention "cancelled" in any case,
      its start parses and it lies strictly after `now`. */
  predicate Keep(item: FeedItem, now: int) {
    !ContainsIgnoreCase(item.title, CancelledWord) && item.dtStart.Some? && item.dtStart.value > now
  }

  /** The event made of a kept item, its description cleaned by `clean`;
      an end that does not parse is `MinDateTime`. */
  function ToEvent(item: FeedItem, clean: string -> string): EventInfo
    requires item.dtStart.Some?
  {
    EventInfo(item.title, clean(item.description), item.pubDate, item.location,
              item.dtStart.value, if item.dtEnd.Some? then item.dtEnd.value else MinDateTime)
  }

  /** The events built from the kept items, in feed order. */
  function KeptWith(items: seq<FeedItem>, now: int, clean: string -> string): (r: seq<EventInfo>)
    ensures |r| <= |items|
    ensures forall i :: 0 <= i < |r| ==> r[i].dtStart > now && !ContainsIgnoreCase(r[i].title, CancelledWord)
    decreases |items|
  {
    if items == [] then []
    else
      var front := KeptWith(items[..|items| - 1], now, clean);
      var last := items[|items| - 1];
      if Keep(last, now) then front + [ToEvent(last, clean)] else front
  }

  /** The events of the feed, descriptions cleaned by `ExtractEventDetails`. */
  function KeptEvents(items: seq<FeedItem>, now: int): seq<EventInfo> {
    KeptWith(items, now, ExtractEventDetails)
  }

  /** An event is kept exactly when some item it comes from passes the filter. */
  lemma KeptEventsMembers(items: seq<FeedItem>, now: int, clean: string -> string, e: EventInfo)
    ensures e in KeptWith(items, now, clean) <==>
      exists i :: 0 <= i < |items| && Keep(items[i], now) && ToEvent(items[i], clean) == e
  {
    if e in KeptWith(items, now, clean) {
      KeptComesFromItem(items, now, clean, e);
    }
    if exists i :: 0 <= i < |items| && Keep(items[i], now) && ToEvent(items[i], clean) == e {
      var i :| 0 <= i < |items| && Keep(items[i], now) && ToEvent(items[i], clean) == e;
      KeptItemIsEvent(items, now, clean, i);
    }
  }

  lemma {:induction false} KeptComesFromItem(items: seq<FeedItem>, now: int, clean: string -> string, e: EventInfo)
    requires e in KeptWith(items, now, clean)
    ensures exists i :: 0 <= i < |items| && Keep(items[i], now) && ToEvent(items[i], clean) == e
    decreases |items|
  {
    var n := |items| - 1;
    var front := items[..n];
    if e in KeptWith(front, now, clean) {
      KeptComesFromItem(front, now, clean, e);
      var i :| 0 <= i < |front| && Keep(front[i], now) && ToEvent(front[i], clean) == e;
      assert items[i] == front[i];
    } else {
      assert Keep(items[n], now) && ToEvent(items[n], clean) == e;
    }
  }

  lemma {:induction false} KeptItemIsEvent(items: seq<FeedItem>, now: int, clean: string -> string, i: nat)
    requires i < |items| && Keep(items[i], now)
    ensures ToEvent(items[i], clean) in KeptWith(items, now, clean)
    decreases |items|
  {
    var n := |items| - 1;
    if i < n {
      var front := items[..n];
      assert front[i] == items[i];
      KeptItemIsEvent(front, now, clean, i);
    }
  }

  /** The item loop: cancelled titles, unparsable starts and past starts are
      skipped; the rest become events in feed order. */
  method ParseItems(items: seq<FeedItem>, now: int) returns (events: seq<EventInfo>)
    ensures events == KeptEvents(items, now)
  {
    events := [];
    var clean: string -> string := ExtractEventDetails;
    var i := 0;
    while i < |items|
      invariant 0 <= i <= |items|
      invariant events == KeptWith(items[..i], now, clean)
    {
      var item := items[i];
      KeptStep(items, now, clean, i);
      i := i + 1;
      if ContainsIgnoreCase(item.title, CancelledWord) {
        continue;
      }
      var description := clean(item.description);
      if item.dtStart.None? {
        continue;
      }
      var dtend := if item.dtEnd.Some? then item.dtEnd.value else MinDateTime;
      if item.dtStart.value <= now {
        continue;
      }
      events := events + [EventInfo(item.title, description, item.pubDate, item.location,
                                    item.dtStart.value, dtend)];
    }
    assert items[..i] == items;
  }

  lemma KeptStep(items: seq<FeedItem>, now: int, clean: string -> string, i: nat)
    requires i < |items|
    ensures KeptWith(items[..i + 1], now, clean) ==
      if Keep(items[i], now) then KeptWith(items[..i], now, clean) + [ToEvent(items[i], clean)]
      else KeptWith(items[..i], now, clean)
  {
    assert items[..i + 1][..i] == items[..i];
  }

  /** Events ordered by start time, earliest first. */
  predicate SortedByStart(s: seq<EventInfo>) {
    forall i, j :: 0 <= i < j < |s| ==> StartsInOrder(s, i, j)
  }

  /** The `i`-th event starts no later than the `j`-th. */
  predicate StartsInOrder(s: seq<EventInfo>, i: nat, j: nat)
    requires i <= j < |s|
  {
    s[i].dtStart <= s[j].dtStart
  }

  /** Inserts `e` in front of the first later-starting event. */
  function InsertByStart(e: EventInfo, s: seq<EventInfo>): (r: seq<EventInfo>)
    ensures multiset(r) == multiset(s) + multiset{e}
    ensures r != [] && (r[0] == e || (s != [] && r[0] == s[0]))
    decreases |s|
  {
    if s == [] || e.dtStart <= s[0].dtStart then [e] + s
    else
      assert s == [s[0]] + s[1..];
      [s[0]] + InsertByStart(e, s[1..])
  }

  lemma {:induction false} InsertKeepsSorted(e: EventInfo, s: seq<EventInfo>)
    requires SortedByStart(s)
    ensures SortedByStart(InsertByStart(e, s))
    decreases |s|
  {
    if s != [] && e.dtStart > s[0].dtStart {
      var rest := InsertByStart(e, s[1..]);
      assert SortedByStart(s[1..]) by {
        forall i, j | 0 <= i < j < |s[1..]| ensures StartsInOrder(s[1..], i, j) {
          assert s[1..][i] == s[i + 1] && s[1..][j] == s[j + 1];
          assert StartsInOrder(s, i + 1, j + 1);
        }
      }
      InsertKeepsSorted(e, s[1..]);
      var r := [s[0]] + rest;
      assert s[0].dtStart <= rest[0].dtStart by {
        if rest[0] != e {
          assert StartsInOrder(s, 0, 1);
        }
      }
      forall i, j | 0 <= i < j < |r| ensures StartsInOrder(r, i, j) {
        assert r[j] == rest[j - 1];
        if i > 0 {
          assert r[i] == rest[i - 1];
          assert StartsInOrder(rest, i - 1, j - 1);
        } else if j > 1 {
          assert StartsInOrder(rest, 0, j - 1);
        }
      }
    } else {
      var r := [e] + s;
      forall i, j | 0 <= i < j < |r| ensures StartsInOrder(r, i, j) {
        if i > 0 {
          assert StartsInOrder(s, i - 1, j - 1);
        } else if j > 1 {
          assert StartsInOrder(s, 0, j - 1);
        }
      }
    }
  }

  /** `events.Sort` by start: sorted, and a permutation of its input. */
  function SortByStart(s: seq<EventInfo>): (r: seq<EventInfo>)
    ensures SortedByStart(r)
    ensures multiset(r) == multiset(s)
    decreases |s|
  {
    if s == [] then []
    else
      assert s == [s[0]] + s[1..];
      InsertKeepsSorted(s[0], SortByStart(s[1..]));
      InsertByStart(s[0], SortByStart(s[1..]))
  }

  const SecondsPerDay: int := 86400

  /** `DtStart.ToLocalTime().Date`, as a day number. */
  function DayOf(t: int): int {
    t / SecondsPerDay
  }

  lemma DayOfMonotone(a: int, b: int)
    requires a <= b
    ensures DayOf(a) <= DayOf(b)
  {
  }

  /** One entry of the `SortedDictionary` from day to that day's events. */
  datatype DayGroup = DayGroup(day: int, events: seq<EventInfo>)

  predicate DaysAscending(gs: seq<DayGroup>) {
    forall i, j :: 0 <= i < j < |gs| ==> gs[i].day < gs[j].day
  }

  predicate NoEmptyGroup(gs: seq<DayGroup>) {
    forall i :: 0 <= i < |gs| ==> gs[i].events != []
  }

  predicate OnTheirDay(gs: seq<DayGroup>) {
    forall i, k :: 0 <= i < |gs| && 0 <= k < |gs[i].events| ==> DayOf(gs[i].events[k].dtStart) == gs[i].day
  }

  /** Days strictly ascending, no group empty, every event on its group's day. */
  predicate GroupsWellFormed(gs: seq<DayGroup>) {
    DaysAscending(gs) && NoEmptyGroup(gs) && OnTheirDay(gs)
  }

  /** All events, group after group. */
  function Flatten(gs: seq<DayGroup>): seq<EventInfo>
    decreases |gs|
  {
    if gs == [] then [] else gs[0].events + Flatten(gs[1..])
  }

  lemma {:induction false} FlattenSnoc(gs: seq<DayGroup>, g: DayGroup)
    ensures Flatten(gs + [g]) == Flatten(gs) + g.events
    decreases |gs|
  {
    if gs == [] {
      assert [g][1..] == [];
      assert Flatten([g]) == g.events + [];
    } else {
      assert (gs + [g])[1..] == gs[1..] + [g];
      FlattenSnoc(gs[1..], g);
    }
  }

  /** `if (!ContainsKey(day)) groups[day] = new List(); groups[day].Add(ev)`
      on the dictionary kept in ascending day order. */
  function AddToGroups(gs: seq<DayGroup>, e: EventInfo): (r: seq<DayGroup>)
    ensures r != []
    ensures r[0].day == if gs == [] || DayOf(e.dtStart) < gs[0].day then DayOf(e.dtStart) else gs[0].day
    decreases |gs|
  {
    var d := DayOf(e.dtStart);
    if gs == [] then [DayGroup(d, [e])]
    else if gs[0].day == d then [DayGroup(d, gs[0].events + [e])] + gs[1..]
    else if d < gs[0].day then [DayGroup(d, [e])] + gs
    else [gs[0]] + AddToGroups(gs[1..], e)
  }

  lemma DropFirstWellFormed(gs: seq<DayGroup>)
    requires gs != [] && GroupsWellFormed(gs)
    ensures GroupsWellFormed(gs[1..])
  {
    assert forall i :: 0 <= i < |gs| - 1 ==> gs[1..][i] == gs[i + 1];
  }

  lemma ConsWellFormed(g: DayGroup, gs: seq<DayGroup>)
    requires GroupsWellFormed(gs) && g.events != []
    requires forall k :: 0 <= k < |g.events| ==> DayOf(g.events[k].dtStart) == g.day
    requires gs != [] ==> g.day < gs[0].day
    ensures GroupsWellFormed([g] + gs)
  {
    var r := [g] + gs;
    assert forall i :: 1 <= i < |r| ==> r[i] == gs[i - 1];
    forall i, j | 0 <= i < j < |r| ensures r[i].day < r[j].day {
      if i > 0 {
        assert r[i] == gs[i - 1] && r[j] == gs[j - 1];
      } else {
        assert gs[0].day <= gs[j - 1].day;
      }
    }
  }

  /** Adding an event keeps the groups well formed. */
  lemma {:induction false} AddToGroupsWellFormed(gs: seq<DayGroup>, e: EventInfo)
    requires GroupsWellFormed(gs)
    ensures GroupsWellFormed(AddToGroups(gs, e))
    decreases |gs|
  {
    var d := DayOf(e.dtStart);
    if gs == [] {
    } else {
      DropFirstWellFormed(gs);
      if gs[0].day == d {
        var g := DayGroup(d, gs[0].events + [e]);
        assert forall k :: 0 <= k < |gs[0].events| ==> g.events[k] == gs[0].events[k];
        ConsWellFormed(g, gs[1..]);
      } else if d < gs[0].day {
        ConsWellFormed(DayGroup(d, [e]), gs);
      } else {
        AddToGroupsWellFormed(gs[1..], e);
        ConsWellFormed(gs[0], AddToGroups(gs[1..], e));
      }
    }
  }

  /** Adding an event loses and duplicates nothing. */
  lemma {:induction false} AddToGroupsMultiset(gs: seq<DayGroup>, e: EventInfo)
    ensures multiset(Flatten(AddToGroups(gs, e))) == multiset(Flatten(gs)) + multiset{e}
    decreases |gs|
  {
    var d := DayOf(e.dtStart);
    if gs != [] {
      var r := AddToGroups(gs, e);
      if gs[0].day == d {
        assert r[1..] == gs[1..];
        assert Flatten(r) == (gs[0].events + [e]) + Flatten(gs[1..]);
      } else if d < gs[0].day {
        assert r[1..] == gs;
        assert Flatten(r) == [e] + Flatten(gs);
      } else {
        AddToGroupsMultiset(gs[1..], e);
        assert r[1..] == AddToGroups(gs[1..], e);
        assert Flatten(r) == gs[0].events + Flatten(AddToGroups(gs[1..], e));
      }
    }
  }

  /** The grouping loop, one event after the other. */
  function GroupAll(s: seq<EventInfo>): seq<DayGroup>
    decreases |s|
  {
    if s == [] then [] else AddToGroups(GroupAll(s[..|s| - 1]), s[|s| - 1])
  }

  /** Grouping gives well-formed groups that hold exactly the events. */
  lemma {:induction false} GroupAllSpec(s: seq<EventInfo>)
    ensures GroupsWellFormed(GroupAll(s))
    ensures multiset(Flatten(GroupAll(s))) == multiset(s)
    decreases |s|
  {
    if s != [] {
      var n := |s| - 1;
      GroupAllSpec(s[..n]);
      AddToGroupsWellFormed(GroupAll(s[..n]), s[n]);
      AddToGroupsMultiset(GroupAll(s[..n]), s[n]);
      assert s == s[..n] + [s[n]];
    }
  }

  /** An event on or after the last group's day joins the end. */
  lemma {:induction false} AddAtEnd(gs: seq<DayGroup>, e: EventInfo)
    requires DaysAscending(gs)
    requires gs != [] ==> gs[|gs| - 1].day <= DayOf(e.dtStart)
    ensures Flatten(AddToGroups(gs, e)) == Flatten(gs) + [e]
    ensures AddToGroups(gs, e)[|AddToGroups(gs, e)| - 1].day == DayOf(e.dtStart)
    decreases |gs|
  {
    var d := DayOf(e.dtStart);
    if gs != [] {
      var r := AddToGroups(gs, e);
      if |gs| > 1 {
        assert gs[0].day < gs[|gs| - 1].day;
      }
      if gs[0].day == d {
        assert r == [DayGroup(d, gs[0].events + [e])];
        FlattenSingle(gs[0]);
        FlattenSingle(r[0]);
      } else {
        var rest := AddToGroups(gs[1..], e);
        AscendingTail(gs);
        AddAtEnd(gs[1..], e);
        assert r == [gs[0]] + rest;
        FlattenCons(gs[0], rest);
      }
    }
  }

  lemma FlattenSingle(g: DayGroup)
    ensures Flatten([g]) == g.events
  {
    assert [g][1..] == [];
  }

  lemma FlattenCons(g: DayGroup, gs: seq<DayGroup>)
    ensures Flatten([g] + gs) == g.events + Flatten(gs)
  {
    assert ([g] + gs)[1..] == gs;
  }

  lemma AscendingTail(gs: seq<DayGroup>)
    requires gs != [] && DaysAscending(gs)
    ensures DaysAscending(gs[1..])
  {
    forall i, j | 0 <= i < j < |gs| - 1 ensures gs[1..][i].day < gs[1..][j].day {
      assert gs[1..][i] == gs[i + 1] && gs[1..][j] == gs[j + 1];
    }
  }

  lemma SortedPrefix(s: seq<EventInfo>, n: nat)
    requires SortedByStart(s) && n <= |s|
    ensures SortedByStart(s[..n])
  {
    forall i, j | 0 <= i < j < n ensures StartsInOrder(s[..n], i, j) {
      assert StartsInOrder(s, i, j);
    }
  }

  lemma GroupAllAscending(s: seq<EventInfo>)
    ensures DaysAscending(GroupAll(s))
  {
    GroupAllSpec(s);
  }

  /** Grouping a sorted list keeps its order: reading the groups in day
      order gives back the sorted events. */
  lemma {:induction false} GroupSortedKeepsOrder(s: seq<EventInfo>)
    requires SortedByStart(s)
    ensures Flatten(GroupAll(s)) == s
    ensures s != [] ==> GroupAll(s)[|GroupAll(s)| - 1].day == DayOf(s[|s| - 1].dtStart)
    decreases |s|
  {
    if s != [] {
      var n := |s| - 1;
      var front := s[..n];
      SortedPrefix(s, n);
      GroupSortedKeepsOrder(front);
      if n > 0 {
        assert front[n - 1] == s[n - 1];
        assert StartsInOrder(s, n - 1, n);
      }
      SortedGroupStep(s);
    }
  }

  /** One step of the induction: a last event no earlier than the others
      joins the end of the groups of the events before it. */
  lemma SortedGroupStep(s: seq<EventInfo>)
    requires s != []
    requires Flatten(GroupAll(s[..|s| - 1])) == s[..|s| - 1]
    requires |s| > 1 ==>
      && GroupAll(s[..|s| - 1])[|GroupAll(s[..|s| - 1])| - 1].day == DayOf(s[|s| - 2].dtStart)
      && s[|s| - 2].dtStart <= s[|s| - 1].dtStart
    ensures Flatten(GroupAll(s)) == s
    ensures GroupAll(s)[|GroupAll(s)| - 1].day == DayOf(s[|s| - 1].dtStart)
  {
    var n := |s| - 1;
    GroupAllAscending(s[..n]);
    if n > 0 {
      DayOfMonotone(s[n - 1].dtStart, s[n].dtStart);
    }
    AddAtEnd(GroupAll(s[..n]), s[n]);
    TakeSnoc(s, n);
  }

  /** The grouping loop over the sorted events. */
  method GroupByDay(events: seq<EventInfo>) returns (groups: seq<DayGroup>)
    ensures groups == GroupAll(events)
  {
    groups := [];
    var i := 0;
    while i < |events|
      invariant 0 <= i <= |events|
      invariant groups == GroupAll(events[..i])
    {
      assert events[..i + 1][..i] == events[..i];
      groups := AddToGroups(groups, events[i]);
      i := i + 1;
    }
    assert events[..i] == events;
  }

  /** The events in display order: the kept events sorted by start, grouped
      by day. */
  function FeedGroups(items: seq<FeedItem>, now: int): seq<DayGroup> {
    GroupAll(SortByStart(KeptEvents(items, now)))
  }

  /** Reading the groups in order gives the kept events sorted by start. */
  lemma FeedOrder(items: seq<FeedItem>, now: int)
    ensures Flatten(FeedGroups(items, now)) == SortByStart(KeptEvents(items, now))
    ensures GroupsWellFormed(FeedGroups(items, now))
    ensures SortedByStart(Flatten(FeedGroups(items, now)))
    ensures multiset(Flatten(FeedGroups(items, now))) == multiset(KeptEvents(items, now))
  {
    GroupSortedKeepsOrder(SortByStart(KeptEvents(items, now)));
    GroupAllSpec(SortByStart(KeptEvents(items, now)));
  }

  const EventIdPrefix: string := "event_"
  const LocationIdPrefix: string := "location_"

  function EventId(k: nat): string {
    EventIdPrefix + NatToString(k)
  }

  function LocationId(k: nat): string {
    LocationIdPrefix + NatToString(k)
  }

  /** Event ids tell the events apart, location ids the locations, and no
      event id is a location id. */
  lemma LinkIdsDistinct(a: nat, b: nat)
    ensures EventId(a) == EventId(b) ==> a == b
    ensures LocationId(a) == LocationId(b) ==> a == b
    ensures EventId(a) != LocationId(b)
    ensures EventIdPrefix <= EventId(a) && !(LocationIdPrefix <= EventId(a))
    ensures LocationIdPrefix <= LocationId(a) && !(EventIdPrefix <= LocationId(a))
  {
    if EventId(a) == EventId(b) {
      PrefixedNumberInjective(EventIdPrefix, a, b);
    }
    if LocationId(a) == LocationId(b) {
      PrefixedNumberInjective(LocationIdPrefix, a, b);
    }
    assert EventId(a)[0] == 'e' && LocationId(b)[0] == 'l';
  }

  /** Updating one key of a map leaves every other key as it was. */
  lemma UpdateKeepsOther<K, V>(m: map<K, V>, k: K, v: V, other: K)
    requires other != k && other in m
    ensures other in m[k := v] && m[k := v][other] == m[other]
  {
  }

  lemma EventIdsDistinct(a: nat, b: nat)
    requires a != b
    ensures EventId(a) != EventId(b)
  {
    LinkIdsDistinct(a, b);
  }

  /** `vals` registered under `key(base)`, `key(base + 1)`, ... on top of
      `m`, later entries overwriting earlier ones. */
  function Registered<K, V>(m: map<K, V>, key: nat -> K, vals: seq<V>, base: nat): map<K, V>
    decreases |vals|
  {
    if vals == [] then m
    else Registered(m, key, vals[..|vals| - 1], base)[key(base + |vals| - 1) := vals[|vals| - 1]]
  }

  /** With distinct keys, the `k`-th value is found under `key(base + k)`. */
  lemma {:induction false} RegisteredHas<K, V>(m: map<K, V>, key: nat -> K, vals: seq<V>, base: nat, k: nat)
    requires k < |vals|
    requires forall j :: base + k < j < base + |vals| ==> key(j) != key(base + k)
    ensures key(base + k) in Registered(m, key, vals, base)
    ensures Registered(m, key, vals, base)[key(base + k)] == vals[k]
    decreases |vals|
  {
    var n := |vals| - 1;
    if k < n {
      assert vals[..n][k] == vals[k];
      RegisteredHas(m, key, vals[..n], base, k);
    }
  }

  /** The events registered under `event_<base>`, `event_<base+1>`, ... on
      top of `m`. */
  function EventTable(m: map<string, EventInfo>, evs: seq<EventInfo>, base: nat): map<string, EventInfo>
  {
    Registered(m, EventId, evs, base)
  }

  /** The `k`-th event is reachable through `event_<base+k>`. */
  lemma EventTableHas(m: map<string, EventInfo>, evs: seq<EventInfo>, base: nat, k: nat)
    requires k < |evs|
    ensures EventId(base + k) in EventTable(m, evs, base)
    ensures EventTable(m, evs, base)[EventId(base + k)] == evs[k]
  {
    forall j | base + k < j < base + |evs| ensures EventId(j) != EventId(base + k) {
      EventIdsDistinct(j, base + k);
    }
    RegisteredHas(m, EventId, evs, base, k);
  }

  /** Keys that are none of the events' ids keep their entry of `m`. */
  lemma EventTableKeeps(m: map<string, EventInfo>, evs: seq<EventInfo>, base: nat, id: string)
    requires forall k :: base <= k < base + |evs| ==> id != EventId(k)
    ensures id in EventTable(m, evs, base) <==> id in m
    ensures id in m ==> EventTable(m, evs, base)[id] == m[id]
  {
    RegisteredKeeps(m, EventId, evs, base, id);
  }

  /** Registering two runs of events one after the other. */
  lemma EventTableAppend(m: map<string, EventInfo>, a: seq<EventInfo>, b: seq<EventInfo>, base: nat)
    ensures EventTable(m, a + b, base) == EventTable(EventTable(m, a, base), b, base + |a|)
  {
    RegisteredAppend(m, EventId, a, b, base);
  }

  /** Keys under which nothing was registered keep their entry of `m`. */
  lemma {:induction false} RegisteredKeeps<K, V>(m: map<K, V>, key: nat -> K, vals: seq<V>, base: nat, id: K)
    requires forall k :: base <= k < base + |vals| ==> id != key(k)
    ensures id in Registered(m, key, vals, base) <==> id in m
    ensures id in m ==> Registered(m, key, vals, base)[id] == m[id]
    decreases |vals|
  {
    if vals != [] {
      RegisteredKeeps(m, key, vals[..|vals| - 1], base, id);
    }
  }

  /** Registering two runs one after the other. */
  lemma {:induction false} RegisteredAppend<K, V>(m: map<K, V>, key: nat -> K, a: seq<V>, b: seq<V>, base: nat)
    ensures Registered(m, key, a + b, base) == Registered(Registered(m, key, a, base), key, b, base + |a|)
    decreases |b|
  {
    if b == [] {
      assert a + b == a;
    } else {
      AppendInit(a, b);
      RegisteredAppend(m, key, a, b[..|b| - 1], base);
    }
  }
}
