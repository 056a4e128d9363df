/** The event board component `EventScraperUIGrouped`: it renders the feed
    as rich text with clickable titles and locations, remembers what each
    link stands for, and dispatches link clicks. */
module EventBoard {
  import opened Strings
  import opened Buildings
  import opened BuildingLookup
  import opened EventDetails
  import opened EventFeed
  import opened LocationLinks

  const GroupSeparator: string := "====================\n\n"

  /** The bold day heading, given the formatted date. */
  function DayHeader(dayText: string): string {
    "<b>" + dayText + ":</b>\n\n"
  }

  /** The clickable, blue, underlined, bold title. */
  function TitleLink(linkId: string, title: string): string {
    "<link=\"" + linkId + "\"><u><color=#0000FF><b>" + title + "</b></color></u></link>"
  }

  /** The lines shown for the `k`-th event: title link, start time, location
      with its building link, blank line. */
  function EventBlock(ev: EventInfo, k: nat, buildings: Option<seq<Building>>,
                      formatTime: int -> string): string
  {
    TitleLink(EventId(k), ev.title) + "\n" + formatTime(ev.dtStart) + "\n"
    + LocationDisplay(ev.location, buildings, LocationId(k)).0 + "\n\n"
  }

  /** What `block(ev, k)` renders for the `k`-th event. */
  function Blocks(buildings: Option<seq<Building>>, formatTime: int -> string): (EventInfo, nat) -> string {
    (ev: EventInfo, k: nat) => EventBlock(ev, k, buildings, formatTime)
  }

  /** The building the `k`-th event's location is linked to, if any. */
  function Links(buildings: Option<seq<Building>>): (EventInfo, nat) -> Option<Building> {
    (ev: EventInfo, k: nat) => LocationDisplay(ev.location, buildings, LocationId(k)).1
  }

  /** The blocks of one day's events, numbered from `base`. */
  function RenderEvents(evs: seq<EventInfo>, base: nat, block: (EventInfo, nat) -> string): string
    decreases |evs|
  {
    if evs == [] then []
    else
      var n := |evs| - 1;
      RenderEvents(evs[..n], base, block) + block(evs[n], base + n)
  }

  /** The whole board: each day's heading, its events, the separator. */
  function RenderGroups(gs: seq<DayGroup>, formatDay: int -> string, block: (EventInfo, nat) -> string): string
    decreases |gs|
  {
    if gs == [] then []
    else
      var n := |gs| - 1;
      var front := gs[..n];
      RenderGroups(front, formatDay, block) + DayHeader(formatDay(gs[n].day))
      + RenderEvents(gs[n].events, |Flatten(front)|, block) + GroupSeparator
  }

  lemma RenderEventsSnoc(evs: seq<EventInfo>, base: nat, block: (EventInfo, nat) -> string, ev: EventInfo)
    ensures RenderEvents(evs + [ev], base, block) == RenderEvents(evs, base, block) + block(ev, base + |evs|)
  {
    assert (evs + [ev])[..|evs|] == evs;
  }

  lemma RenderGroupsSnoc(gs: seq<DayGroup>, formatDay: int -> string, block: (EventInfo, nat) -> string, g: DayGroup)
    ensures RenderGroups(gs + [g], formatDay, block) ==
      RenderGroups(gs, formatDay, block) + DayHeader(formatDay(g.day)) + RenderEvents(g.events, |Flatten(gs)|, block) + GroupSeparator
  {
    assert (gs + [g])[..|gs|] == gs;
  }

  lemma SliceAtExtend(x: string, s: string, t: string, a: nat)
    requires SliceAt(x, s, a)
    ensures SliceAt(x, s + t, a) && SliceAt(x, t + s, |t| + a)
  {
    assert (s + t)[a..a + |x|] == s[a..a + |x|];
    assert (t + s)[|t| + a..|t| + a + |x|] == s[a..a + |x|];
  }

  /** Every event of a day is shown, with its number. */
  lemma {:induction false} EventShown(evs: seq<EventInfo>, base: nat, block: (EventInfo, nat) -> string, k: nat)
    requires k < |evs|
    ensures OccursFrom(block(evs[k], base + k), RenderEvents(evs, base, block), 0)
    decreases |evs|
  {
    var n := |evs| - 1;
    var front := RenderEvents(evs[..n], base, block);
    var last := block(evs[n], base + n);
    if k == n {
      assert SliceAt(last, front + last, |front|);
    } else {
      assert evs[..n][k] == evs[k];
      EventShown(evs[..n], base, block, k);
      var a: nat :| SliceAt(block(evs[k], base + k), front, a);
      SliceAtExtend(block(evs[k], base + k), front, last, a);
    }
  }

  /** Text shown inside a part is shown inside the whole. */
  lemma OccursInside(x: string, pre: string, mid: string, post: string)
    requires OccursFrom(x, mid, 0)
    ensures OccursFrom(x, pre + mid + post, 0)
  {
    var a: nat :| SliceAt(x, mid, a);
    SliceAtExtend(x, mid, pre, a);
    SliceAtExtend(x, pre + mid, post, |pre| + a);
  }

  lemma ShownInEarlierDay(front: seq<DayGroup>, g: DayGroup, formatDay: int -> string,
                          block: (EventInfo, nat) -> string, k: nat)
    requires k < |Flatten(front)|
    requires OccursFrom(block(Flatten(front)[k], k), RenderGroups(front, formatDay, block), 0)
    ensures k < |Flatten(front + [g])|
    ensures OccursFrom(block(Flatten(front + [g])[k], k), RenderGroups(front + [g], formatDay, block), 0)
  {
    FlattenSnoc(front, g);
    RenderGroupsSnoc(front, formatDay, block, g);
    var head := RenderGroups(front, formatDay, block);
    var header := DayHeader(formatDay(g.day));
    var events := RenderEvents(g.events, |Flatten(front)|, block);
    var x := block(Flatten(front)[k], k);
    assert Flatten(front + [g])[k] == Flatten(front)[k];
    OccursInPrefix(x, head, header);
    OccursInPrefix(x, head + header, events);
    OccursInPrefix(x, head + header + events, GroupSeparator);
  }

  lemma ShownInLastDay(front: seq<DayGroup>, g: DayGroup, formatDay: int -> string,
                       block: (EventInfo, nat) -> string, k: nat)
    requires |Flatten(front)| <= k < |Flatten(front)| + |g.events|
    ensures k < |Flatten(front + [g])|
    ensures OccursFrom(block(Flatten(front + [g])[k], k), RenderGroups(front + [g], formatDay, block), 0)
  {
    FlattenSnoc(front, g);
    RenderGroupsSnoc(front, formatDay, block, g);
    var base := |Flatten(front)|;
    assert Flatten(front + [g])[k] == g.events[k - base];
    EventShown(g.events, base, block, k - base);
    OccursInside(block(g.events[k - base], k), RenderGroups(front, formatDay, block) + DayHeader(formatDay(g.day)),
                 RenderEvents(g.events, base, block), GroupSeparator);
  }

  lemma OccursInPrefix(x: string, s: string, t: string)
    requires OccursFrom(x, s, 0)
    ensures OccursFrom(x, s + t, 0)
  {
    var a: nat :| SliceAt(x, s, a);
    SliceAtExtend(x, s, t, a);
  }

  /** Every event of the board is shown, numbered by its position in day
      order: the `k`-th event's block is part of the text. */
  lemma {:induction false} FeedEventShown(gs: seq<DayGroup>, formatDay: int -> string,
                                          block: (EventInfo, nat) -> string, k: nat)
    requires k < |Flatten(gs)|
    ensures OccursFrom(block(Flatten(gs)[k], k), RenderGroups(gs, formatDay, block), 0)
    decreases |gs|
  {
    var n := |gs| - 1;
    var front, g := gs[..n], gs[n];
    assert gs == front + [g];
    FlattenSnoc(front, g);
    if k < |Flatten(front)| {
      FeedEventShown(front, formatDay, block, k);
      ShownInEarlierDay(front, g, formatDay, block, k);
    } else {
      ShownInLastDay(front, g, formatDay, block, k);
    }
  }

  /** The buildings registered under `location_<base>`, `location_<base+1>`,
      ... on top of `m`: the building each event's location was linked to. */
  function LocationTable(m: map<string, Building>, evs: seq<EventInfo>, base: nat,
                         link: (EventInfo, nat) -> Option<Building>): map<string, Building>
  {
    Linked(m, LocationId, evs, base, link)
  }

  /** What `link` gives the `k`-th of `evs`, registered under `key(base + k)`
      on top of `m`; items `link` gives nothing for register nothing. */
  function Linked<K, E, V>(m: map<K, V>, key: nat -> K, evs: seq<E>, base: nat,
                           link: (E, nat) -> Option<V>): map<K, V>
    decreases |evs|
  {
    if evs == [] then m
    else
      var n := |evs| - 1;
      var t := Linked(m, key, evs[..n], base, link);
      match link(evs[n], base + n)
      case Some(b) => t[key(base + n) := b]
      case None => t
  }

  lemma LocationTableSnoc(m: map<string, Building>, evs: seq<EventInfo>, base: nat,
                          link: (EventInfo, nat) -> Option<Building>, ev: EventInfo)
    ensures LocationTable(m, evs + [ev], base, link) ==
      match link(ev, base + |evs|)
      case Some(b) => LocationTable(m, evs, base, link)[LocationId(base + |evs|) := b]
      case None => LocationTable(m, evs, base, link)
  {
    assert (evs + [ev])[..|evs|] == evs;
  }

  /** Registering two runs of events one after the other. */
  lemma LocationTableAppend(m: map<string, Building>, a: seq<EventInfo>, b: seq<EventInfo>,
                            base: nat, link: (EventInfo, nat) -> Option<Building>)
    ensures LocationTable(m, a + b, base, link) == LocationTable(LocationTable(m, a, base, link), b, base + |a|, link)
  {
    LinkedAppend(m, LocationId, a, b, base, link);
  }

  lemma {:induction false} LinkedAppend<K, E, V>(m: map<K, V>, key: nat -> K, a: seq<E>, b: seq<E>,
                                                 base: nat, link: (E, nat) -> Option<V>)
    ensures Linked(m, key, a + b, base, link) == Linked(Linked(m, key, a, base, link), key, b, base + |a|, link)
    decreases |b|
  {
    if b == [] {
      assert a + b == a;
    } else {
      AppendInit(a, b);
      LinkedAppend(m, key, a, b[..|b| - 1], base, link);
    }
  }

  /** `location_<base+k>` leads to the building event `k`'s location was
      linked to. */
  lemma LocationTableLinked(m: map<string, Building>, evs: seq<EventInfo>, base: nat,
                            link: (EventInfo, nat) -> Option<Building>, k: nat)
    requires k < |evs| && link(evs[k], base + k).Some?
    ensures LocationId(base + k) in LocationTable(m, evs, base, link)
    ensures LocationTable(m, evs, base, link)[LocationId(base + k)] == link(evs[k], base + k).value
  {
    forall j | base + k < j < base + |evs| ensures LocationId(j) != LocationId(base + k) {
      LinkIdsDistinct(j, base + k);
    }
    LinkedHas(m, LocationId, evs, base, link, k);
  }

  /** With distinct keys, the `k`-th item's link is found under `key(base + k)`. */
  lemma {:induction false} LinkedHas<K, E, V>(m: map<K, V>, key: nat -> K, evs: seq<E>, base: nat,
                                              link: (E, nat) -> Option<V>, k: nat)
    requires k < |evs| && link(evs[k], base + k).Some?
    requires forall j :: base + k < j < base + |evs| ==> key(j) != key(base + k)
    ensures key(base + k) in Linked(m, key, evs, base, link)
    ensures Linked(m, key, evs, base, link)[key(base + k)] == link(evs[k], base + k).value
    decreases |evs|
  {
    var n := |evs| - 1;
    if k < n {
      assert evs[..n][k] == evs[k];
      LinkedHas(m, key, evs[..n], base, link, k);
    }
  }

  /** Keys that are no location id of a linked event keep their entry of `m`. */
  lemma LocationTableKeeps(m: map<string, Building>, evs: seq<EventInfo>, base: nat,
                           link: (EventInfo, nat) -> Option<Building>, id: string)
    requires forall k :: 0 <= k < |evs| && link(evs[k], base + k).Some? ==> id != LocationId(base + k)
    ensures id in LocationTable(m, evs, base, link) <==> id in m
    ensures id in m ==> LocationTable(m, evs, base, link)[id] == m[id]
  {
    LinkedKeeps(m, LocationId, evs, base, link, id);
  }

  lemma {:induction false} LinkedKeeps<K, E, V>(m: map<K, V>, key: nat -> K, evs: seq<E>, base: nat,
                                                link: (E, nat) -> Option<V>, id: K)
    requires forall k :: 0 <= k < |evs| && link(evs[k], base + k).Some? ==> id != key(base + k)
    ensures id in Linked(m, key, evs, base, link) <==> id in m
    ensures id in m ==> Linked(m, key, evs, base, link)[id] == m[id]
    decreases |evs|
  {
    if evs != [] {
      var n := |evs| - 1;
      assert forall k :: 0 <= k < n ==> evs[..n][k] == evs[k];
      LinkedKeeps(m, key, evs[..n], base, link, id);
    }
  }

  /** The location id of an event whose location matched nothing is as in `m`. */
  lemma LocationTableUnlinked(m: map<string, Building>, evs: seq<EventInfo>, base: nat,
                              link: (EventInfo, nat) -> Option<Building>, k: nat)
    requires k < |evs| && link(evs[k], base + k).None?
    ensures LocationId(base + k) in LocationTable(m, evs, base, link) <==> LocationId(base + k) in m
    ensures LocationId(base + k) in m ==>
      LocationTable(m, evs, base, link)[LocationId(base + k)] == m[LocationId(base + k)]
  {
    forall j | 0 <= j < |evs| && link(evs[j], base + j).Some?
      ensures LocationId(base + k) != LocationId(base + j)
    {
      LinkIdsDistinct(base + k, base + j);
    }
    LocationTableKeeps(m, evs, base, link, LocationId(base + k));
  }

  /** Without a lookup manager no location is linked. */
  lemma {:induction false} LocationTableWithoutManager(m: map<string, Building>, evs: seq<EventInfo>, base: nat)
    ensures LocationTable(m, evs, base, Links(None)) == m
    decreases |evs|
  {
    if evs != [] {
      var n := |evs| - 1;
      assert Links(None)(evs[n], base + n) == None;
      LocationTableWithoutManager(m, evs[..n], base);
    }
  }

  /** Every linked building is one of the manager's buildings. */
  lemma LocationTableBuildings(m: map<string, Building>, evs: seq<EventInfo>, base: nat,
                               buildings: seq<Building>)
    requires forall id :: id in m ==> m[id] in buildings
    ensures forall id :: id in LocationTable(m, evs, base, Links(Some(buildings))) ==>
      LocationTable(m, evs, base, Links(Some(buildings)))[id] in buildings
  {
    var link := Links(Some(buildings));
    forall k | 0 <= k < |evs| && link(evs[k], base + k).Some?
      ensures link(evs[k], base + k).value in buildings
    {
      var l := link(evs[k], base + k);
      assert l.Some? ==> l.value in buildings;
    }
    LinkedWithin(m, LocationId, evs, base, link, buildings);
  }

  /** When `m` and every link stay within `pool`, so does the table. */
  lemma {:induction false} LinkedWithin<K, E, V>(m: map<K, V>, key: nat -> K, evs: seq<E>, base: nat,
                                                 link: (E, nat) -> Option<V>, pool: seq<V>)
    requires forall id :: id in m ==> m[id] in pool
    requires forall k :: 0 <= k < |evs| && link(evs[k], base + k).Some? ==> link(evs[k], base + k).value in pool
    ensures forall id :: id in Linked(m, key, evs, base, link) ==> Linked(m, key, evs, base, link)[id] in pool
    decreases |evs|
  {
    if evs != [] {
      var n := |evs| - 1;
      assert forall k :: 0 <= k < n ==> evs[..n][k] == evs[k];
      LinkedWithin(m, key, evs[..n], base, link, pool);
    }
  }

  /** Registering one more day's events continues both tables. */
  lemma TablesStep(events0: map<string, EventInfo>, locations0: map<string, Building>,
                   flat: seq<EventInfo>, day: seq<EventInfo>, link: (EventInfo, nat) -> Option<Building>,
                   events: map<string, EventInfo>, locations: map<string, Building>,
                   events1: map<string, EventInfo>, locations1: map<string, Building>)
    requires events == EventTable(events0, flat, 0) && locations == LocationTable(locations0, flat, 0, link)
    requires events1 == EventTable(events, day, |flat|) && locations1 == LocationTable(locations, day, |flat|, link)
    ensures events1 == EventTable(events0, flat + day, 0)
    ensures locations1 == LocationTable(locations0, flat + day, 0, link)
  {
    EventTableAppend(events0, flat, day, 0);
    LocationTableAppend(locations0, flat, day, 0, link);
  }

  /** The location text and the linked building, computed as the loop
      does: search the names, and splice the link around the best match. */
  method DisplayLocation(location: string, buildings: Option<seq<Building>>, linkId: string)
    returns (display: string, linked: Option<Building>)
    ensures (display, linked) == LocationDisplay(location, buildings, linkId)
  {
    display, linked := location, None;
    if buildings.Some? && location != [] {
      var best := FindBestMatch(location, buildings.value);
      if best.Some? {
        BestMatchIsAName(location, buildings.value);
        display := Splice(location, best.value, linkId);
        linked := Some(best.value.building);
      }
    }
  }

  lemma EventTableSnoc(m: map<string, EventInfo>, evs: seq<EventInfo>, base: nat, ev: EventInfo)
    ensures EventTable(m, evs + [ev], base) == EventTable(m, evs, base)[EventId(base + |evs|) := ev]
  {
    assert (evs + [ev])[..|evs|] == evs;
  }

  /** One step of a day's loop extends the text and both tables by the next event. */
  lemma DayStep(events0: map<string, EventInfo>, locations0: map<string, Building>, done: seq<EventInfo>, base: nat,
                block: (EventInfo, nat) -> string, link: (EventInfo, nat) -> Option<Building>, ev: EventInfo,
                text: string, events: map<string, EventInfo>, locations: map<string, Building>,
                eventText: string, linked: Option<Building>)
    requires text == RenderEvents(done, base, block)
    requires events == EventTable(events0, done, base) && locations == LocationTable(locations0, done, base, link)
    requires eventText == block(ev, base + |done|) && linked == link(ev, base + |done|)
    ensures text + eventText == RenderEvents(done + [ev], base, block)
    ensures events[EventId(base + |done|) := ev] == EventTable(events0, done + [ev], base)
    ensures (if linked.Some? then locations[LocationId(base + |done|) := linked.value] else locations) ==
      LocationTable(locations0, done + [ev], base, link)
  {
    RenderEventsSnoc(done, base, block, ev);
    EventTableSnoc(events0, done, base, ev);
    LocationTableSnoc(locations0, done, base, link, ev);
  }

  /** One loop step renders what `Blocks` and `Links` say. */
  lemma BlockStep(ev: EventInfo, k: nat, buildings: Option<seq<Building>>, formatTime: int -> string,
                  display: string, linked: Option<Building>)
    requires (display, linked) == LocationDisplay(ev.location, buildings, LocationId(k))
    ensures Blocks(buildings, formatTime)(ev, k) ==
      TitleLink(EventId(k), ev.title) + "\n" + formatTime(ev.dtStart) + "\n" + display + "\n\n"
    ensures Links(buildings)(ev, k) == linked
  {
  }

  class EventScraper {
    /** The scene's `BuildingLookupManager`, if any. */
    const manager: BuildingLookupManager?
    const detailsPanel: EventDetailsPanel?
    /** Whether `detailsPanelRect` is assigned. */
    const hasPanelRect: bool
    /** Whether the `eventsText` label is assigned. */
    const hasEventsText: bool

    var eventLookup: map<string, EventInfo>
    var locationLookupBuilding: map<string, Building>
    var linkClickConsumed: bool
    var eventsText: string

    ghost function ManagerRepr(): set<object> {
      if manager == null then {} else manager.Repr()
    }

    ghost function PanelRepr(): set<object> {
      if detailsPanel == null then {} else {detailsPanel}
    }

    /** The manager is usable, and location links exist only when there
        is a manager to focus their buildings. */
    ghost predicate Valid()
      reads this, ManagerRepr()
    {
      && (manager != null ==> manager.Valid())
      && (manager == null ==> locationLookupBuilding == map[])
      && this !in ManagerRepr()
    }

    constructor (manager: BuildingLookupManager?, detailsPanel: EventDetailsPanel?,
                 hasPanelRect: bool, hasEventsText: bool)
      requires manager != null ==> manager.Valid()
      ensures Valid()
      ensures this.manager == manager && this.detailsPanel == detailsPanel
      ensures this.hasPanelRect == hasPanelRect && this.hasEventsText == hasEventsText
      ensures eventLookup == map[] && locationLookupBuilding == map[]
      ensures !linkClickConsumed && eventsText == []
    {
      this.manager, this.detailsPanel := manager, detailsPanel;
      this.hasPanelRect, this.hasEventsText := hasPanelRect, hasEventsText;
      eventLookup, locationLookupBuilding := map[], map[];
      linkClickConsumed, eventsText := false, [];
    }

    /** The buildings the location matcher searches, when there is a manager. */
    function ManagerBuildings(): Option<seq<Building>>
      reads manager
      requires manager != null ==> WellFormed(manager.buildingDict)
    {
      if manager == null then None else Some(manager.GetAllBuildings())
    }

    /** The feed processing after the download: filter, sort, group, then
        render every event with its links, record what each link id stands
        for, and show the text. */
    method ProcessFeed(items: seq<FeedItem>, now: int, formatDay: int -> string, formatTime: int -> string)
      requires Valid()
      modifies this`eventLookup, this`locationLookupBuilding, this`eventsText
      ensures Valid()
      ensures eventLookup == EventTable(old(eventLookup), Flatten(FeedGroups(items, now)), 0)
      ensures locationLookupBuilding ==
        LocationTable(old(locationLookupBuilding), Flatten(FeedGroups(items, now)), 0, Links(ManagerBuildings()))
      ensures eventsText == if hasEventsText
        then RenderGroups(FeedGroups(items, now), formatDay, Blocks(ManagerBuildings(), formatTime))
        else old(eventsText)
    {
      var buildings := ManagerBuildings();
      var output, eventTable, locationTable := ComputeFeed(items, now, buildings, formatDay, formatTime,
                                                           eventLookup, locationLookupBuilding);
      eventLookup, locationLookupBuilding := eventTable, locationTable;
      if hasEventsText {
        eventsText := output;
      }
    }

    /** The board's text and both dictionaries for a downloaded feed. */
    static method ComputeFeed(items: seq<FeedItem>, now: int, buildings: Option<seq<Building>>,
                              formatDay: int -> string, formatTime: int -> string,
                              events0: map<string, EventInfo>, locations0: map<string, Building>)
      returns (output: string, events: map<string, EventInfo>, locations: map<string, Building>)
      ensures output == RenderGroups(FeedGroups(items, now), formatDay, Blocks(buildings, formatTime))
      ensures events == EventTable(events0, Flatten(FeedGroups(items, now)), 0)
      ensures locations == LocationTable(locations0, Flatten(FeedGroups(items, now)), 0, Links(buildings))
      ensures buildings.None? ==> locations == locations0
    {
      var groups := BuildGroups(items, now);
      output, events, locations := RenderFeed(groups, buildings, formatDay, formatTime, events0, locations0);
      if buildings.None? {
        LocationTableWithoutManager(locations0, Flatten(groups), 0);
      }
    }

    /** Filter the items, sort the events by start, group them by day. */
    static method BuildGroups(items: seq<FeedItem>, now: int) returns (groups: seq<DayGroup>)
      ensures groups == FeedGroups(items, now)
    {
      var events := ParseItems(items, now);
      events := SortByStart(events);
      groups := GroupByDay(events);
    }

    /** The loop over the day groups: the text of the board and the
        dictionaries with every event's links added. */
    static method RenderFeed(groups: seq<DayGroup>, buildings: Option<seq<Building>>,
                             formatDay: int -> string, formatTime: int -> string,
                             events0: map<string, EventInfo>, locations0: map<string, Building>)
      returns (output: string, events: map<string, EventInfo>, locations: map<string, Building>)
      ensures output == RenderGroups(groups, formatDay, Blocks(buildings, formatTime))
      ensures events == EventTable(events0, Flatten(groups), 0)
      ensures locations == LocationTable(locations0, Flatten(groups), 0, Links(buildings))
    {
      ghost var block, link := Blocks(buildings, formatTime), Links(buildings);
      ghost var flat: seq<EventInfo> := [];
      output, events, locations := "", events0, locations0;
      var eventIndex := 0;
      var i := 0;
      while i < |groups|
        invariant 0 <= i <= |groups|
        invariant flat == Flatten(groups[..i])
        invariant eventIndex == |flat|
        invariant output == RenderGroups(groups[..i], formatDay, block)
        invariant events == EventTable(events0, flat, 0)
        invariant locations == LocationTable(locations0, flat, 0, link)
      {
        var g := groups[i];
        TakeSnoc(groups, i);
        FlattenSnoc(groups[..i], g);
        RenderGroupsSnoc(groups[..i], formatDay, block, g);
        var dayText, events1, locations1 := RenderDay(g, eventIndex, buildings, formatTime, events, locations);
        TablesStep(events0, locations0, flat, g.events, link, events, locations, events1, locations1);
        events, locations := events1, locations1;
        output := output + DayHeader(formatDay(g.day)) + dayText + GroupSeparator;
        eventIndex := eventIndex + |g.events|;
        flat := flat + g.events;
        i := i + 1;
      }
      assert groups[..i] == groups;
    }

    /** The inner loop over one day's events, numbered from `base`. */
    static method RenderDay(g: DayGroup, base: nat, buildings: Option<seq<Building>>, formatTime: int -> string,
                            events0: map<string, EventInfo>, locations0: map<string, Building>)
      returns (text: string, events: map<string, EventInfo>, locations: map<string, Building>)
      ensures text == RenderEvents(g.events, base, Blocks(buildings, formatTime))
      ensures events == EventTable(events0, g.events, base)
      ensures locations == LocationTable(locations0, g.events, base, Links(buildings))
    {
      ghost var block, link := Blocks(buildings, formatTime), Links(buildings);
      text, events, locations := "", events0, locations0;
      var eventIndex := base;
      var j := 0;
      while j < |g.events|
        invariant 0 <= j <= |g.events|
        invariant eventIndex == base + j
        invariant text == RenderEvents(g.events[..j], base, block)
        invariant events == EventTable(events0, g.events[..j], base)
        invariant locations == LocationTable(locations0, g.events[..j], base, link)
      {
        var ev := g.events[j];
        TakeSnoc(g.events, j);
        text, events, locations :=
          AddEvent(events0, locations0, g.events[..j], base, eventIndex, ev, buildings, formatTime, text, events, locations);
        eventIndex := eventIndex + 1;
        j := j + 1;
      }
      assert g.events[..j] == g.events;
    }

    /** One pass of the inner loop: the next event's lines are appended and
        its links recorded. */
    static method AddEvent(ghost events0: map<string, EventInfo>, ghost locations0: map<string, Building>,
                           ghost done: seq<EventInfo>, base: nat, eventIndex: nat, ev: EventInfo,
                           buildings: Option<seq<Building>>, formatTime: int -> string,
                           text: string, events: map<string, EventInfo>, locations: map<string, Building>)
      returns (text1: string, events1: map<string, EventInfo>, locations1: map<string, Building>)
      requires eventIndex == base + |done|
      requires text == RenderEvents(done, base, Blocks(buildings, formatTime))
      requires events == EventTable(events0, done, base)
      requires locations == LocationTable(locations0, done, base, Links(buildings))
      ensures text1 == RenderEvents(done + [ev], base, Blocks(buildings, formatTime))
      ensures events1 == EventTable(events0, done + [ev], base)
      ensures locations1 == LocationTable(locations0, done + [ev], base, Links(buildings))
    {
      var eventText, locationLinkId, linked := RenderEvent(ev, eventIndex, buildings, formatTime);
      DayStep(events0, locations0, done, base, Blocks(buildings, formatTime), Links(buildings), ev,
              text, events, locations, eventText, linked);
      events1 := events[EventId(eventIndex) := ev];
      locations1 := if linked.Some? then locations[locationLinkId := linked.value] else locations;
      text1 := text + eventText;
    }

    /** The lines of the `k`-th event, the id of its location link and the
        building the link leads to. */
    static method RenderEvent(ev: EventInfo, eventIndex: nat, buildings: Option<seq<Building>>,
                              formatTime: int -> string)
      returns (eventText: string, locationLinkId: string, linked: Option<Building>)
      ensures eventText == Blocks(buildings, formatTime)(ev, eventIndex)
      ensures locationLinkId == LocationId(eventIndex)
      ensures linked == Links(buildings)(ev, eventIndex)
    {
      var eventLinkId := EventIdPrefix + NatToString(eventIndex);
      var timeStr := formatTime(ev.dtStart);
      var titleLink := TitleLink(eventLinkId, ev.title);
      locationLinkId := LocationIdPrefix + NatToString(eventIndex);
      var locationDisplay;
      locationDisplay, linked := DisplayLocation(ev.location, buildings, locationLinkId);
      BlockStep(ev, eventIndex, buildings, formatTime, locationDisplay, linked);
      eventText := titleLink + "\n" + timeStr + "\n" + locationDisplay + "\n\n";
    }

    /** `TryGetEventInfo`. */
    function TryGetEventInfo(linkId: string): (ev: Option<EventInfo>)
      reads this
      ensures ev.Some? <==> linkId in eventLookup
      ensures ev.Some? ==> ev.value == eventLookup[linkId]
    {
      if linkId in eventLookup then Some(eventLookup[linkId]) else None
    }

    /** Fills the details panel with the event and shows the object above
        it in the hierarchy, when there is one; without a panel nothing
        happens. */
    method ShowEventPopup(ev: EventInfo, formatFull: int -> string, htmlDecode: string -> string)
      modifies PanelRepr()
      ensures detailsPanel != null ==>
        detailsPanel.Shows(ev.title, formatFull(ev.dtStart), ev.location, ev.description, htmlDecode) &&
        detailsPanel.parentActive == old(detailsPanel.parentActive) &&
        detailsPanel.transformParentActive ==
          (detailsPanel.hasTransformParent || old(detailsPanel.transformParentActive))
    {
      if detailsPanel == null {
        return;
      }
      var timeStr := formatFull(ev.dtStart);
      detailsPanel.ShowDetails(ev.title, timeStr, ev.location, ev.description, htmlDecode);
      if detailsPanel.hasTransformParent {
        detailsPanel.transformParentActive := true;
      }
    }

    /** A click on a rich-text link: the click is marked as consumed; an
        `event_` id of a known event opens its details, a `location_` id of
        a known location focuses its building; anything else is ignored. */
    method HandleLinkClick(linkId: string, formatFull: int -> string, htmlDecode: string -> string)
      requires Valid()
      modifies this`linkClickConsumed, PanelRepr(), ManagerRepr()
      ensures Valid()
      ensures linkClickConsumed
      ensures EventIdPrefix <= linkId && linkId in eventLookup && detailsPanel != null ==>
        detailsPanel.Shows(eventLookup[linkId].title, formatFull(eventLookup[linkId].dtStart),
                           eventLookup[linkId].location, eventLookup[linkId].description, htmlDecode) &&
        detailsPanel.parentActive == old(detailsPanel.parentActive) &&
        detailsPanel.transformParentActive ==
          (detailsPanel.hasTransformParent || old(detailsPanel.transformParentActive))
      ensures !(EventIdPrefix <= linkId && linkId in eventLookup) ==> unchanged(PanelRepr())
      ensures !(EventIdPrefix <= linkId) && LocationIdPrefix <= linkId && linkId in locationLookupBuilding ==>
        manager != null && manager.FocusedOn(locationLookupBuilding[linkId], old(manager.FocusState()))
      ensures !(!(EventIdPrefix <= linkId) && LocationIdPrefix <= linkId && linkId in locationLookupBuilding) ==>
        unchanged(ManagerRepr())
    {
      linkClickConsumed := true;
      if EventIdPrefix <= linkId {
        OpenEvent(linkId, formatFull, htmlDecode);
      } else if LocationIdPrefix <= linkId {
        FocusLocation(linkId);
      }
    }

    /** The `event_` branch: show the details of the event the link stands
        for, if any. */
    method OpenEvent(linkId: string, formatFull: int -> string, htmlDecode: string -> string)
      modifies PanelRepr()
      ensures linkId in eventLookup && detailsPanel != null ==>
        detailsPanel.Shows(eventLookup[linkId].title, formatFull(eventLookup[linkId].dtStart),
                           eventLookup[linkId].location, eventLookup[linkId].description, htmlDecode) &&
        detailsPanel.parentActive == old(detailsPanel.parentActive) &&
        detailsPanel.transformParentActive ==
          (detailsPanel.hasTransformParent || old(detailsPanel.transformParentActive))
      ensures linkId !in eventLookup ==> unchanged(PanelRepr())
    {
      var ev := TryGetEventInfo(linkId);
      if ev.Some? {
        ShowEventPopup(ev.value, formatFull, htmlDecode);
      }
    }

    /** The `location_` branch: focus the building the link leads to, if any. */
    method FocusLocation(linkId: string)
      requires Valid()
      modifies ManagerRepr()
      ensures Valid()
      ensures linkId in locationLookupBuilding ==>
        manager != null && manager.FocusedOn(locationLookupBuilding[linkId], old(manager.FocusState()))
      ensures linkId !in locationLookupBuilding ==> unchanged(ManagerRepr())
    {
      if linkId in locationLookupBuilding {
        var building := locationLookupBuilding[linkId];
        manager.FocusBuilding(Some(building));
      }
    }

    /** One frame: a click right after a link click only clears the flag; any
        other click outside the panel's rectangle hides the object above the
        panel in the hierarchy, when there is one. */
    method Update(mouseDown: bool, insidePanelRect: bool)
      modifies this`linkClickConsumed, PanelRepr()
      ensures !mouseDown ==> linkClickConsumed == old(linkClickConsumed) && unchanged(PanelRepr())
      ensures mouseDown && old(linkClickConsumed) ==> !linkClickConsumed && unchanged(PanelRepr())
      ensures mouseDown && !old(linkClickConsumed) ==> !linkClickConsumed
      ensures mouseDown && !old(linkClickConsumed) && hasPanelRect && !insidePanelRect && detailsPanel != null ==>
        detailsPanel.transformParentActive == (!detailsPanel.hasTransformParent && old(detailsPanel.transformParentActive))
      ensures detailsPanel != null ==>
        detailsPanel.parentActive == old(detailsPanel.parentActive) && detailsPanel.active == old(detailsPanel.active)
      ensures !(mouseDown && !old(linkClickConsumed) && hasPanelRect && !insidePanelRect) ==> unchanged(PanelRepr())
    {
      if mouseDown {
        if linkClickConsumed {
          linkClickConsumed := false;
          return;
        }
        if hasPanelRect && !insidePanelRect {
          if detailsPanel != null && detailsPanel.hasTransformParent {
            detailsPanel.transformParentActive := false;
          }
        }
      }
    }
  }
}
