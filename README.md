# Campus map: verified model of the scripting core

This project models the non-engine logic of a Unity campus-map application in
Dafny and proves properties of it. The application lets a visitor find a
campus building by name, search for it, click it on the map and browse the
floors of a focused building. It also shows a board of upcoming campus events
whose locations link to buildings and whose details open in a popup, plus a
weather widget. The modelled parts are these:

- **The building name registry** (`BuildingLookupManager`, module
  `BuildingLookup`).
  - A case-insensitive dictionary from names to buildings in which the first
    registration of a name wins. The scene loop fills it with every
    building's canonical name and then its aliases.
  - Exact lookup, "contains" suggestions, and the distinct buildings.
  - A click state machine: rooms are only highlighted; other buildings are
    focused on a double click on the same building.
  - The current highlight, and the hover-timer table.
- **Name normalisation** (`BuildingInfo`, module `Buildings`): one leading
  "the " is removed, in any case, from canonical names and aliases.
- **The event board** (`EventScraperUIGrouped`, modules `EventFeed`,
  `EventBoard`, `LocationLinks` and `WordMatch`).
  - Feed items are filtered (cancelled, unparsable or past events are
    dropped), sorted by start and grouped by day.
  - Each event is rendered with numbered `event_k` / `location_k` link ids.
  - The best whole-word match of a building name is found in the event's
    location, extended over a room number, and wrapped in a link.
  - The description is cleaned by `ExtractEventDetails`.
  - Link clicks are dispatched, and the "click consumed" flag is tracked.
- **The floor panel** (`BuildingFloorController`, module `FloorPanel`): the
  current floor is kept in `[minFloor, maxFloor]`; the focused building and
  the panel's visibility are tracked.
- **The search box** (`BuildingSearchUI`, module `SearchUI`).
  - Suggestions are the prefix matches among the registry's suggestions,
    capped at six.
  - The search outcomes and their feedback messages.
- **The event details panel** (`EventDetailsPanel`, module `EventDetails`):
  the HTML description cleaner `StripHtml` and the default-message rule.
- **The weather tables** (`WeatherFetcher`, module `Weather`): code to
  description and code to icon.
- **The editor find/replace window** (`CanonicalNameTableReplacer`, module
  `NameReplacer`): the ordered replace-pair fold, the update count, and
  adding and removing rows.
- **The floating label** (`FloatingPopup`, module `Popup`): its
  hovering/fading flags, fade timer and alpha.

Module `Strings` restates the .NET string operations the scripts use:
`Trim`, ordinal-ignore-case comparison, `IndexOf`, `Replace` and
`int.ToString`. Module `Mathf` restates Unity's `Clamp` and `Clamp01`, and
the infinite and NaN results of single-precision division that `Clamp01`
receives.

Each component whose fields the scripts update is a class with those fields.
Its methods are proved against specification functions, and lemmas prove what
the application promises about those functions.

Some engine inputs become parameters:
- the raycast result;
- the clock (`Time.time`, `DateTime.Now`);
- the already-parsed feed items;
- the date and time formatters;
- `WebUtility.HtmlDecode`.

Buildings are values that carry an identity.

## Model

| member | source | states |
|---|---|---|
| Buildings.NormalizeAll | Assets/Scripts/BuildingInfo.cs:19-24 | `Aliases` has one entry per stored alias, in order, each normalised by the canonical-name rule |
| Buildings.NormalizeRemovesPrefix | Assets/Scripts/BuildingInfo.cs:14-17 | a leading "the " in any case is removed and the rest trimmed |
| Buildings.NormalizeKeepsOtherNames | Assets/Scripts/BuildingInfo.cs:14-17 | a name not starting with "the " (any case) is returned exactly as stored, untrimmed |
| Buildings.NormalizeNeedsTheSpace | Assets/Scripts/BuildingInfo.cs:14-17 | "the" without a following space, as in "Theatre", is not stripped |
| Buildings.NormalizeRemovesOnlyOne | Assets/Scripts/BuildingInfo.cs:14-17 | only one prefix goes: "the the X" becomes "the X" |
| Buildings.NormalizedPrefixedNameIsTrimmed | Assets/Scripts/BuildingInfo.cs:14-17 | a name that had the prefix comes out without white space at either end |
| Strings.ToLower | Assets/Scripts/EventScraper.cs:186 | ASCII letters are lower-cased and every other character kept; word characters and white space stay what they were |
| Strings.Lower | Assets/Scripts/EventScraper.cs:186 | the lower-cased string has the same length and each character lower-cased |
| Strings.IndexOfIgnoreCase | Assets/Scripts/EventDetailsPanel.cs:53 | `IndexOf(p, OrdinalIgnoreCase)`: no result exactly when `p` does not occur; otherwise an occurrence with none earlier |
| Strings.IndexFrom | Assets/Scripts/EventScraper.cs:365 | the first case-insensitive occurrence at or after an offset, or none at or after it |
| Strings.BeforeFirstMatch | Assets/Scripts/EventDetailsPanel.cs:53-56 | the text before the first occurrence of a marker does not contain the marker |
| Strings.Trim | Assets/Scripts/buildingSeachUI.cs:112 | `Trim()` gives a slice of its input with no white space at either end, and leaves a string without edge white space unchanged |
| Strings.TrimDropsOnlyWhiteSpace | Assets/Scripts/buildingSeachUI.cs:112 | what `Trim` removes on either side is white space only |
| Strings.TrimKeepsNotContains | Assets/Scripts/EventScraper.cs:367 | trimming cannot bring a marker into a string that lacks it |
| Strings.TrimmedBlankIsEmpty | Assets/Scripts/EventDetailsPanel.cs:24 | a trimmed string is white space only exactly when it is empty |
| Strings.TrimUnpadded | Assets/Scripts/EventScraper.cs:359 | `Trim` removes white space padding: its result is a slice with only white space before and after it |
| Strings.UnpaddedIsTrim | Assets/Scripts/EventScraper.cs:359 | any text without edge white space that a string pads with white space is that string's `Trim` |
| Strings.PaddedIndexOf | Assets/Scripts/EventScraper.cs:365 | for a marker with visible first and last characters, the first match in a padded text is the first match in the text, shifted by the padding, and there is none exactly when the text has none |
| Strings.PaddedPrefix | Assets/Scripts/EventScraper.cs:365-367 | a prefix of the padded content, padded at offset `b`, is the matching prefix of the padded text, padded at the two offsets added |
| Strings.ReplaceAllAbsent | Assets/Editor/CanonicalNameTableReplacer.cs:90 | `Replace` of a string that does not occur changes nothing |
| Strings.ReplaceAllSelf | Assets/Editor/CanonicalNameTableReplacer.cs:90 | `Replace` of a string by itself changes nothing |
| Strings.NatToString | Assets/Scripts/EventScraper.cs:245 | `int.ToString()` of a non-negative number is a non-empty string of digits, one digit exactly below 10 |
| Strings.NatToStringInjective | Assets/Scripts/EventScraper.cs:245 | different numbers print differently |
| Strings.PrefixedNumberInjective | Assets/Scripts/EventScraper.cs:245 | a prefix followed by a number determines the number, so link ids are distinct |
| Mathf.Clamp | Assets/Scripts/BuildingFloorController.cs:163 | the result lies in a well-formed range, equals an in-range value, and is the nearer bound otherwise |
| Mathf.Clamp01 | Assets/Scripts/BuildingLookupManager.cs:126 | the result lies in [0, 1], equals an in-range value, and is the nearer bound otherwise |
| Mathf.Divide | Assets/Scripts/BuildingLookupManager.cs:126 | single-precision division: the quotient for a non-zero divisor; for a zero divisor an infinity of the dividend's sign, or NaN for a zero dividend |
| Mathf.Clamp01Single | Assets/Scripts/BuildingLookupManager.cs:126 | `Clamp01` on a single: numbers clamped into [0, 1], infinities to the nearer end, NaN kept |
| Mathf.ClampedQuotient | Assets/Scripts/BuildingLookupManager.cs:125-126 | the hover fraction is the clamped real quotient for a non-zero delay; with a zero delay it is 1 once time has passed and NaN in the frame the timer starts; with a negative delay it is 0 |
| BuildingLookup.Lookup | Assets/Scripts/BuildingLookupManager.cs:314-318 | `TryGetValue`: finds a building exactly when some key equals the name ignoring case, and then that key's building; an empty name finds nothing |
| BuildingLookup.LookupIgnoresCase | Assets/Scripts/BuildingLookupManager.cs:36 | two names differing only in ASCII case find the same building |
| BuildingLookup.Register | Assets/Scripts/BuildingLookupManager.cs:306-312 | registering keeps the dictionary well formed and either keeps the keys or appends exactly the new name |
| BuildingLookup.RegisterLookup | Assets/Scripts/BuildingLookupManager.cs:306-312 | after registering, a query finds what it found before; if it found nothing and equals the non-empty name, it finds the new building; the first registration wins |
| BuildingLookup.RegisterNames | Assets/Scripts/BuildingLookupManager.cs:55-58 | registering a list of names keeps the dictionary well formed |
| BuildingLookup.RegisterNamesLookup | Assets/Scripts/BuildingLookupManager.cs:55-58 | after a building's names are registered, a query finds the earlier owner, else that building exactly when it equals one of the non-empty names |
| BuildingLookup.RegisterAll | Assets/Scripts/BuildingLookupManager.cs:50-59 | the scene loop keeps the dictionary well formed |
| BuildingLookup.RegisterAllLookup | Assets/Scripts/BuildingLookupManager.cs:50-59 | after the scene loop, a name finds its earlier owner, else the first building in scene order that has it as canonical name or alias |
| BuildingLookup.SceneLookupIsFirstOwner | Assets/Scripts/BuildingLookupManager.cs:50-59 | from an empty dictionary, every name finds the first building in scene order that carries it |
| BuildingLookup.RegisterAllNeverOverwrites | Assets/Scripts/BuildingLookupManager.cs:308 | a name that already finds a building still finds it after any further registrations |
| BuildingLookup.CanonicalNameFindsItsBuilding | Assets/Scripts/BuildingLookupManager.cs:54-56 | a building's canonical name finds that building unless an earlier building claimed the name |
| BuildingLookup.KeysContaining | Assets/Scripts/BuildingLookupManager.cs:364-366 | exactly the keys containing the input, ignoring case, in key order |
| BuildingLookup.Suggestions | Assets/Scripts/BuildingLookupManager.cs:359-367 | `GetSuggestions`: empty for an empty input, otherwise exactly the registered keys containing it, ignoring case, in key order |
| BuildingLookup.ValuesInKeyOrder | Assets/Scripts/BuildingLookupManager.cs:356 | `Values`: one building per key, the one that key maps to |
| BuildingLookup.Distinct | Assets/Scripts/BuildingLookupManager.cs:356 | `Distinct()` keeps every element and repeats none |
| BuildingLookup.AllBuildings | Assets/Scripts/BuildingLookupManager.cs:354-357 | `GetAllBuildings` yields every registered building, each exactly once |
| BuildingLookup.BuildingLookupManager.constructor | Assets/Scripts/BuildingLookupManager.cs:21-48 | the initial state for any inspector values, including a zero or negative `hoverDelay`: empty dictionary, no last click (time -1), no highlight, no hover timers |
| BuildingLookup.BuildingLookupManager.RegisterBuilding | Assets/Scripts/BuildingLookupManager.cs:306-312 | the dictionary becomes `Register` of the old one |
| BuildingLookup.BuildingLookupManager.Awake | Assets/Scripts/BuildingLookupManager.cs:50-59 | the registration loop leaves the dictionary equal to `RegisterAll` of the scene's buildings |
| BuildingLookup.BuildingLookupManager.RegisterBuildingNames | Assets/Scripts/BuildingLookupManager.cs:54-58 | one pass of the loop registers the canonical name, then each alias, in order |
| BuildingLookup.BuildingLookupManager.HighlightBuildingOnly | Assets/Scripts/BuildingLookupManager.cs:180-206 | null changes nothing; otherwise the argument becomes the highlight and the material set becomes `Rehighlighted` of the old one |
| BuildingLookup.Rehighlighted | Assets/Scripts/BuildingLookupManager.cs:185-193 | after highlighting `b`, `b` wears the material when one is assigned (and keeps its old state otherwise); a previous, different highlight loses it; every other building keeps its state |
| BuildingLookup.BuildingLookupManager.ClearHighlight | Assets/Scripts/BuildingLookupManager.cs:248-260 | no building is highlighted afterwards |
| BuildingLookup.BuildingLookupManager.FocusBuilding | Assets/Scripts/BuildingLookupManager.cs:213-242 | null changes nothing; otherwise `FocusedOn`: the building is the current highlight, the material set is `Rehighlighted` of the one before, and the floor panel, when present, shows it as its visible, active focused building, at its clamped target floor unless it was already on show or has no floors |
| BuildingLookup.BuildingLookupManager.ProcessClick | Assets/Scripts/BuildingLookupManager.cs:141-174 | a miss or a non-building hit changes nothing; a hit building becomes the current highlight with the material set `Rehighlighted`; a room is highlighted; any other building is focused (`FocusedOn`) exactly on a second click on it within the threshold, else highlighted with the floor panel untouched; a building click records the time and the building |
| BuildingLookup.BuildingLookupManager.ProcessHover | Assets/Scripts/BuildingLookupManager.cs:77-133 | afterwards the timers hold at most the hovered building; its existing timer is kept and a new one starts now; nothing hovered clears them; the progress is `Clamp01(elapsed / hoverDelay)` in single precision, a number in [0, 1], NaN exactly for a zero delay in the frame the timer starts |
| BuildingLookup.BuildingLookupManager.SearchAndFocus | Assets/Scripts/BuildingLookupManager.cs:320-329 | the query is found exactly when the dictionary has it; a found building is focused as `FocusBuilding` focuses it, on the map and on the floor panel; a miss changes nothing |
| FloorPanel.ApplyFloorCommandInRange | Assets/Scripts/BuildingFloorController.cs:143-165 | Next, Previous or GoTo from a floor in a well-formed range stays in the range |
| FloorPanel.RunFloorCommandsInRange | Assets/Scripts/BuildingFloorController.cs:143-165 | any series of Next, Previous and GoTo keeps the floor in a well-formed range |
| FloorPanel.NextThenPrevious | Assets/Scripts/BuildingFloorController.cs:143-159 | below the top floor, Next then Previous returns to the same floor |
| FloorPanel.BuildingFloorController.constructor | Assets/Scripts/BuildingFloorController.cs:24-43 | starts hidden and inactive with nothing focused, on floor 1 |
| FloorPanel.BuildingFloorController.NextFloor | Assets/Scripts/BuildingFloorController.cs:143-150 | the floor goes up by one exactly when below `maxFloor`, and stays in range |
| FloorPanel.BuildingFloorController.PreviousFloor | Assets/Scripts/BuildingFloorController.cs:152-159 | the floor goes down by one exactly when above `minFloor`, and stays in range |
| FloorPanel.BuildingFloorController.GoToFloor | Assets/Scripts/BuildingFloorController.cs:161-165 | the floor becomes the requested one clamped to `[minFloor, maxFloor]` |
| FloorPanel.BuildingFloorController.InternalUnfocus | Assets/Scripts/BuildingFloorController.cs:121-130 | no building is focused and no Animator is held |
| FloorPanel.BuildingFloorController.ShowPanel | Assets/Scripts/BuildingFloorController.cs:98-104 | the object is active and the panel visible |
| FloorPanel.BuildingFloorController.SetActive | Assets/Scripts/BuildingLookupManager.cs:238 | `gameObject.SetActive` sets the active flag |
| FloorPanel.BuildingFloorController.HidePanel | Assets/Scripts/BuildingFloorController.cs:114-119 | the panel is no longer visible |
| FloorPanel.BuildingFloorController.OnCloseButtonClicked | Assets/Scripts/BuildingFloorController.cs:106-112 | closing a hidden panel changes nothing; otherwise the panel is hidden and nothing is focused; only the visibility, the focus and the Animator can change, so the floor, labels, tooltip, buttons and active flag stay |
| FloorPanel.BuildingFloorController.UnfocusBuilding | Assets/Scripts/BuildingFloorController.cs:93-96 | the same as the close button, under the same narrow frame |
| FloorPanel.BuildingFloorController.SetFocusedBuilding | Assets/Scripts/BuildingFloorController.cs:45-91 | null throws exactly when the tooltip label exists, and changes nothing; with the label, a building's tooltip is shown, visible exactly when not blank; without it the tooltip stays; the already-shown building keeps focus, floor, labels, Animator and buttons; any other building becomes the visible focus, with its name, first alias or "none" on the alias label when that is assigned, floor buttons, and clamped target floor; the floor stays in range |
| FloorPanel.BuildingFloorController.ShowNewBuilding | Assets/Scripts/BuildingFloorController.cs:62-90 | a building not on show becomes the visible, active focus with its Animator, name, floor buttons shown exactly when it animates floors, and its clamped target floor; a building without floors keeps the floor; the alias label, when assigned, shows the first alias or "none" and is activated, and is left alone when not assigned |
| Popup.FloatingPopup.constructor | Assets/Scripts/FloatingPopup.cs:18-25 | starts not hovering, not fading, timer 0, alpha 0 |
| Popup.FloatingPopup.SetAlpha | Assets/Scripts/FloatingPopup.cs:62-71 | the alpha becomes the given value |
| Popup.FloatingPopup.SetTarget | Assets/Scripts/FloatingPopup.cs:77-111 | the popup restarts: hovering, not fading, timer 0, alpha 1 when persistent and 0 otherwise |
| Popup.FloatingPopup.UpdateAppearProgress | Assets/Scripts/FloatingPopup.cs:117-132 | the alpha is always in [0, 1]: 1 for a persistent popup, whose flags are kept; otherwise any fade is cancelled, hovering is set and alpha is the clamped progress |
| Popup.FloatingPopup.OnHoverExit | Assets/Scripts/FloatingPopup.cs:138-149 | a persistent popup is unchanged; otherwise hovering stops and a fade runs, and a running fade's timer is not restarted |
| Weather.Description | Assets/Scripts/WeatherFetcher.cs:64-98 | `GetWeatherDescription` is total and never empty |
| Weather.Icon | Assets/Scripts/WeatherFetcher.cs:100-124 | `GetWeatherIcon` is total, and the unknown icon comes exactly for the unlisted codes |
| Weather.UnknownExactlyWhenUnlisted | Assets/Scripts/WeatherFetcher.cs:64-98 | a code is described as "Unknown" exactly when the table does not list it |
| Weather.DescriptionGroups | Assets/Scripts/WeatherFetcher.cs:72-95 | 45/48 are Fog, 51/53/55 Drizzle, 61/63/65 Rain, 96/99 Thunderstorm with hail |
| Weather.IconGroups | Assets/Scripts/WeatherFetcher.cs:104-121 | clear-sky icon exactly for 0 and 1; rain for 61, 63, 65, 80, 81, 82; snow for 71, 73, 75, 85, 86; thunderstorm for 95, 96, 99 |
| Weather.IconImpliesDescription | Assets/Scripts/WeatherFetcher.cs:64-124 | a code with a real icon has a real description |
| Weather.DescribedWithoutIcon | Assets/Scripts/WeatherFetcher.cs:64-124 | the converse fails: 45, 51 and 77 are described but get the unknown icon |
| Weather.IconMatchesDescription | Assets/Scripts/WeatherFetcher.cs:64-124 | rain, snow and thunderstorm icons go with descriptions of that weather |
| WordMatch.FirstWholeWordFrom | Assets/Scripts/EventScraper.cs:276-277 | the leftmost whole-word, case-insensitive occurrence at or after an offset, or none there |
| WordMatch.FirstWholeWord | Assets/Scripts/EventScraper.cs:276-278 | `Regex.Match` of `\b` + name + `\b` ignoring case: the leftmost whole-word occurrence, none exactly when there is none |
| WordMatch.NotInsideWord | Assets/Scripts/EventScraper.cs:275 | "AC" is not found inside "act" |
| WordMatch.FoundBetweenSpaces | Assets/Scripts/EventScraper.cs:275-277 | "AC" is found at offset 3 of "in AC 101" |
| EventFeed.TimeZoneLength | Assets/Scripts/EventScraper.cs:360 | every time-zone token is three letters long |
| EventFeed.FirstTimeZoneFrom | Assets/Scripts/EventScraper.cs:360-361 | the leftmost whole-word time-zone token at or after an offset, or none there |
| EventFeed.FirstTimeZone | Assets/Scripts/EventScraper.cs:360-361 | the leftmost whole-word PST/PDT/EST/EDT/CST/CDT/MST/MDT in any case, none exactly when there is none |
| EventFeed.AfterTimeZone | Assets/Scripts/EventScraper.cs:361-363 | the text after the first token with its white space padding removed (`Unpadded` of `ZoneTail`); text without a token is kept |
| EventFeed.CutAtMarker | Assets/Scripts/EventScraper.cs:365-367 | the text before the first "Event type:" with its padding removed; it never contains the marker, and text without it is kept |
| EventFeed.ExtractEventDetails | Assets/Scripts/EventScraper.cs:354-370 | empty gives ""; the result is trimmed and never contains "Event type:"; it is what follows the first token in the trimmed description, unpadded, cut before the first marker of that tail when there is one; without token or marker it is the trimmed input |
| EventFeed.KeptPart | Assets/Scripts/EventScraper.cs:359-367 | the marker search on the trimmed tail finds the marker where it lies in the untrimmed tail, so trimming before the cut keeps exactly the unpadded text before the marker |
| EventFeed.KeptWith | Assets/Scripts/EventScraper.cs:183-222 | no more events than items, each starting strictly after now with no "cancelled" in its title |
| EventFeed.KeptEventsMembers | Assets/Scripts/EventScraper.cs:186-211 | an event is kept exactly when some item passing all three filters produces it |
| EventFeed.KeptComesFromItem | Assets/Scripts/EventScraper.cs:183-222 | every kept event comes from an item that passes the filters |
| EventFeed.KeptItemIsEvent | Assets/Scripts/EventScraper.cs:183-222 | every item that passes the filters gives a kept event |
| EventFeed.ParseItems | Assets/Scripts/EventScraper.cs:181-222 | the item loop yields exactly the kept events, in feed order |
| EventFeed.InsertByStart | Assets/Scripts/EventScraper.cs:225 | inserting adds exactly the one event |
| EventFeed.InsertKeepsSorted | Assets/Scripts/EventScraper.cs:225 | inserting into a list sorted by start keeps it sorted |
| EventFeed.SortByStart | Assets/Scripts/EventScraper.cs:225 | `events.Sort` by start: sorted by nondecreasing start and a permutation of its input |
| EventFeed.DayOfMonotone | Assets/Scripts/EventScraper.cs:231 | a later start is never on an earlier day |
| EventFeed.AddToGroups | Assets/Scripts/EventScraper.cs:231-234 | adding an event gives non-empty groups whose first day is the smaller of the old first day and the event's day |
| EventFeed.AddToGroupsWellFormed | Assets/Scripts/EventScraper.cs:228-235 | adding an event keeps days strictly ascending, no group empty, every event in its own day's group |
| EventFeed.AddToGroupsMultiset | Assets/Scripts/EventScraper.cs:232-234 | adding an event loses and duplicates nothing |
| EventFeed.GroupAllSpec | Assets/Scripts/EventScraper.cs:228-235 | the grouping gives well-formed groups that together hold exactly the events |
| EventFeed.AddAtEnd | Assets/Scripts/EventScraper.cs:232-234 | an event no earlier than the last group's day joins the end of the listing |
| EventFeed.GroupSortedKeepsOrder | Assets/Scripts/EventScraper.cs:228-235 | grouping a sorted list and reading the groups in day order gives back the list |
| EventFeed.GroupByDay | Assets/Scripts/EventScraper.cs:228-235 | the grouping loop computes `GroupAll` |
| EventFeed.FeedOrder | Assets/Scripts/EventScraper.cs:225-241 | the board lists the kept events sorted by start, grouped by ascending day, each kept event exactly once |
| EventFeed.LinkIdsDistinct | Assets/Scripts/EventScraper.cs:245 | `event_k` ids differ for different k, as do `location_k` ids, the two kinds never coincide, and each has only its own prefix |
| EventFeed.EventIdsDistinct | Assets/Scripts/EventScraper.cs:245 | different event numbers give different ids |
| EventFeed.EventTableHas | Assets/Scripts/EventScraper.cs:245-246 | after registration, `event_(base+k)` maps to the k-th event |
| EventFeed.EventTableKeeps | Assets/Scripts/EventScraper.cs:246 | keys that are no event's id keep their earlier entry |
| EventFeed.EventTableAppend | Assets/Scripts/EventScraper.cs:237-246 | registering two runs of events one after the other continues the numbering |
| EventBoard.EventShown | Assets/Scripts/EventScraper.cs:242-332 | every event of a day appears in that day's text with its number |
| EventBoard.FeedEventShown | Assets/Scripts/EventScraper.cs:237-334 | every event of the board appears in the text under its overall position number |
| EventBoard.LocationTableSnoc | Assets/Scripts/EventScraper.cs:312-320 | one more event adds `location_k` exactly when its location matched |
| EventBoard.LocationTableAppend | Assets/Scripts/EventScraper.cs:237-320 | registering two runs of events one after the other continues the numbering |
| EventBoard.LocationTableLinked | Assets/Scripts/EventScraper.cs:312-320 | `location_(base+k)` maps to the building that event k's location matched |
| EventBoard.LocationTableKeeps | Assets/Scripts/EventScraper.cs:320 | keys that are no linked event's id keep their earlier entry |
| EventBoard.LocationTableUnlinked | Assets/Scripts/EventScraper.cs:312-323 | the id of an event whose location matched nothing gets no new entry |
| EventBoard.LocationTableWithoutManager | Assets/Scripts/EventScraper.cs:256 | without a lookup manager no location is linked |
| EventBoard.LocationTableBuildings | Assets/Scripts/EventScraper.cs:265-320 | every linked building is one of the manager's buildings |
| EventBoard.DisplayLocation | Assets/Scripts/EventScraper.cs:255-328 | the matcher loops compute the location display and linked building of `LocationDisplay` |
| EventBoard.EventScraper.constructor | Assets/Scripts/EventScraper.cs:33-39 | both dictionaries empty, no click consumed, no text |
| EventBoard.EventScraper.ProcessFeed | Assets/Scripts/EventScraper.cs:181-337 | the dictionaries become the event and location tables of the grouped kept events numbered from 0, and the label shows the rendered board when assigned |
| EventBoard.EventScraper.ComputeFeed | Assets/Scripts/EventScraper.cs:181-334 | the text is the rendering of the grouped kept events, and the two tables as in `ProcessFeed`; without a manager no location is added |
| EventBoard.EventScraper.BuildGroups | Assets/Scripts/EventScraper.cs:181-235 | filtering, sorting and grouping give `FeedGroups` |
| EventBoard.EventScraper.RenderFeed | Assets/Scripts/EventScraper.cs:237-334 | the day loop renders the groups and numbers their events consecutively from 0 in both tables |
| EventBoard.EventScraper.RenderDay | Assets/Scripts/EventScraper.cs:242-332 | the event loop of one day renders its events numbered from `base` and registers both links |
| EventBoard.EventScraper.AddEvent | Assets/Scripts/EventScraper.cs:244-331 | one pass appends the event's block and adds its event link, plus its location link when matched |
| EventBoard.EventScraper.RenderEvent | Assets/Scripts/EventScraper.cs:245-330 | an event's block is its title link, time and location display, with link id `location_k` |
| EventBoard.EventScraper.TryGetEventInfo | Assets/Scripts/EventScraper.cs:375-378 | finds an event exactly for a registered id, and then the registered event |
| EventBoard.EventScraper.ShowEventPopup | Assets/Scripts/EventScraper.cs:383-393 | with a panel, it shows the event's title, time, location and cleaned description, and the object above the panel in the hierarchy is active when there is one; the `parent` field's object is untouched |
| EventBoard.EventScraper.HandleLinkClick | Assets/Scripts/EventScraper.cs:97-136 | the click is always marked consumed; a known `event_` id opens its details; a known `location_` id focuses its building as `FocusBuilding` does, floor panel included; anything else touches neither the panel nor the manager |
| EventBoard.EventScraper.OpenEvent | Assets/Scripts/EventScraper.cs:105-118 | a known event id opens its details; an unknown one changes nothing |
| EventBoard.EventScraper.FocusLocation | Assets/Scripts/EventScraper.cs:120-135 | a known location id focuses its building on the map and on the floor panel (`FocusedOn`); an unknown one changes nothing |
| EventBoard.EventScraper.Update | Assets/Scripts/EventScraper.cs:66-92 | a click after a link click only clears the flag; any other click outside the panel's rectangle hides the object above the panel in the hierarchy, when there is one; the panel and its `parent` field's object are untouched |
| LocationLinks.SkipWhiteSpace | Assets/Scripts/EventScraper.cs:287-288 | the first offset from `from` that is not white space |
| LocationLinks.SkipDigits | Assets/Scripts/EventScraper.cs:289-290 | the first offset from `from` that is not a digit |
| LocationLinks.ExtendedEnd | Assets/Scripts/EventScraper.cs:285-290 | the extended end covers only white space and digits |
| LocationLinks.ExtendMatchEnd | Assets/Scripts/EventScraper.cs:285-290 | the two `while` loops compute the extended end |
| LocationLinks.ExtensionTakesRoomNumber | Assets/Scripts/EventScraper.cs:285-290 | in "AC 101" a match of "AC" extends over " 101" |
| LocationLinks.MatchOf | Assets/Scripts/EventScraper.cs:276-293 | a match exists exactly when the name occurs as a whole word; it starts at the leftmost such occurrence, covers it plus only white space and digits, and is `extended` exactly when longer than the name |
| LocationLinks.MatchCandidate | Assets/Scripts/EventScraper.cs:276-293 | the regex match and extension of one name compute `MatchOf` |
| LocationLinks.BetterIsStrict | Assets/Scripts/EventScraper.cs:295-297 | the replacement rule is irreflexive, asymmetric and transitive |
| LocationLinks.BetterThrough | Assets/Scripts/EventScraper.cs:295-297 | any two matches are comparable through the rule |
| LocationLinks.BestOfIsFirstBest | Assets/Scripts/EventScraper.cs:295-306 | nothing is found exactly when no candidate matches; otherwise the result is the first match that no other match beats |
| LocationLinks.MatchesOf | Assets/Scripts/EventScraper.cs:273-308 | each candidate's match, in candidate order |
| LocationLinks.CandidateNames | Assets/Scripts/EventScraper.cs:267-271 | the names tried: the canonical name unless empty, and every alias |
| LocationLinks.AllCandidatesMembers | Assets/Scripts/EventScraper.cs:265-273 | the candidates are exactly the pairs of a manager building and one of its names |
| LocationLinks.BestMatchIsAName | Assets/Scripts/EventScraper.cs:264-309 | the best match belongs to one of the buildings and is a whole-word match of one of its names |
| LocationLinks.FindBestMatch | Assets/Scripts/EventScraper.cs:258-309 | the nested candidate loops compute `BestMatch` |
| LocationLinks.TryBuilding | Assets/Scripts/EventScraper.cs:267-308 | one building's names, in order, update the best match as the rule says |
| LocationLinks.RemoveTagsPlainPrefix | Assets/Scripts/EventScraper.cs:314-317 | tag removal keeps text without `<` as it is |
| LocationLinks.UnwrapParts | Assets/Scripts/EventScraper.cs:315-317 | removing the link tags around the linked part gives back the three plain parts |
| LocationLinks.SpliceUnwraps | Assets/Scripts/EventScraper.cs:312-317 | removing the markup from `before + link + after` gives back the original location |
| LocationLinks.LocationDisplay | Assets/Scripts/EventScraper.cs:255-328 | no manager or no location gives the location unlinked; a linked building is one of the manager's; without a link the text is the location |
| LocationLinks.LocationDisplayUnwraps | Assets/Scripts/EventScraper.cs:255-328 | the displayed location without its markup is the location |
| EventDetails.TagEnd | Assets/Scripts/EventDetailsPanel.cs:44 | where `<.*?>` closes: the first `>` with no line feed before it, or none when every `>` has a line feed before it |
| EventDetails.RemoveTags | Assets/Scripts/EventDetailsPanel.cs:44 | `Regex.Replace(s, "<.*?>", "")` keeps its characters in order, and text without `<` unchanged |
| EventDetails.NoTagLineKept | Assets/Scripts/EventDetailsPanel.cs:44 | the text after an unclosed `<` still closes no tag after removal |
| EventDetails.RemoveTagsLeavesNoTag | Assets/Scripts/EventDetailsPanel.cs:44 | no tag survives the removal |
| EventDetails.CollapseWhiteSpace | Assets/Scripts/EventDetailsPanel.cs:50 | `\s+` to one space: every white space is a single space with none next to another, empty exactly for empty input, starting and ending with a space exactly when the input starts and ends with white space |
| EventDetails.WordsAreWords | Assets/Scripts/EventDetailsPanel.cs:50 | the words `\s+` separates are non-empty and free of white space |
| EventDetails.WordsAppend | Assets/Scripts/EventDetailsPanel.cs:50 | text joined at white space has the words of its two parts |
| EventDetails.CollapseKeepsWords | Assets/Scripts/EventDetailsPanel.cs:50 | collapsing keeps every word, in order: only the runs between them change |
| EventDetails.TrimKeepsWords | Assets/Scripts/EventDetailsPanel.cs:50 | trimming keeps the words |
| EventDetails.JoinWords | Assets/Scripts/EventDetailsPanel.cs:50 | a trimmed, single-spaced text is its words joined by single spaces |
| EventDetails.WordsJoin | Assets/Scripts/EventDetailsPanel.cs:50 | joining words by spaces and splitting again gives the same words |
| EventDetails.CollapseKeepsVisible | Assets/Scripts/EventDetailsPanel.cs:50 | collapsing changes only white space: the other characters stay, in order |
| EventDetails.TrimKeepsVisible | Assets/Scripts/EventDetailsPanel.cs:50 | trimming removes only white space |
| EventDetails.CollapseAndTrim | Assets/Scripts/EventDetailsPanel.cs:50 | the words of the input joined by single spaces: no white space at the ends, single spaces inside, the other characters kept |
| EventDetails.CutAtEventType | Assets/Scripts/EventDetailsPanel.cs:53-57 | the text before the first "Event type", any case, with its padding removed; its visible characters are a prefix of the input's; the result never contains the marker, stays trimmed and single-spaced, and text without it is kept |
| EventDetails.StripHtml | Assets/Scripts/EventDetailsPanel.cs:35-60 | empty gives ""; otherwise the words of the decoded text without tags, joined by single spaces, cut before its first "Event type" with the padding removed; its visible characters are a prefix of the plain text's; it has no edge white space, single spaces only, no line feed and no marker |
| EventDetails.LineBreakBecomesSpace | Assets/Scripts/EventDetailsPanel.cs:41-50 | `<br/>` between two words ends up as one space |
| EventDetails.EventDetailsPanel.constructor | Assets/Scripts/EventDetailsPanel.cs:8-12 | all labels empty, the panel, its `parent` field's object and the object above it inactive |
| EventDetails.EventDetailsPanel.ShowDetails | Assets/Scripts/EventDetailsPanel.cs:14-33 | the labels show the details; the description is the cleaned text, or the default message exactly when the cleaned text is empty or white space; the panel is active |
| EventDetails.EventDetailsPanel.Hide | Assets/Scripts/EventDetailsPanel.cs:62-65 | the object in the `parent` field is inactive |
| SearchUI.WithPrefix | Assets/Scripts/buildingSeachUI.cs:58-59 | exactly the names starting with the input, ignoring case, in their order |
| SearchUI.FilteredSuggestions | Assets/Scripts/buildingSeachUI.cs:58-61 | at most six; a prefix of the prefix matches, all of them when fewer than six |
| SearchUI.StartsWithContains | Assets/Scripts/buildingSeachUI.cs:59 | a name starting with the input contains it |
| SearchUI.WithPrefixOfContaining | Assets/Scripts/buildingSeachUI.cs:55-59 | filtering the "contains" suggestions by prefix is filtering all keys by prefix |
| SearchUI.ShownAreFirstKeysWithPrefix | Assets/Scripts/buildingSeachUI.cs:55-61 | the shown items are the first six registered names that start with the input |
| SearchUI.SearchResult | Assets/Scripts/buildingSeachUI.cs:112-131 | an empty query gives the empty-query outcome; otherwise the named building if it is found, else not-found with the query |
| SearchUI.BuildingSearchUI.constructor | Assets/Scripts/buildingSeachUI.cs:20-33 | after `Start` the panel is hidden |
| SearchUI.BuildingSearchUI.UpdateSuggestions | Assets/Scripts/buildingSeachUI.cs:40-88 | empty input shows nothing; otherwise the six-capped prefix filter of the registry's keys; the panel is shown exactly when items exist |
| SearchUI.BuildingSearchUI.OnInputChanged | Assets/Scripts/buildingSeachUI.cs:35-38 | typing updates the suggestions as above |
| SearchUI.BuildingSearchUI.OnSuggestionClicked | Assets/Scripts/buildingSeachUI.cs:90-101 | the field gets the suggestion; a changed text fires `onValueChanged` (:27), so the items are rebuilt for the suggestion; an unchanged text keeps them; the panel ends hidden |
| SearchUI.BuildingSearchUI.OnSearchClicked | Assets/Scripts/buildingSeachUI.cs:108-132 | the panel is hidden; the trimmed field is searched; an empty or unknown query focuses nothing; a found building is focused on the map and on the floor panel (`FocusedOn`); the feedback label shows the outcome's message |
| SearchUI.BuildingSearchUI.SearchAndFocus | Assets/Scripts/buildingSeachUI.cs:112-126 | the lookup of the trimmed text, with the found building focused on the map and on the floor panel |
| SearchUI.BuildingSearchUI.OnInputSubmit | Assets/Scripts/buildingSeachUI.cs:103-106 | submitting searches as the button does: the same outcome, focus and feedback |
| NameReplacer.ApplyPairsAppend | Assets/Editor/CanonicalNameTableReplacer.cs:86-92 | applying two tables in turn is applying their concatenation, since pairs act in table order |
| NameReplacer.NonEmptyPairs | Assets/Editor/CanonicalNameTableReplacer.cs:88 | exactly the pairs with a non-empty `find` |
| NameReplacer.EmptyFindsAreSkipped | Assets/Editor/CanonicalNameTableReplacer.cs:88 | pairs with an empty `find` have no effect |
| NameReplacer.IdentityPairsChangeNothing | Assets/Editor/CanonicalNameTableReplacer.cs:86-92 | a table replacing every string by itself changes nothing |
| NameReplacer.CountIsChangedObjects | Assets/Editor/CanonicalNameTableReplacer.cs:95-102 | the update count is the number of objects whose name the table changes |
| NameReplacer.CountAtMostEditable | Assets/Editor/CanonicalNameTableReplacer.cs:73-80 | objects without `BuildingInfo` or without the property are never counted |
| NameReplacer.RemoveAt | Assets/Editor/CanonicalNameTableReplacer.cs:43 | removing row i shrinks the list by one and keeps the other rows in order |
| NameReplacer.CanonicalNameTableReplacer.constructor | Assets/Editor/CanonicalNameTableReplacer.cs:16 | the table starts empty |
| NameReplacer.CanonicalNameTableReplacer.ApplyTable | Assets/Editor/CanonicalNameTableReplacer.cs:83-92 | the pair loop applies every pair in order to the previous result |
| NameReplacer.CanonicalNameTableReplacer.ReplaceCanonicalNames | Assets/Editor/CanonicalNameTableReplacer.cs:65-106 | every selected object is rewritten exactly as the table says, and the count is the number of changed objects |
| NameReplacer.CanonicalNameTableReplacer.EditPair | Assets/Editor/CanonicalNameTableReplacer.cs:37-38 | the row's text fields replace that row only |
| NameReplacer.CanonicalNameTableReplacer.DrawRows | Assets/Editor/CanonicalNameTableReplacer.cs:32-47 | the row loop with `RemoveAt` and `i--` removes exactly the pressed row and keeps the rest in order |
| NameReplacer.CanonicalNameTableReplacer.AddPair | Assets/Editor/CanonicalNameTableReplacer.cs:51-54 | one empty pair is appended |

## Left out

- Camera movement and `SmoothZoomToBuilding`: vector and quaternion
  interpolation over frames, which is float geometry. `FocusBuilding` models
  its state effects only.
- Raycasts, `Input`, `EventSystem` checks and TMP link hit-testing. They
  become parameters: the hit or hovered building, the mouse state, and
  whether the click is inside the panel.
- The RSS download, XML/XPath parsing and the weather JSON request: these
  are network and library I/O. Parsed feed items are an input sequence,
  with the start as an optional integer timestamp (`None` when `TryParse`
  fails).
- `DateTime.ToLocalTime`, `.Date` and all date/time string formatting. "Now"
  is a parameter, a day is the timestamp divided by 86400, and the
  formatters are function parameters.
- The temperature conversion and rounding in `WeatherFetcher`: floating point.
- `WebUtility.HtmlDecode`: a function parameter, uninterpreted.
- NavMesh pathfinding (`FindNavMeshPathBetweenBuildings`) and
  `DirectionsUI.SetToBuilding`: engine pathfinding. `DirectionsUI` is not
  part of this model.
- `FloatingPopup.Update`: the fade arithmetic (`Lerp`, `Destroy` after
  `fadeDuration`) and the following of the target.
- The popups created in `ProcessHover` and `HighlightBuildingOnly`:
  `Instantiate`, `Destroy` and the `activePopups` dictionary. They are
  engine object lifetimes.
- The Animator triggers (`SetTrigger`, `ResetAnimation`,
  `UpdateFloorAnimation`). They are effects with no state in this model. The
  highlight material (`defaultHDparticle`) is modelled, as
  `hasHighlightMaterial` and the `highlighted` set.
- `Debug.Log` output.
- Case-insensitive comparison folds ASCII letters only; .NET folds all of
  Unicode.
- `Strings.IsWordChar` and `Strings.IsDigit` are ASCII only: letters, digits
  and `_`. The .NET regular-expression classes `\w` and `\b`, and
  `char.IsDigit`, take in every Unicode letter and decimal digit, so a
  non-ASCII letter next to a building name ends a whole word in the model but
  not in the source.
- `Mathf.Divide`: single-precision rounding and overflow are not modelled;
  quotients are exact reals. A zero divisor is taken to be positive zero, the
  value an inspector field holds.
- `Popup.FloatingPopup.UpdateAppearProgress` takes a real progress. The NaN
  progress that `ProcessHover` yields for a zero `hoverDelay`, which the
  source passes on and which makes the alpha NaN, is not carried into the
  popup.
- `EventDetails.EventDetailsPanel`: the object in its `parent` field (hidden
  by `Hide`) and the object above it in the hierarchy (shown and hidden by
  the event board) are two separate flags. A scene that assigns the same
  object to both is not modelled as one object. `Hide` with an unassigned
  `parent` throws in the source; the model takes `parent` to be assigned.
- `BuildingLookup.Distinct` and `BuildingLookup.ValuesInKeyOrder`: the order
  of `Dictionary.Values` is unspecified in .NET. The model takes
  registration order.
- `EventFeed.SortByStart`: `List.Sort` is not stable, and the model fixes
  one admissible order, a stable insertion sort. The proved properties are
  sortedness and permutation, which every order satisfies.
- `FloorPanel.BuildingFloorController.SetFocusedBuilding`: assumes the
  always-dereferenced labels and buttons are assigned. The two optional
  labels are modelled: the tooltip label (`hasTooltipText`), whose null case
  is the `NullReference` outcome, and the alias label (`hasAliasText`),
  which is written and activated only when assigned.
- `BuildingLookup.BuildingLookupManager.FocusBuilding`: models
  `BuildingInfo.OnFocused` as handing a building with floors to the
  manager's floor panel. The building's own `buildingFloorController` is
  taken to be that panel, which is its default from `FindFirstObjectByType`.
  The collider toggling in `OnFocused` / `OnFocusLost` is left out.
- `EventBoard.EventScraper.HandleLinkClick`: the model's invariant gives the
  `location_` branch a lookup manager. That holds because links are only
  made when a manager exists; the source would dereference a null manager
  otherwise.
