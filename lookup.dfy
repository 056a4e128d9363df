/** The building registry of `BuildingLookupManager` (a case-insensitive
    name table filled once from the scene), its queries, and the manager's
    click, highlight and hover state. */
module BuildingLookup {
  import opened Strings
  import opened Buildings
  import opened Mathf
  import FloorPanel

  /** `buildingDict`, a `Dictionary` with the `OrdinalIgnoreCase` comparer.
      `keys` are the registered names as first written, in registration
      order (the order the dictionary enumerates them); `table` maps each
      lower-cased key to its building. */
  datatype Registry = Registry(keys: seq<string>, table: map<string, Building>)

  const EmptyRegistry: Registry := Registry([], map[])

  /** No empty key, one table entry per key, no two keys equal ignoring case. */
  ghost predicate WellFormed(r: Registry) {
    KeysEntered(r) && EntriesKeyed(r) && KeysDistinct(r.keys)
  }

  /** Every key is non-empty and has its table entry. */
  ghost predicate KeysEntered(r: Registry) {
    forall i :: 0 <= i < |r.keys| ==> r.keys[i] != [] && Lower(r.keys[i]) in r.table
  }

  /** Every table entry comes from a key. */
  ghost predicate EntriesKeyed(r: Registry) {
    forall k :: k in r.table ==> exists i :: 0 <= i < |r.keys| && Lower(r.keys[i]) == k
  }

  /** No two keys are equal ignoring case. */
  ghost predicate KeysDistinct(keys: seq<string>) {
    forall i, j :: 0 <= i < j < |keys| ==> Lower(keys[i]) != Lower(keys[j])
  }

  /** `TryGetValue(name)`: the building registered under a key equal to
      `name` ignoring case. */
  function Lookup(r: Registry, name: string): (found: Option<Building>)
    requires WellFormed(r)
    ensures found.Some? <==> exists i :: 0 <= i < |r.keys| && EqualsIgnoreCase(r.keys[i], name)
    ensures forall i :: 0 <= i < |r.keys| && EqualsIgnoreCase(r.keys[i], name) ==>
      found == Some(r.table[Lower(r.keys[i])])
    ensures name == [] ==> found == None
  {
    if Lower(name) in r.table then Some(r.table[Lower(name)]) else None
  }

  /** Two names that differ only in case find the same building. */
  lemma LookupIgnoresCase(r: Registry, a: string, b: string)
    requires WellFormed(r) && EqualsIgnoreCase(a, b)
    ensures Lookup(r, a) == Lookup(r, b)
  {
  }

  /** `RegisterBuilding`: an empty name, or one already registered in any
      case, leaves the table alone; otherwise the name is added.  What the
      new table finds is `RegisterLookup`. */
  function Register(r: Registry, name: string, b: Building): (r': Registry)
    requires WellFormed(r)
    ensures WellFormed(r')
    ensures r'.keys == r.keys || (name != [] && r'.keys == r.keys + [name])
  {
    if name == [] || Lower(name) in r.table then r
    else
      var r' := Registry(r.keys + [name], r.table[Lower(name) := b]);
      AppendKeyWellFormed(r, name, b);
      r'
  }

  lemma AppendKeyWellFormed(r: Registry, name: string, b: Building)
    requires WellFormed(r) && name != [] && Lower(name) !in r.table
    ensures WellFormed(Registry(r.keys + [name], r.table[Lower(name) := b]))
  {
    AppendKeyEntered(r, name, b);
    AppendKeyKeyed(r, name, b);
    AppendKeyDistinct(r, name);
  }

  lemma AppendKeyEntered(r: Registry, name: string, b: Building)
    requires KeysEntered(r) && name != []
    ensures KeysEntered(Registry(r.keys + [name], r.table[Lower(name) := b]))
  {
    var keys := r.keys + [name];
    forall i | 0 <= i < |keys| ensures keys[i] != [] && Lower(keys[i]) in r.table[Lower(name) := b] {
      if i < |r.keys| {
        assert keys[i] == r.keys[i];
      }
    }
  }

  lemma AppendKeyKeyed(r: Registry, name: string, b: Building)
    requires EntriesKeyed(r)
    ensures EntriesKeyed(Registry(r.keys + [name], r.table[Lower(name) := b]))
  {
    var keys := r.keys + [name];
    var table := r.table[Lower(name) := b];
    forall k | k in table ensures exists i :: 0 <= i < |keys| && Lower(keys[i]) == k {
      if k == Lower(name) {
        assert keys[|r.keys|] == name;
      } else {
        var i :| 0 <= i < |r.keys| && Lower(r.keys[i]) == k;
        assert keys[i] == r.keys[i];
      }
    }
  }

  lemma AppendKeyDistinct(r: Registry, name: string)
    requires KeysEntered(r) && KeysDistinct(r.keys) && Lower(name) !in r.table
    ensures KeysDistinct(r.keys + [name])
  {
    var keys := r.keys + [name];
    forall i, j | 0 <= i < j < |keys| ensures Lower(keys[i]) != Lower(keys[j]) {
      assert keys[i] == r.keys[i];
      if j < |r.keys| {
        assert keys[j] == r.keys[j];
      }
    }
  }

  /** After registering, `name` (in any case) finds `b` unless it already
      found a building; every other query is unaffected. */
  lemma RegisterLookup(r: Registry, name: string, b: Building, q: string)
    requires WellFormed(r)
    ensures Lookup(Register(r, name, b), q) ==
      if name != [] && EqualsIgnoreCase(q, name) && Lookup(r, q).None? then Some(b) else Lookup(r, q)
  {
  }

  /** Registers `names` for `b`, in order. */
  function RegisterNames(r: Registry, names: seq<string>, b: Building): (r': Registry)
    requires WellFormed(r)
    ensures WellFormed(r')
    decreases |names|
  {
    if names == [] then r
    else Register(RegisterNames(r, names[..|names| - 1], b), names[|names| - 1], b)
  }

  /** The names the scene loop registers for a building: the canonical name
      first, then the aliases. */
  function Names(b: Building): seq<string> {
    [CanonicalName(b)] + Aliases(b)
  }

  /** The `Awake` loop over the scene's buildings. */
  function RegisterAll(r: Registry, bs: seq<Building>): (r': Registry)
    requires WellFormed(r)
    ensures WellFormed(r')
    decreases |bs|
  {
    if bs == [] then r
    else RegisterNames(RegisterAll(r, bs[..|bs| - 1]), Names(bs[|bs| - 1]), bs[|bs| - 1])
  }

  /** `q` equals, ignoring case, one of the non-empty names in `names`. */
  predicate NamedBy(names: seq<string>, q: string) {
    q != [] && exists i :: 0 <= i < |names| && EqualsIgnoreCase(names[i], q)
  }

  /** Reference definition: the first building in scene order one of whose
      names is `q`, ignoring case. */
  function FirstOwner(bs: seq<Building>, q: string): Option<Building>
    decreases |bs|
  {
    if bs == [] then None
    else
      var earlier := FirstOwner(bs[..|bs| - 1], q);
      if earlier.Some? then earlier
      else if NamedBy(Names(bs[|bs| - 1]), q) then Some(bs[|bs| - 1])
      else None
  }

  lemma {:induction false} RegisterNamesLookup(r: Registry, names: seq<string>, b: Building, q: string)
    requires WellFormed(r)
    ensures Lookup(RegisterNames(r, names, b), q) ==
      if Lookup(r, q).Some? then Lookup(r, q) else if NamedBy(names, q) then Some(b) else None
    decreases |names|
  {
    if names != [] {
      var front := names[..|names| - 1];
      RegisterNamesLookup(r, front, b, q);
      RegisterLookup(RegisterNames(r, front, b), names[|names| - 1], b, q);
      NamedBySnoc(names, q);
    }
  }

  lemma NamedBySnoc(names: seq<string>, q: string)
    requires names != []
    ensures NamedBy(names, q) <==>
      NamedBy(names[..|names| - 1], q) || (q != [] && EqualsIgnoreCase(names[|names| - 1], q))
  {
    var front := names[..|names| - 1];
    if NamedBy(names, q) {
      var i :| 0 <= i < |names| && EqualsIgnoreCase(names[i], q);
      if i < |front| {
        assert EqualsIgnoreCase(front[i], q);
      }
    }
    if NamedBy(front, q) {
      var i :| 0 <= i < |front| && EqualsIgnoreCase(front[i], q);
      assert EqualsIgnoreCase(names[i], q);
    }
  }

  lemma {:induction false} RegisterAllLookup(r: Registry, bs: seq<Building>, q: string)
    requires WellFormed(r)
    ensures Lookup(RegisterAll(r, bs), q) == if Lookup(r, q).Some? then Lookup(r, q) else FirstOwner(bs, q)
    decreases |bs|
  {
    if bs != [] {
      var front := bs[..|bs| - 1];
      RegisterAllLookup(r, front, q);
      RegisterNamesLookup(RegisterAll(r, front), Names(bs[|bs| - 1]), bs[|bs| - 1], q);
    }
  }

  /** After the scene loop, a name finds the first building (in scene order)
      that has it as canonical name or alias; a later building whose alias
      collides with an earlier name does not take it over. */
  lemma SceneLookupIsFirstOwner(bs: seq<Building>, q: string)
    ensures Lookup(RegisterAll(EmptyRegistry, bs), q) == FirstOwner(bs, q)
  {
    RegisterAllLookup(EmptyRegistry, bs, q);
  }

  /** Registration never overwrites: a name that already finds a building
      keeps finding it whatever is registered afterwards. */
  lemma RegisterAllNeverOverwrites(r: Registry, bs: seq<Building>, q: string)
    requires WellFormed(r) && Lookup(r, q).Some?
    ensures Lookup(RegisterAll(r, bs), q) == Lookup(r, q)
  {
    RegisterAllLookup(r, bs, q);
  }

  /** A building's own canonical name finds it unless an earlier building
      already took that name (in any case). */
  lemma CanonicalNameFindsItsBuilding(bs: seq<Building>, k: nat)
    requires k < |bs| && CanonicalName(bs[k]) != []
    requires FirstOwner(bs[..k], CanonicalName(bs[k])) == None
    ensures Lookup(RegisterAll(EmptyRegistry, bs), CanonicalName(bs[k])) == Some(bs[k])
  {
    var q := CanonicalName(bs[k]);
    SceneLookupIsFirstOwner(bs, q);
    assert NamedBy(Names(bs[k]), q) by {
      assert EqualsIgnoreCase(Names(bs[k])[0], q);
    }
    FirstOwnerAt(bs, k, q);
  }

  lemma {:induction false} FirstOwnerAt(bs: seq<Building>, k: nat, q: string)
    requires k < |bs| && FirstOwner(bs[..k], q) == None && NamedBy(Names(bs[k]), q)
    ensures FirstOwner(bs, q) == Some(bs[k])
    decreases |bs|
  {
    if k < |bs| - 1 {
      var front := bs[..|bs| - 1];
      assert front[..k] == bs[..k];
      FirstOwnerAt(front, k, q);
    } else {
      assert bs[..|bs| - 1] == bs[..k];
    }
  }

  /** The keys containing `p` (ignoring case), in key order. */
  function KeysContaining(keys: seq<string>, p: string): (r: seq<string>)
    ensures forall s :: s in r <==> s in keys && ContainsIgnoreCase(s, p)
    ensures IsSubsequence(r, keys)
  {
    if keys == [] then []
    else
      var rest := KeysContaining(keys[1..], p);
      if ContainsIgnoreCase(keys[0], p) then
        assert ([keys[0]] + rest)[1..] == rest;
        [keys[0]] + rest
      else
        SubsequenceCons(rest, keys[1..], keys[0]);
        assert [keys[0]] + keys[1..] == keys;
        rest
  }

  /** `GetSuggestions`: nothing for an empty input, otherwise every
      registered key containing the input, ignoring case, in key order. */
  function Suggestions(r: Registry, partial: string): (found: seq<string>)
    ensures partial == [] ==> found == []
    ensures forall s :: s in found <==> partial != [] && s in r.keys && ContainsIgnoreCase(s, partial)
    ensures IsSubsequence(found, r.keys)
  {
    if partial == [] then [] else KeysContaining(r.keys, partial)
  }

  /** The table's buildings in key order, possibly repeated. */
  function ValuesInKeyOrder(r: Registry): (vs: seq<Building>)
    requires WellFormed(r)
    ensures |vs| == |r.keys|
    ensures forall i :: 0 <= i < |vs| ==> vs[i] == r.table[Lower(r.keys[i])]
  {
    seq(|r.keys|, i requires 0 <= i < |r.keys| => r.table[Lower(r.keys[i])])
  }

  /** `Distinct()`: the first occurrence of each element, in order. */
  function Distinct(s: seq<Building>): (r: seq<Building>)
    ensures forall x :: x in r <==> x in s
    ensures forall i, j :: 0 <= i < j < |r| ==> r[i] != r[j]
    decreases |s|
  {
    if s == [] then []
    else
      var d := Distinct(s[..|s| - 1]);
      assert forall x :: x in s <==> x in s[..|s| - 1] || x == s[|s| - 1] by {
        assert s == s[..|s| - 1] + [s[|s| - 1]];
      }
      if s[|s| - 1] in d then d else d + [s[|s| - 1]]
  }

  /** `GetAllBuildings`: every registered building, each exactly once. */
  function AllBuildings(r: Registry): (bs: seq<Building>)
    requires WellFormed(r)
    ensures forall b :: b in bs <==> b in r.table.Values
    ensures forall i, j :: 0 <= i < j < |bs| ==> bs[i] != bs[j]
  {
    var vs := ValuesInKeyOrder(r);
    assert forall b :: b in vs <==> b in r.table.Values by {
      forall b ensures b in vs <==> b in r.table.Values {
        if b in r.table.Values {
          var k :| k in r.table && r.table[k] == b;
          var i :| 0 <= i < |r.keys| && Lower(r.keys[i]) == k;
          assert vs[i] == b;
        }
      }
    }
    Distinct(vs)
  }

  /** What a raycast under the cursor found. */
  datatype Hit = Nothing | Collider(building: Option<Building>)

  /** What a click did. */
  datatype ClickAction = NoAction | Highlighted(building: Building) | Focused(building: Building)

  /** The state a focus starts from: whether the floor panel is visible, the
      building it shows and its floor, and which buildings wear the highlight
      material and which one is the current highlight. */
  datatype FocusSnapshot = FocusSnapshot(visible: bool, focused: Option<Building>, floor: int,
                                         highlighted: set<Building>, current: Option<Building>)

  /** The buildings that wear the highlight material once `b` is highlighted. */
  function Rehighlighted(highlighted: set<Building>, current: Option<Building>, b: Building,
                        hasMaterial: bool): (r: set<Building>)
    ensures hasMaterial ==> b in r
    ensures !hasMaterial ==> (b in r <==> b in highlighted)
    ensures current.Some? && current != Some(b) ==> current.value !in r
    ensures forall x :: x != b && Some(x) != current ==> (x in r <==> x in highlighted)
  {
    (highlighted - (if current.Some? && current != Some(b) then {current.value} else {}))
      + (if hasMaterial then {b} else {})
  }

  /** The floor the panel shows once `b` is focused: the old one when `b` was
      already on show or has no floors, else its target floor, clamped. */
  function FocusedFloor(b: Building, before: FocusSnapshot, minFloor: int, maxFloor: int): int {
    if (before.visible && before.focused == Some(b)) || !b.animateFloors
    then before.floor
    else Clamp(b.targetFloor, minFloor, maxFloor)
  }

  class BuildingLookupManager {
    const doubleClickThreshold: real
    const hoverDelay: real
    /** Whether the highlight material is assigned in the inspector. */
    const hasHighlightMaterial: bool
    const floorController: FloorPanel.BuildingFloorController?

    var buildingDict: Registry
    var lastClickTime: real
    var lastClickedBuilding: Option<Building>
    var currentHighlightedBuilding: Option<Building>
    /** The buildings whose renderer currently shows the highlight material. */
    var highlighted: set<Building>
    /** Hover start time per building. */
    var hoverTimers: map<Building, real>

    ghost function Repr(): set<object> {
      {this} + (if floorController == null then {} else {floorController})
    }

    /** At most the current highlight shows the highlight material. */
    ghost predicate Valid()
      reads Repr()
    {
      && WellFormed(buildingDict)
      && highlighted <= (if currentHighlightedBuilding.Some? then {currentHighlightedBuilding.value} else {})
      && (floorController != null ==> floorController.Valid())
    }

    /** The floor panel's state, as `FocusedFloor` reads it. */
    ghost function FocusState(): FocusSnapshot
      reads Repr()
    {
      if floorController == null
      then FocusSnapshot(false, None, 0, highlighted, currentHighlightedBuilding)
      else FocusSnapshot(floorController.panelVisible, floorController.focusedBuilding,
                         floorController.currentFloor, highlighted, currentHighlightedBuilding)
    }

    /** `b` is the highlighted building, the material moved to it from the
        previous highlight, and, when there is a floor panel, `b` is the
        building the panel shows, visible and active, at its focused floor. */
    ghost predicate FocusedOn(b: Building, before: FocusSnapshot)
      reads Repr()
    {
      && currentHighlightedBuilding == Some(b)
      && highlighted == Rehighlighted(before.highlighted, before.current, b, hasHighlightMaterial)
      && (floorController != null ==>
            && floorController.focusedBuilding == Some(b)
            && floorController.panelVisible && floorController.active
            && floorController.currentFloor ==
               FocusedFloor(b, before, floorController.minFloor, floorController.maxFloor))
    }

    constructor (doubleClickThreshold: real, hoverDelay: real, hasHighlightMaterial: bool,
                 floorController: FloorPanel.BuildingFloorController?)
      requires floorController != null ==> floorController.Valid()
      ensures Valid()
      ensures this.doubleClickThreshold == doubleClickThreshold && this.hoverDelay == hoverDelay
      ensures this.hasHighlightMaterial == hasHighlightMaterial && this.floorController == floorController
      ensures buildingDict == EmptyRegistry && lastClickTime == -1.0 && lastClickedBuilding == None
      ensures currentHighlightedBuilding == None && highlighted == {} && hoverTimers == map[]
    {
      this.doubleClickThreshold, this.hoverDelay := doubleClickThreshold, hoverDelay;
      this.hasHighlightMaterial, this.floorController := hasHighlightMaterial, floorController;
      buildingDict, lastClickTime, lastClickedBuilding := EmptyRegistry, -1.0, None;
      currentHighlightedBuilding, highlighted, hoverTimers := None, {}, map[];
    }

    method RegisterBuilding(name: string, info: Building)
      requires WellFormed(buildingDict)
      modifies this`buildingDict
      ensures buildingDict == Register(old(buildingDict), name, info)
    {
      if name != [] && Lower(name) !in buildingDict.table {
        buildingDict := Registry(buildingDict.keys + [name], buildingDict.table[Lower(name) := info]);
      }
    }

    /** The registration loop of `Awake`; `allBuildings` stands for the scene
        search result, in whatever order the engine returns it. */
    method Awake(allBuildings: seq<Building>)
      requires Valid()
      modifies this`buildingDict
      ensures Valid()
      ensures buildingDict == RegisterAll(old(buildingDict), allBuildings)
    {
      var i := 0;
      while i < |allBuildings|
        invariant 0 <= i <= |allBuildings|
        invariant Valid()
        invariant buildingDict == RegisterAll(old(buildingDict), allBuildings[..i])
      {
        var b := allBuildings[i];
        RegisterBuildingNames(b);
        assert allBuildings[..i + 1][..i] == allBuildings[..i] && allBuildings[..i + 1][i] == b;
        i := i + 1;
      }
      assert allBuildings[..i] == allBuildings;
    }

    /** One building of the `Awake` loop: its canonical name, then each alias. */
    method RegisterBuildingNames(b: Building)
      requires WellFormed(buildingDict)
      modifies this`buildingDict
      ensures WellFormed(buildingDict)
      ensures buildingDict == RegisterNames(old(buildingDict), Names(b), b)
    {
      RegisterBuilding(CanonicalName(b), b);
      assert buildingDict == RegisterNames(old(buildingDict), Names(b)[..1], b) by {
        assert Names(b)[..1][..0] == [];
      }
      var aliases := Aliases(b);
      var j := 0;
      while j < |aliases|
        invariant 0 <= j <= |aliases|
        invariant WellFormed(buildingDict)
        invariant buildingDict == RegisterNames(old(buildingDict), Names(b)[..j + 1], b)
      {
        RegisterBuilding(aliases[j], b);
        assert Names(b)[..j + 2][..j + 1] == Names(b)[..j + 1];
        j := j + 1;
      }
      assert Names(b)[..|aliases| + 1] == Names(b);
    }

    function GetBuildingByName(name: string): Option<Building>
      reads this
      requires WellFormed(buildingDict)
    {
      Lookup(buildingDict, name)
    }

    function GetSuggestions(partial: string): seq<string>
      reads this
    {
      Suggestions(buildingDict, partial)
    }

    function GetAllBuildings(): seq<Building>
      reads this
      requires WellFormed(buildingDict)
    {
      AllBuildings(buildingDict)
    }

    /** Makes `building` the highlighted one; the previous, different
        highlight loses its material.  A null building changes nothing. */
    method HighlightBuildingOnly(building: Option<Building>)
      requires Valid()
      modifies this`currentHighlightedBuilding, this`highlighted
      ensures Valid()
      ensures building.None? ==> unchanged(this)
      ensures building.Some? ==>
        && currentHighlightedBuilding == building
        && highlighted ==
           Rehighlighted(old(highlighted), old(currentHighlightedBuilding), building.value,
                         hasHighlightMaterial)
    {
      if building.Some? {
        if currentHighlightedBuilding.Some? && currentHighlightedBuilding != building {
          highlighted := highlighted - {currentHighlightedBuilding.value};
        }
        currentHighlightedBuilding := building;
        if hasHighlightMaterial {
          highlighted := highlighted + {building.value};
        }
      }
    }

    /** Removes the current highlight, if any. */
    method ClearHighlight()
      requires Valid()
      modifies this`currentHighlightedBuilding, this`highlighted
      ensures Valid()
      ensures currentHighlightedBuilding == None && highlighted == {}
    {
      if currentHighlightedBuilding.Some? {
        highlighted := highlighted - {currentHighlightedBuilding.value};
        currentHighlightedBuilding := None;
      }
    }

    /** Highlights the building, hands it to the floor panel (unfocusing a
        different building there first) and leaves the panel visible. */
    method FocusBuilding(building: Option<Building>)
      requires Valid()
      modifies Repr()
      ensures Valid()
      ensures building.None? ==> unchanged(Repr())
      ensures building.Some? ==> FocusedOn(building.value, old(FocusState()))
      ensures buildingDict == old(buildingDict) && hoverTimers == old(hoverTimers)
      ensures lastClickTime == old(lastClickTime) && lastClickedBuilding == old(lastClickedBuilding)
    {
      if building.None? {
        return;
      }
      HighlightBuildingOnly(building);
      var fc := floorController;
      if fc != null {
        var current := fc.GetFocusedBuilding();
        if current.Some? && current != building {
          fc.UnfocusBuilding();
        }
        // `OnFocused` of a building with floors hands it to the scene's floor panel.
        if building.value.animateFloors {
          var _ := fc.SetFocusedBuilding(building);
        }
        fc.SetActive(true);
        var _ := fc.SetFocusedBuilding(building);
      }
    }

    /** A left click: rooms are highlighted; other buildings are focused on
        a second click on the same building within the threshold, and
        highlighted otherwise.  A miss changes nothing. */
    method ProcessClick(hit: Hit, now: real) returns (action: ClickAction)
      requires Valid()
      modifies Repr()
      ensures Valid()
      ensures !(hit.Collider? && hit.building.Some?) ==> action == NoAction && unchanged(Repr())
      ensures hit.Collider? && hit.building.Some? ==>
        var b := hit.building.value;
        && lastClickTime == now && lastClickedBuilding == Some(b)
        && currentHighlightedBuilding == Some(b)
        && highlighted == Rehighlighted(old(highlighted), old(currentHighlightedBuilding), b,
                                        hasHighlightMaterial)
        && (action == Focused(b) <==>
              !b.isRoom && old(lastClickedBuilding) == Some(b)
              && now - old(lastClickTime) < doubleClickThreshold)
        && (action != Focused(b) ==> action == Highlighted(b))
      ensures action.Highlighted? && floorController != null ==> unchanged(floorController)
      ensures action.Focused? ==> FocusedOn(action.building, old(FocusState()))
      ensures buildingDict == old(buildingDict) && hoverTimers == old(hoverTimers)
    {
      action := NoAction;
      if hit.Collider? && hit.building.Some? {
        var b := hit.building.value;
        if b.isRoom {
          HighlightBuildingOnly(hit.building);
          action := Highlighted(b);
        } else {
          var timeSinceLastClick := now - lastClickTime;
          if lastClickedBuilding == hit.building && timeSinceLastClick < doubleClickThreshold {
            FocusBuilding(hit.building);
            action := Focused(b);
          } else {
            HighlightBuildingOnly(hit.building);
            action := Highlighted(b);
          }
        }
        lastClickTime := now;
        lastClickedBuilding := hit.building;
      }
    }

    /** The hover-timer bookkeeping of `ProcessHover`: timers of buildings no
        longer under the cursor are dropped, the hovered building's timer is
        started once, and the popup's appear progress is returned. */
    method ProcessHover(hovered: Option<Building>, now: real) returns (progress: Option<Single>)
      requires Valid()
      modifies this`hoverTimers
      ensures Valid()
      ensures hoverTimers.Keys <= (if hovered.Some? then {hovered.value} else {})
      ensures hovered == None ==> hoverTimers == map[] && progress == None
      ensures hovered.Some? && hovered.value in old(hoverTimers) ==>
        hoverTimers == map[hovered.value := old(hoverTimers)[hovered.value]]
      ensures hovered.Some? && hovered.value !in old(hoverTimers) ==>
        hoverTimers == map[hovered.value := now]
      ensures hovered.Some? ==>
        progress == Some(Clamp01Single(Divide(now - hoverTimers[hovered.value], hoverDelay)))
      ensures progress.Some? && progress.value.Number? ==> 0.0 <= progress.value.value <= 1.0
      ensures progress.Some? ==> (progress.value.NaN? <==> hoverDelay == 0.0 && now == hoverTimers[hovered.value])
    {
      var pending := hoverTimers.Keys;
      while pending != {}
        invariant pending <= hoverTimers.Keys
        invariant forall k :: k in hoverTimers <==> k in old(hoverTimers) && (k in pending || Some(k) == hovered)
        invariant forall k :: k in hoverTimers ==> hoverTimers[k] == old(hoverTimers)[k]
        decreases pending
      {
        var key :| key in pending;
        if Some(key) != hovered {
          hoverTimers := hoverTimers - {key};
        }
        pending := pending - {key};
      }
      if hovered.Some? {
        var h := hovered.value;
        if h !in hoverTimers {
          hoverTimers := hoverTimers[h := now];
        }
        assert hoverTimers == map[h := hoverTimers[h]];
        var elapsed := now - hoverTimers[h];
        progress := Some(Clamp01Single(Divide(elapsed, hoverDelay)));
      } else {
        hoverTimers := map[];
        progress := None;
      }
    }

    /** Focuses the building a query names, if any. */
    method SearchAndFocus(query: string) returns (found: bool)
      requires Valid()
      modifies Repr()
      ensures Valid()
      ensures found <==> Lookup(old(buildingDict), query).Some?
      ensures !found ==> unchanged(Repr())
      ensures found ==> FocusedOn(Lookup(old(buildingDict), query).value, old(FocusState()))
      ensures buildingDict == old(buildingDict)
    {
      var building := GetBuildingByName(query);
      found := building.Some?;
      if found {
        FocusBuilding(building);
      }
    }
  }
}
