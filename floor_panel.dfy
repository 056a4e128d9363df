/** The floor-navigation panel (`BuildingFloorController`): which building is
    focused, whether the panel is shown, and the floor the building's Animator
    is asked to display, kept within the configured floor range. */
module FloorPanel {
  import opened Strings
  import opened Buildings
  import opened Mathf

  /** The floor after the "next floor" button. */
  function NextFloorOf(floor: int, min: int, max: int): int {
    if floor < max then floor + 1 else floor
  }

  /** The floor after the "previous floor" button. */
  function PreviousFloorOf(floor: int, min: int, max: int): int {
    if floor > min then floor - 1 else floor
  }

  datatype FloorCommand = Next | Previous | GoTo(floor: int)

  function ApplyFloorCommand(floor: int, command: FloorCommand, min: int, max: int): int {
    match command
    case Next => NextFloorOf(floor, min, max)
    case Previous => PreviousFloorOf(floor, min, max)
    case GoTo(f) => Clamp(f, min, max)
  }

  /** The floor after a series of button presses and floor requests. */
  function RunFloorCommands(floor: int, commands: seq<FloorCommand>, min: int, max: int): int
    decreases |commands|
  {
    if commands == [] then floor
    else RunFloorCommands(ApplyFloorCommand(floor, commands[0], min, max), commands[1..], min, max)
  }

  /** One command never leaves a well-formed range. */
  lemma ApplyFloorCommandInRange(floor: int, command: FloorCommand, min: int, max: int)
    requires min <= floor <= max
    ensures min <= ApplyFloorCommand(floor, command, min, max) <= max
  {
  }

  /** No series of commands leaves a well-formed range. */
  lemma {:induction false} RunFloorCommandsInRange(floor: int, commands: seq<FloorCommand>, min: int, max: int)
    requires min <= floor <= max
    ensures min <= RunFloorCommands(floor, commands, min, max) <= max
    decreases |commands|
  {
    if commands != [] {
      ApplyFloorCommandInRange(floor, commands[0], min, max);
      RunFloorCommandsInRange(ApplyFloorCommand(floor, commands[0], min, max), commands[1..], min, max);
    }
  }

  /** Next then Previous returns to the same floor, away from the top floor. */
  lemma NextThenPrevious(floor: int, min: int, max: int)
    requires min <= floor < max
    ensures PreviousFloorOf(NextFloorOf(floor, min, max), min, max) == floor
  {
  }

  /** The result of `SetFocusedBuilding`: a null building dereferenced while
      the tooltip label is assigned throws. */
  datatype Outcome = Completed | NullReference

  class BuildingFloorController {
    const minFloor: int
    const maxFloor: int
    /** Whether the optional tooltip label is assigned in the inspector. */
    const hasTooltipText: bool
    /** Whether the optional alias label is assigned in the inspector. */
    const hasAliasText: bool

    var focusedBuilding: Option<Building>
    var buildingAnimator: Option<nat>
    var currentFloor: int
    var panelVisible: bool
    /** `gameObject.activeSelf`. */
    var active: bool
    var nameText: string
    var aliasText: string
    /** Whether the alias label's object is active. */
    var aliasActive: bool
    var tooltipText: string
    var tooltipActive: bool
    /** Whether the next/previous floor buttons are shown. */
    var floorButtonsActive: bool

    /** The panel is shown exactly while a building is focused, and an
        Animator is held only for a focused building. */
    ghost predicate Valid()
      reads this
    {
      && (panelVisible <==> focusedBuilding.Some?)
      && (focusedBuilding.None? ==> buildingAnimator.None?)
    }

    predicate FloorInRange()
      reads this
    {
      minFloor <= currentFloor <= maxFloor
    }

    /** The component as `Awake` leaves it: hidden, nothing focused, floor 1. */
    constructor (minFloor: int, maxFloor: int, hasTooltipText: bool, hasAliasText: bool)
      ensures Valid()
      ensures this.minFloor == minFloor && this.maxFloor == maxFloor
      ensures this.hasTooltipText == hasTooltipText && this.hasAliasText == hasAliasText
      ensures focusedBuilding == None && buildingAnimator == None
      ensures currentFloor == 1 && !panelVisible && !active
    {
      this.minFloor, this.maxFloor := minFloor, maxFloor;
      this.hasTooltipText, this.hasAliasText := hasTooltipText, hasAliasText;
      focusedBuilding, buildingAnimator := None, None;
      currentFloor, panelVisible, active := 1, false, false;
      nameText, aliasText, tooltipText := "", "", "";
      aliasActive, tooltipActive, floorButtonsActive := false, false, false;
    }

    function GetFocusedBuilding(): Option<Building>
      reads this
    {
      focusedBuilding
    }

    method NextFloor()
      modifies this`currentFloor
      ensures currentFloor == NextFloorOf(old(currentFloor), minFloor, maxFloor)
      ensures old(currentFloor) < maxFloor ==> currentFloor == old(currentFloor) + 1
      ensures old(currentFloor) >= maxFloor ==> currentFloor == old(currentFloor)
      ensures minFloor <= maxFloor && old(FloorInRange()) ==> FloorInRange()
    {
      if currentFloor < maxFloor {
        currentFloor := currentFloor + 1;
      }
    }

    method PreviousFloor()
      modifies this`currentFloor
      ensures currentFloor == PreviousFloorOf(old(currentFloor), minFloor, maxFloor)
      ensures old(currentFloor) > minFloor ==> currentFloor == old(currentFloor) - 1
      ensures old(currentFloor) <= minFloor ==> currentFloor == old(currentFloor)
      ensures minFloor <= maxFloor && old(FloorInRange()) ==> FloorInRange()
    {
      if currentFloor > minFloor {
        currentFloor := currentFloor - 1;
      }
    }

    method GoToFloor(floor: int)
      modifies this`currentFloor
      ensures currentFloor == Clamp(floor, minFloor, maxFloor)
      ensures minFloor <= maxFloor ==> FloorInRange()
    {
      currentFloor := Clamp(floor, minFloor, maxFloor);
    }

    /** Drops the focused building and its Animator. */
    method InternalUnfocus()
      modifies this`focusedBuilding, this`buildingAnimator
      ensures focusedBuilding == None && buildingAnimator == None
    {
      focusedBuilding := None;
      buildingAnimator := None;
    }

    method ShowPanel()
      modifies this`active, this`panelVisible
      ensures active && panelVisible
    {
      active := true;
      panelVisible := true;
    }

    /** `gameObject.SetActive(value)`. */
    method SetActive(value: bool)
      modifies this`active
      ensures active == value
    {
      active := value;
    }

    method HidePanel()
      modifies this`panelVisible
      ensures !panelVisible
    {
      panelVisible := false;
    }

    /** The close button; also `UnfocusBuilding`.  Nothing happens while the
        panel is hidden. */
    method OnCloseButtonClicked()
      requires Valid()
      modifies this`panelVisible, this`focusedBuilding, this`buildingAnimator
      ensures Valid()
      ensures !old(panelVisible) ==> unchanged(this)
      ensures !panelVisible && focusedBuilding == None && buildingAnimator == None
      ensures currentFloor == old(currentFloor) && active == old(active)
    {
      if !panelVisible {
        return;
      }
      HidePanel();
      InternalUnfocus();
    }

    method UnfocusBuilding()
      requires Valid()
      modifies this`panelVisible, this`focusedBuilding, this`buildingAnimator
      ensures Valid()
      ensures !old(panelVisible) ==> unchanged(this)
      ensures !panelVisible && focusedBuilding == None && buildingAnimator == None
      ensures currentFloor == old(currentFloor) && active == old(active)
    {
      OnCloseButtonClicked();
    }

    /** Shows the panel for `building`.  The tooltip label is written before
        the null check, so a null building throws when that label exists. */
    method SetFocusedBuilding(building: Option<Building>) returns (outcome: Outcome)
      requires Valid()
      modifies this
      ensures Valid()
      ensures outcome == NullReference <==> building.None? && hasTooltipText
      ensures building.None? ==> unchanged(this)
      ensures building.Some? && hasTooltipText ==>
        tooltipText == building.value.tooltip
        && (tooltipActive <==> !AllWhiteSpace(building.value.tooltip))
      ensures !hasTooltipText ==> tooltipText == old(tooltipText) && tooltipActive == old(tooltipActive)
      ensures building.Some? && old(panelVisible) && old(focusedBuilding) == building ==>
        focusedBuilding == building && panelVisible && currentFloor == old(currentFloor)
        && active == old(active) && nameText == old(nameText)
        && aliasText == old(aliasText) && aliasActive == old(aliasActive)
        && buildingAnimator == old(buildingAnimator) && floorButtonsActive == old(floorButtonsActive)
      ensures building.Some? ==> focusedBuilding == building && panelVisible
      ensures building.Some? && !(old(panelVisible) && old(focusedBuilding) == building) ==>
        && active
        && buildingAnimator == building.value.animator
        && nameText == CanonicalName(building.value)
        && (hasAliasText ==>
              aliasActive
              && aliasText == (if Aliases(building.value) != [] then Aliases(building.value)[0] else "none"))
        && (!hasAliasText ==> aliasText == old(aliasText) && aliasActive == old(aliasActive))
        && floorButtonsActive == building.value.animateFloors
        && currentFloor == (if building.value.animateFloors
                            then Clamp(building.value.targetFloor, minFloor, maxFloor)
                            else old(currentFloor))
      ensures minFloor <= maxFloor && old(FloorInRange()) ==> FloorInRange()
    {
      if hasTooltipText {
        if building.None? {
          return NullReference;
        }
        tooltipText := building.value.tooltip;
        tooltipActive := !AllWhiteSpace(tooltipText);
      }
      outcome := Completed;
      if building.None? {
        return;
      }
      if panelVisible && focusedBuilding == building {
        return;
      }
      ShowNewBuilding(building.value);
    }

    /** The part of `SetFocusedBuilding` for a building not on show: the
        panel switches to it and fills its labels, buttons and floor. */
    method ShowNewBuilding(b: Building)
      requires Valid()
      modifies this`focusedBuilding, this`buildingAnimator, this`nameText, this`aliasText,
               this`aliasActive, this`floorButtonsActive, this`currentFloor, this`active, this`panelVisible
      ensures Valid()
      ensures focusedBuilding == Some(b) && panelVisible && active
      ensures buildingAnimator == b.animator
      ensures nameText == CanonicalName(b)
      ensures hasAliasText ==> aliasActive && aliasText == (if Aliases(b) != [] then Aliases(b)[0] else "none")
      ensures !hasAliasText ==> aliasText == old(aliasText) && aliasActive == old(aliasActive)
      ensures floorButtonsActive == b.animateFloors
      ensures currentFloor == (if b.animateFloors then Clamp(b.targetFloor, minFloor, maxFloor)
                               else old(currentFloor))
    {
      if panelVisible {
        InternalUnfocus();
      }
      focusedBuilding := Some(b);
      buildingAnimator := b.animator;
      nameText := CanonicalName(b);
      if hasAliasText {
        var aliases := Aliases(b);
        aliasText := if aliases != [] then aliases[0] else "none";
        aliasActive := true;
      }
      floorButtonsActive := b.animateFloors;
      if b.animateFloors {
        GoToFloor(b.targetFloor);
      }
      ShowPanel();
    }
  }
}
