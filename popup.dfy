/** The floating label over a building (`FloatingPopup`): its hovering and
    fading flags, fade timer and text alpha. */
module Popup {
  import opened Strings
  import opened Mathf

  class FloatingPopup {
    /** A persistent popup never fades and is always fully opaque. */
    const isPersistent: bool

    var isHovering: bool
    var isFading: bool
    var fadeTimer: real
    var currentAlpha: real
    /** The label text. */
    var text: string
    /** The followed building; `None` until `SetTarget`. */
    var target: Option<nat>

    /** The fade timer runs only while fading. */
    ghost predicate Valid()
      reads this
    {
      (!isFading ==> fadeTimer == 0.0) && fadeTimer >= 0.0
    }

    constructor (isPersistent: bool)
      ensures Valid()
      ensures this.isPersistent == isPersistent
      ensures !isHovering && !isFading && fadeTimer == 0.0 && currentAlpha == 0.0 && target == None
    {
      this.isPersistent := isPersistent;
      isHovering, isFading, fadeTimer, currentAlpha := false, false, 0.0, 0.0;
      text, target := "", None;
    }

    method SetAlpha(alpha: real)
      modifies this`currentAlpha
      ensures currentAlpha == alpha
    {
      currentAlpha := alpha;
    }

    /** Attaches the popup to a building and restarts it: hovering, not
        fading, transparent unless persistent. */
    method SetTarget(newTarget: nat, buildingName: string)
      modifies this
      ensures Valid()
      ensures target == Some(newTarget) && text == buildingName
      ensures isHovering && !isFading && fadeTimer == 0.0
      ensures currentAlpha == if isPersistent then 1.0 else 0.0
    {
      target := Some(newTarget);
      text := buildingName;
      SetAlpha(0.0);
      if isPersistent {
        SetAlpha(1.0);
      }
      isHovering := true;
      isFading := false;
      fadeTimer := 0.0;
    }

    /** Called while the building stays hovered: cancels a fade and shows
        the popup to the given degree. */
    method UpdateAppearProgress(progress: real)
      requires Valid()
      modifies this`isHovering, this`isFading, this`fadeTimer, this`currentAlpha
      ensures Valid()
      ensures 0.0 <= currentAlpha <= 1.0
      ensures isPersistent ==>
        currentAlpha == 1.0 && isHovering == old(isHovering) && isFading == old(isFading)
        && fadeTimer == old(fadeTimer)
      ensures !isPersistent ==>
        isHovering && !isFading && fadeTimer == 0.0 && currentAlpha == Clamp01(progress)
    {
      if isPersistent {
        SetAlpha(1.0);
        return;
      }
      if isFading {
        isFading := false;
        fadeTimer := 0.0;
      }
      isHovering := true;
      SetAlpha(Clamp01(progress));
    }

    /** Called when the building is no longer hovered: a non-persistent
        popup starts fading, unless it already is. */
    method OnHoverExit()
      requires Valid()
      modifies this`isHovering, this`isFading, this`fadeTimer
      ensures Valid()
      ensures isPersistent ==> unchanged(this)
      ensures !isPersistent ==> !isHovering && isFading
      ensures !isPersistent && old(isFading) ==> fadeTimer == old(fadeTimer)
      ensures !isPersistent && !old(isFading) ==> fadeTimer == 0.0
    {
      if isPersistent {
        return;
      }
      isHovering := false;
      if !isFading {
        isFading := true;
        fadeTimer := 0.0;
      }
    }
  }
}
