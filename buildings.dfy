/** A building of the campus scene (the `BuildingInfo` component) and the
    normalisation its `CanonicalName` and `Aliases` properties apply to the
    names typed in the inspector. */
module Buildings {
  import opened Strings

  /** A scene building.  `id` stands for the component's object identity; the
      other fields are its inspector settings.  `animator` identifies the
      building's Animator, if it has one. */
  datatype Building = Building(
    id: nat,
    canonicalName: string,
    aliases: seq<string>,
    isRoom: bool,
    animateFloors: bool,
    targetFloor: int,
    tooltip: string,
    animator: Option<nat>)

  const ThePrefix: string := "the "

  /** Drops one leading "the " (any case) and trims what follows; any other
      name is left exactly as typed. */
  function Normalize(name: string): string {
    if StartsWithIgnoreCase(name, ThePrefix) then Trim(name[|ThePrefix|..]) else name
  }

  /** `BuildingInfo.CanonicalName`. */
  function CanonicalName(b: Building): string {
    Normalize(b.canonicalName)
  }

  /** The normalised form of each stored alias, in the stored order. */
  function NormalizeAll(names: seq<string>): (r: seq<string>)
    ensures |r| == |names|
    ensures forall i :: 0 <= i < |names| ==> r[i] == Normalize(names[i])
  {
    if names == [] then [] else [Normalize(names[0])] + NormalizeAll(names[1..])
  }

  /** `BuildingInfo.Aliases`. */
  function Aliases(b: Building): seq<string> {
    NormalizeAll(b.aliases)
  }

  /** Any spelling of "the " in front of a name is removed and the rest trimmed. */
  lemma NormalizeRemovesPrefix(prefix: string, rest: string)
    requires EqualsIgnoreCase(prefix, ThePrefix)
    ensures Normalize(prefix + rest) == Trim(rest)
  {
    var s := prefix + rest;
    assert |prefix| == 4;
    forall k | 0 <= k < 4 ensures ToLower(s[k]) == ToLower(ThePrefix[k]) {
      assert Lower(prefix)[k] == Lower(ThePrefix)[k];
    }
    assert s[4..] == rest;
  }

  /** A name that does not start with "the " is kept as is, untrimmed. */
  lemma NormalizeKeepsOtherNames(name: string)
    requires !StartsWithIgnoreCase(name, ThePrefix)
    ensures Normalize(name) == name
  {
  }

  /** "the" with no following space, and names such as "Theatre", are kept. */
  lemma NormalizeNeedsTheSpace(name: string)
    requires |name| < 4 || name[3] != ' '
    ensures Normalize(name) == name
  {
    if |name| >= 4 {
      assert ToLower(name[3]) != ToLower(ThePrefix[3]);
    }
  }

  /** Only one prefix is removed: "the the X" becomes "the X". */
  lemma NormalizeRemovesOnlyOne(x: string)
    requires x != [] && NoEdgeSpace(x)
    ensures Normalize(ThePrefix + ThePrefix + x) == ThePrefix + x
  {
    var rest := ThePrefix + x;
    assert ThePrefix + ThePrefix + x == ThePrefix + rest;
    NormalizeRemovesPrefix(ThePrefix, rest);
    assert rest[0] == 't' && rest[|rest| - 1] == x[|x| - 1];
  }

  /** A name that had the prefix comes out with no white space at either end. */
  lemma NormalizedPrefixedNameIsTrimmed(name: string)
    requires StartsWithIgnoreCase(name, ThePrefix)
    ensures NoEdgeSpace(Normalize(name))
  {
  }
}
