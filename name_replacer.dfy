/** The editor window `CanonicalNameTableReplacer`: a table of find/replace
    pairs applied in order to the stored canonical name of each selected
    building. */
module NameReplacer {
  import opened Strings

  datatype ReplacementPair = ReplacementPair(find: string, replace: string)

  const EmptyPair: ReplacementPair := ReplacementPair("", "")

  /** A selected scene object: without a `BuildingInfo`, or with one whose
      serialized `canonicalName` property is found (`Some`) or not (`None`). */
  datatype SelectedObject = NoBuildingInfo | BuildingInfoObject(canonicalName: Option<string>)

  /** One pair: a pair with an empty `find` is skipped. */
  function ApplyPair(value: string, pair: ReplacementPair): string {
    if pair.find == [] then value else ReplaceAll(value, pair.find, pair.replace)
  }

  /** The pairs in table order, each applied to the previous result. */
  function ApplyPairs(value: string, pairs: seq<ReplacementPair>): string
    decreases |pairs|
  {
    if pairs == [] then value else ApplyPair(ApplyPairs(value, pairs[..|pairs| - 1]), pairs[|pairs| - 1])
  }

  /** Applying a table and then another is applying the two one after the other. */
  lemma {:induction false} ApplyPairsAppend(value: string, p: seq<ReplacementPair>, q: seq<ReplacementPair>)
    ensures ApplyPairs(value, p + q) == ApplyPairs(ApplyPairs(value, p), q)
    decreases |q|
  {
    if q == [] {
      assert p + q == p;
    } else {
      assert (p + q)[..|p + q| - 1] == p + q[..|q| - 1];
      ApplyPairsAppend(value, p, q[..|q| - 1]);
    }
  }

  /** The pairs whose `find` is not empty. */
  function NonEmptyPairs(pairs: seq<ReplacementPair>): (r: seq<ReplacementPair>)
    ensures forall p :: p in r <==> p in pairs && p.find != []
    decreases |pairs|
  {
    if pairs == [] then []
    else
      var front := NonEmptyPairs(pairs[..|pairs| - 1]);
      var last := pairs[|pairs| - 1];
      assert forall p :: p in pairs <==> p in pairs[..|pairs| - 1] || p == last by {
        assert pairs == pairs[..|pairs| - 1] + [last];
      }
      if last.find == [] then front else front + [last]
  }

  /** Rows with an empty `find` have no effect. */
  lemma {:induction false} EmptyFindsAreSkipped(value: string, pairs: seq<ReplacementPair>)
    ensures ApplyPairs(value, pairs) == ApplyPairs(value, NonEmptyPairs(pairs))
    decreases |pairs|
  {
    if pairs != [] {
      var front := pairs[..|pairs| - 1];
      var last := pairs[|pairs| - 1];
      EmptyFindsAreSkipped(value, front);
      if last.find != [] {
        var n := NonEmptyPairs(front) + [last];
        assert n[..|n| - 1] == NonEmptyPairs(front);
      }
    }
  }

  /** A row that replaces a string by itself changes nothing. */
  lemma {:induction false} IdentityPairsChangeNothing(value: string, pairs: seq<ReplacementPair>)
    requires forall i :: 0 <= i < |pairs| ==> pairs[i].find == pairs[i].replace
    ensures ApplyPairs(value, pairs) == value
    decreases |pairs|
  {
    if pairs != [] {
      IdentityPairsChangeNothing(value, pairs[..|pairs| - 1]);
      var last := pairs[|pairs| - 1];
      if last.find != [] {
        ReplaceAllSelf(value, last.find);
      }
    }
  }

  /** The object after replacement: only a found property is rewritten. */
  function Replaced(obj: SelectedObject, pairs: seq<ReplacementPair>): SelectedObject {
    match obj
    case BuildingInfoObject(Some(name)) => BuildingInfoObject(Some(ApplyPairs(name, pairs)))
    case _ => obj
  }

  /** The table changes the object's canonical name. */
  predicate Changes(obj: SelectedObject, pairs: seq<ReplacementPair>) {
    obj.BuildingInfoObject? && obj.canonicalName.Some?
    && ApplyPairs(obj.canonicalName.value, pairs) != obj.canonicalName.value
  }

  /** How many of the objects the table changes. */
  function CountChanged(objs: seq<SelectedObject>, pairs: seq<ReplacementPair>): nat
    decreases |objs|
  {
    if objs == [] then 0
    else CountChanged(objs[..|objs| - 1], pairs) + (if Changes(objs[|objs| - 1], pairs) then 1 else 0)
  }

  /** The indices of the objects the table changes. */
  function ChangedIndices(objs: seq<SelectedObject>, pairs: seq<ReplacementPair>): set<nat> {
    set i: nat | i < |objs| && Changes(objs[i], pairs)
  }

  /** The count is the number of changed objects. */
  lemma {:induction false} CountIsChangedObjects(objs: seq<SelectedObject>, pairs: seq<ReplacementPair>)
    ensures CountChanged(objs, pairs) == |ChangedIndices(objs, pairs)|
    decreases |objs|
  {
    if objs != [] {
      var front := objs[..|objs| - 1];
      var n := |objs| - 1;
      CountIsChangedObjects(front, pairs);
      ChangedIndicesSnoc(objs, pairs);
      assert n !in ChangedIndices(front, pairs);
    }
  }

  /** One more object adds its index exactly when the table changes it. */
  lemma ChangedIndicesSnoc(objs: seq<SelectedObject>, pairs: seq<ReplacementPair>)
    requires objs != []
    ensures ChangedIndices(objs, pairs) ==
      ChangedIndices(objs[..|objs| - 1], pairs) + (if Changes(objs[|objs| - 1], pairs) then {|objs| - 1} else {})
  {
    var n := |objs| - 1;
    var front := objs[..n];
    forall i: nat | i < n ensures Changes(front[i], pairs) == Changes(objs[i], pairs) {
      assert front[i] == objs[i];
    }
  }

  /** Objects without a `BuildingInfo` or without the property are never counted. */
  lemma {:induction false} CountAtMostEditable(objs: seq<SelectedObject>, pairs: seq<ReplacementPair>)
    ensures CountChanged(objs, pairs) <= |set i: nat | i < |objs| && objs[i].BuildingInfoObject? && objs[i].canonicalName.Some?|
  {
    CountIsChangedObjects(objs, pairs);
    var editable := set i: nat | i < |objs| && objs[i].BuildingInfoObject? && objs[i].canonicalName.Some?;
    assert ChangedIndices(objs, pairs) <= editable;
    SubsetCard(ChangedIndices(objs, pairs), editable);
  }

  lemma SubsetCard(a: set<nat>, b: set<nat>)
    requires a <= b
    ensures |a| <= |b|
  {
    assert b == a + (b - a);
  }

  /** `replacementPairs.RemoveAt(i)`. */
  function RemoveAt(pairs: seq<ReplacementPair>, i: nat): (r: seq<ReplacementPair>)
    requires i < |pairs|
    ensures |r| == |pairs| - 1
    ensures forall k :: 0 <= k < i ==> r[k] == pairs[k]
    ensures forall k :: i <= k < |r| ==> r[k] == pairs[k + 1]
  {
    pairs[..i] + pairs[i + 1..]
  }

  class CanonicalNameTableReplacer {
    var replacementPairs: seq<ReplacementPair>

    constructor ()
      ensures replacementPairs == []
    {
      replacementPairs := [];
    }

    /** The inner loop: the stored name after every pair has been applied. */
    method ApplyTable(originalValue: string) returns (updatedValue: string)
      ensures updatedValue == ApplyPairs(originalValue, replacementPairs)
    {
      updatedValue := originalValue;
      var k := 0;
      while k < |replacementPairs|
        invariant 0 <= k <= |replacementPairs|
        invariant updatedValue == ApplyPairs(originalValue, replacementPairs[..k])
      {
        var pair := replacementPairs[k];
        if pair.find != [] {
          updatedValue := ReplaceAll(updatedValue, pair.find, pair.replace);
        }
        assert replacementPairs[..k + 1][..k] == replacementPairs[..k];
        k := k + 1;
      }
      assert replacementPairs[..k] == replacementPairs;
    }

    /** Rewrites the canonical name of each selected building whose name the
        table changes, and counts them. */
    method ReplaceCanonicalNames(selection: array<SelectedObject>) returns (updatedCount: nat)
      modifies selection
      ensures forall i :: 0 <= i < selection.Length ==> selection[i] == Replaced(old(selection[i]), replacementPairs)
      ensures updatedCount == CountChanged(old(selection[..]), replacementPairs)
      ensures updatedCount == |ChangedIndices(old(selection[..]), replacementPairs)|
    {
      updatedCount := 0;
      ghost var objs := selection[..];
      var i := 0;
      while i < selection.Length
        invariant 0 <= i <= selection.Length
        invariant forall k :: 0 <= k < i ==> selection[k] == Replaced(objs[k], replacementPairs)
        invariant forall k :: i <= k < selection.Length ==> selection[k] == objs[k]
        invariant updatedCount == CountChanged(objs[..i], replacementPairs)
      {
        var obj := selection[i];
        assert objs[..i + 1][..i] == objs[..i];
        if obj.BuildingInfoObject? && obj.canonicalName.Some? {
          var originalValue := obj.canonicalName.value;
          var updatedValue := ApplyTable(originalValue);
          if updatedValue != originalValue {
            selection[i] := BuildingInfoObject(Some(updatedValue));
            updatedCount := updatedCount + 1;
          }
        }
        i := i + 1;
      }
      assert objs[..i] == objs;
      CountIsChangedObjects(objs, replacementPairs);
    }

    /** The "Find"/"Replace" text fields of row `i`. */
    method EditPair(i: nat, find: string, replace: string)
      requires i < |replacementPairs|
      modifies this
      ensures replacementPairs == old(replacementPairs)[i := ReplacementPair(find, replace)]
    {
      replacementPairs := replacementPairs[i := ReplacementPair(find, replace)];
    }

    /** The row loop of `OnGUI` when the "Remove" button of row `pressed`
        is the one clicked: that row is removed, the index stepped back, and
        the remaining rows drawn as before. */
    method DrawRows(pressed: Option<nat>)
      modifies this
      ensures pressed.Some? && pressed.value < |old(replacementPairs)| ==>
        replacementPairs == RemoveAt(old(replacementPairs), pressed.value)
      ensures !(pressed.Some? && pressed.value < |old(replacementPairs)|) ==>
        replacementPairs == old(replacementPairs)
    {
      ghost var original := replacementPairs;
      ghost var removed := false;
      var i: int := 0;
      var row: nat := 0;
      while i < |replacementPairs|
        invariant 0 <= i && i <= |replacementPairs|
        invariant removed <==> pressed.Some? && pressed.value < row
        invariant !removed ==> replacementPairs == original && i == row
        invariant removed ==> pressed.value < |original| && replacementPairs == RemoveAt(original, pressed.value) && i == row - 1
        decreases |original| - row
      {
        if pressed == Some(row) {
          replacementPairs := RemoveAt(replacementPairs, i);
          i := i - 1;
          removed := true;
        }
        i := i + 1;
        row := row + 1;
      }
    }

    /** The "Add Replacement Pair" button. */
    method AddPair()
      modifies this
      ensures replacementPairs == old(replacementPairs) + [EmptyPair]
    {
      replacementPairs := replacementPairs + [EmptyPair];
    }
  }
}
