/**
 * The transformation models the registration supports (TransformationType),
 * their display names, and the lookup from a display name back to a model.
 */
module Transformation {
  import opened Wrappers

  datatype TransformationType = Translation | RigidBody | ScaledRotation | Affine | Bilinear

  /** values(): the models in declaration order. */
  const VALUES: seq<TransformationType> := [Translation, RigidBody, ScaledRotation, Affine, Bilinear]

  /** getDisplayName. */
  function DisplayName(t: TransformationType): string
  {
    match t
    case Translation => "Translation"
    case RigidBody => "Rigid body"
    case ScaledRotation => "Scaled rotation"
    case Affine => "Affine"
    case Bilinear => "Bilinear"
  }

  /** Every model is listed in values(), once. */
  lemma ValuesListEveryModel(t: TransformationType)
    ensures exists i :: 0 <= i < |VALUES| && VALUES[i] == t
    ensures forall i, j :: 0 <= i < j < |VALUES| ==> VALUES[i] != VALUES[j]
  {
    match t
    case Translation => assert VALUES[0] == t;
    case RigidBody => assert VALUES[1] == t;
    case ScaledRotation => assert VALUES[2] == t;
    case Affine => assert VALUES[3] == t;
    case Bilinear => assert VALUES[4] == t;
  }

  /** No two models share a display name. */
  lemma DisplayNamesDistinct(s: TransformationType, t: TransformationType)
    ensures DisplayName(s) == DisplayName(t) <==> s == t
  {
    if s != t {
      assert DisplayName(s)[..2] != DisplayName(t)[..2] || |DisplayName(s)| != |DisplayName(t)|;
    }
  }

  /** The first model, from position i of values() on, whose display name is `name`. */
  function SearchFrom(name: string, i: nat): (r: Option<TransformationType>)
    requires i <= |VALUES|
    ensures r.Some? ==> DisplayName(r.value) == name
    decreases |VALUES| - i
  {
    if i == |VALUES| then None
    else if DisplayName(VALUES[i]) == name then Some(VALUES[i])
    else SearchFrom(name, i + 1)
  }

  /** What fromDisplayName returns: the model of that name, or none (null) for any other string. */
  function Lookup(name: string): Option<TransformationType>
  {
    SearchFrom(name, 0)
  }

  /** Looking up a model's display name gives back that model. */
  lemma LookupDisplayName(t: TransformationType)
    ensures Lookup(DisplayName(t)) == Some(t)
  {
    var r := Lookup(DisplayName(t));
    assert r.Some?;
    DisplayNamesDistinct(r.value, t);
  }

  /** A string that is no model's display name finds nothing. */
  lemma LookupOtherName(name: string)
    ensures Lookup(name) == None <==> forall t :: DisplayName(t) != name
  {
    if forall t :: DisplayName(t) != name {
      assert SearchFrom(name, 5) == None;
      assert SearchFrom(name, 0) == None;
    } else {
      var t :| DisplayName(t) == name;
      LookupDisplayName(t);
    }
  }

  /** getAllDisplayNames: the display names in declaration order. */
  method GetAllDisplayNames() returns (result: array<string>)
    ensures result.Length == |VALUES|
    ensures forall i :: 0 <= i < |VALUES| ==> result[i] == DisplayName(VALUES[i])
  {
    result := new string[|VALUES|];
    for i := 0 to |VALUES|
      invariant forall j :: 0 <= j < i ==> result[j] == DisplayName(VALUES[j])
    {
      result[i] := DisplayName(VALUES[i]);
    }
  }

  /** fromDisplayName: the search of values() that returns at the first match. */
  method FromDisplayName(displayName: string) returns (r: Option<TransformationType>)
    ensures r == Lookup(displayName)
  {
    for i := 0 to |VALUES|
      invariant SearchFrom(displayName, i) == Lookup(displayName)
    {
      if DisplayName(VALUES[i]) == displayName {
        return Some(VALUES[i]);
      }
    }
    return None;
  }
}
