/** Fields made of components, and the short cut for a single one (DDCore/src/Fields.cpp). */
module OverlayedField {
  import opened Wrappers
  import opened MultipoleField

  /** A component and what it adds at a position; it can be electric, magnetic, both or neither. */
  datatype Component = Component(electric: bool, magnetic: bool, value: Vec -> Vec)

  /** The components one after the other, added to what is there. */
  function Combined(start: Vec, components: seq<Component>, pos: Vec): Vec
    decreases |components|
  {
    if components == [] then start else Combined(Add(start, components[0].value(pos)), components[1..], pos)
  }

  lemma {:induction false} CombinedFrom(start: Vec, components: seq<Component>, pos: Vec)
    ensures Combined(start, components, pos) == Add(start, Combined(ORIGIN, components, pos))
    decreases |components|
  {
    if components != [] {
      CombinedFrom(Add(start, components[0].value(pos)), components[1..], pos);
      CombinedFrom(Add(ORIGIN, components[0].value(pos)), components[1..], pos);
    }
  }

  /** The sum of what the components have at the position. */
  function Total(components: seq<Component>, pos: Vec): Vec
    decreases |components|
  {
    if components == [] then ORIGIN else Add(Total(Front(components), pos), Last(components).value(pos))
  }

  lemma {:induction false} CombinedEnd(start: Vec, components: seq<Component>, pos: Vec)
    requires components != []
    ensures Combined(start, components, pos) ==
            Add(Combined(start, Front(components), pos), Last(components).value(pos))
    decreases |components|
  {
    if |components| > 1 {
      assert Front(components[1..]) == Front(components)[1..] && Last(components[1..]) == Last(components);
      CombinedEnd(Add(start, components[0].value(pos)), components[1..], pos);
    }
  }

  /** Every component counts once, with its value at the position. */
  lemma {:induction false} CombinedIsTotal(start: Vec, components: seq<Component>, pos: Vec)
    ensures Combined(start, components, pos) == Add(start, Total(components, pos))
    decreases |components|
  {
    if components != [] {
      CombinedEnd(start, components, pos);
      CombinedIsTotal(start, Front(components), pos);
    }
  }

  lemma StartMatters(start: Vec, components: seq<Component>, pos: Vec)
    ensures Combined(start, components, pos) == Combined(ORIGIN, components, pos) <==> start == ORIGIN
  {
    CombinedFrom(start, components, pos);
  }

  class OverlayedFieldObject {
    var electricComponents: seq<Component>
    var magneticComponents: seq<Component>
    // The short cuts.
    var electric: Option<Component>
    var magnetic: Option<Component>

    ghost predicate Valid()
      reads this
    {
      && magnetic == (if |magneticComponents| == 1 then Some(magneticComponents[0]) else None)
      && electric == (if |electricComponents| == 1 then Some(electricComponents[0]) else None)
    }

    constructor ()
      ensures Valid() && electricComponents == [] && magneticComponents == []
    {
      electricComponents, magneticComponents, electric, magnetic := [], [], None, None;
    }

    /** `ok` is false for the exception about a component of unknown type. */
    method Add(field: Component) returns (ok: bool)
      requires Valid()
      modifies this
      ensures Valid()
      ensures ok <==> field.electric || field.magnetic
      ensures electricComponents == old(electricComponents) + if field.electric then [field] else []
      ensures magneticComponents == old(magneticComponents) + if field.magnetic then [field] else []
    {
      if field.electric {
        electricComponents := electricComponents + [field];
        electric := if |electricComponents| == 1 then Some(field) else None;
      }
      if field.magnetic {
        magneticComponents := magneticComponents + [field];
        magnetic := if |magneticComponents| == 1 then Some(field) else None;
      }
      ok := field.electric || field.magnetic;
    }

    /** Adds the components to three entries of `field`. */
    static method AddAll(components: seq<Component>, pos: Vec, field: array<real>, at: nat)
      requires at + 3 <= field.Length
      modifies field
      ensures Vec(field[at], field[at + 1], field[at + 2]) ==
              Combined(old(Vec(field[at], field[at + 1], field[at + 2])), components, pos)
      ensures forall i :: 0 <= i < field.Length && !(at <= i < at + 3) ==> field[i] == old(field[i])
    {
      var n := 0;
      ghost var start := Vec(field[at], field[at + 1], field[at + 2]);
      assert components[0..] == components;
      while n < |components|
        invariant 0 <= n <= |components|
        invariant Combined(Vec(field[at], field[at + 1], field[at + 2]), components[n..], pos) ==
                  Combined(start, components, pos)
        invariant forall i :: 0 <= i < field.Length && !(at <= i < at + 3) ==> field[i] == old(field[i])
      {
        assert components[n..][1..] == components[n + 1..];
        var v := components[n].value(pos);
        field[at] := field[at] + v.x;
        field[at + 1] := field[at + 1] + v.y;
        field[at + 2] := field[at + 2] + v.z;
        n := n + 1;
      }
    }

    /** The short cut gives what all the magnetic components give. */
    method MagneticField(pos: Vec, field: array<real>)
      requires Valid() && field.Length >= 3
      modifies field
      ensures Vec(field[0], field[1], field[2]) == Combined(ORIGIN, magneticComponents, pos)
      ensures forall i :: 3 <= i < field.Length ==> field[i] == old(field[i])
    {
      field[0], field[1], field[2] := 0.0, 0.0, 0.0;
      if magnetic.Some? {
        AddAll([magnetic.value], pos, field, 0);
        assert magneticComponents == [magnetic.value];
      } else {
        AddAll(magneticComponents, pos, field, 0);
      }
    }

    /** Only the electric entries are cleared first: the magnetic ones add to what was there. */
    method ElectromagneticField(pos: Vec, field: array<real>)
      requires field.Length >= 6
      modifies field
      ensures Vec(field[0], field[1], field[2]) == Combined(ORIGIN, electricComponents, pos)
      ensures Vec(field[3], field[4], field[5]) == Combined(ORIGIN, magneticComponents, pos) <==>
              old(Vec(field[3], field[4], field[5])) == ORIGIN
      ensures forall i :: 6 <= i < field.Length ==> field[i] == old(field[i])
    {
      field[0], field[1], field[2] := 0.0, 0.0, 0.0;
      AddAll(electricComponents, pos, field, 0);
      StartMatters(Vec(field[3], field[4], field[5]), magneticComponents, pos);
      AddAll(magneticComponents, pos, field, 3);
    }
  }
}
