/**
  The parameter panel of the colour-adjustment tool: six parameters with
  defaults, the selected parameter, the arrow-key step with its clamp, the
  reset, and the mouse hit test on the rows of the panel.
*/
module Tuning {
  import opened Options

  datatype Param = HTolerance | STolerance | VTolerance | HueShift | SaturationScale | ValueScale

  /** The order of the keys of `params`, which is the order of the rows. */
  const Order: seq<Param> := [HTolerance, STolerance, VTolerance, HueShift, SaturationScale, ValueScale]

  lemma OrderListsEachOnce(p: Param)
    ensures exists i :: 0 <= i < |Order| && Order[i] == p
    ensures forall i, j :: 0 <= i < j < |Order| ==> Order[i] != Order[j]
  {
    match p
    case HTolerance => assert Order[0] == p;
    case STolerance => assert Order[1] == p;
    case VTolerance => assert Order[2] == p;
    case HueShift => assert Order[3] == p;
    case SaturationScale => assert Order[4] == p;
    case ValueScale => assert Order[5] == p;
  }

  /** `default_params`. */
  function Default(p: Param): real
  {
    match p
    case HTolerance => 15.0
    case STolerance => 0.24
    case VTolerance => 0.26
    case HueShift => 30.0
    case SaturationScale => 1.0
    case ValueScale => 1.0
  }

  /** Every parameter is one of the six keys. */
  const Keys: set<Param> := {HTolerance, STolerance, VTolerance, HueShift, SaturationScale, ValueScale}

  lemma KeysComplete(p: Param)
    ensures p in Keys
  {
  }

  function Defaults(): (m: map<Param, real>)
    ensures forall p: Param :: p in m && m[p] == Default(p)
  {
    forall p: Param ensures p in Keys {
      KeysComplete(p);
    }
    map p: Param | p in Keys :: Default(p)
  }

  /** The two angle parameters step in degrees, the others in hundredths. */
  predicate InDegrees(p: Param)
  {
    p == HTolerance || p == HueShift
  }

  /** The step: 1 or 5 degrees, or 0.01 or 0.05, the larger with Shift held. */
  function Step(p: Param, shift: bool): (s: real)
    ensures InDegrees(p) ==> s == (if shift then 5.0 else 1.0)
    ensures !InDegrees(p) ==> s == (if shift then 0.05 else 0.01)
  {
    var small := if InDegrees(p) then 1.0 else 0.01;
    var large := if InDegrees(p) then 5.0 else 0.05;
    if shift then large else small
  }

  /** The highest value of each parameter; the lowest is 0 for all. */
  function Upper(p: Param): real
  {
    match p
    case HTolerance => 180.0
    case HueShift => 180.0
    case STolerance => 1.0
    case VTolerance => 1.0
    case SaturationScale => 5.0
    case ValueScale => 5.0
  }

  /** `max(0, min(hi, v))`. */
  function Clamp(v: real, hi: real): (c: real)
    requires 0.0 <= hi
    ensures 0.0 <= c <= hi
    ensures 0.0 <= v <= hi ==> c == v
    ensures v < 0.0 ==> c == 0.0
    ensures v > hi ==> c == hi
  {
    if v < 0.0 then 0.0 else if v > hi then hi else v
  }

  /** A value moved by `direction` steps and clamped to the range of `p`. */
  function Adjusted(v: real, p: Param, direction: real, shift: bool): (r: real)
    ensures 0.0 <= r <= Upper(p)
  {
    Clamp(v + direction * Step(p, shift), Upper(p))
  }

  /** The defaults lie inside the allowed ranges. */
  lemma DefaultsInRange(p: Param)
    ensures 0.0 <= Default(p) <= Upper(p)
  {
  }

  /** Rows start 150 pixels below the image, 30 pixels apart, each 300 by
      25 pixels at x = 20. `pygame.Rect.collidepoint` includes the top and
      left edges and excludes the bottom and right ones. */
  predicate InRow(i: int, imageHeight: int, x: int, y: int)
  {
    var top := imageHeight + 150 + i * 30;
    20 <= x < 20 + 300 && top <= y < top + 25
  }

  /** The row under a point, found by arithmetic instead of a search. */
  function RowAt(imageHeight: int, x: int, y: int): (r: Option<nat>)
    ensures r.Some? ==> r.value < |Order|
  {
    var dy := y - (imageHeight + 150);
    if 20 <= x < 320 && 0 <= dy && dy % 30 < 25 && dy / 30 < |Order| then Some(dy / 30) else None
  }

  /** A point lies in row `i` exactly when `RowAt` names that row; in
      particular no point lies in two rows. */
  lemma RowAtIff(i: int, imageHeight: int, x: int, y: int)
    requires 0 <= i < |Order|
    ensures InRow(i, imageHeight, x, y) <==> RowAt(imageHeight, x, y) == Some(i)
  {
    var dy := y - (imageHeight + 150);
    if InRow(i, imageHeight, x, y) {
      assert i * 30 <= dy < i * 30 + 25;
      assert dy == i * 30 + (dy - i * 30);
      assert dy / 30 == i && dy % 30 == dy - i * 30 by {
        DivModUnique(dy, i, dy - i * 30);
      }
    }
    if RowAt(imageHeight, x, y) == Some(i) {
      assert dy == 30 * (dy / 30) + dy % 30;
    }
  }

  lemma DivModUnique(a: int, q: int, r: int)
    requires 0 <= r < 30 && a == q * 30 + r
    ensures a / 30 == q && a % 30 == r
  {
  }

  lemma RowsDisjoint(i: int, j: int, imageHeight: int, x: int, y: int)
    requires 0 <= i < |Order| && 0 <= j < |Order| && i != j
    ensures !(InRow(i, imageHeight, x, y) && InRow(j, imageHeight, x, y))
  {
    RowAtIff(i, imageHeight, x, y);
    RowAtIff(j, imageHeight, x, y);
  }

  class Tuner {
    var params: map<Param, real>
    var active: Option<Param>
    const imageHeight: int

    /** Every parameter has a value inside its range. */
    ghost predicate Valid()
      reads this
    {
      forall p: Param :: p in params && 0.0 <= params[p] <= Upper(p)
    }

    /** The panel at start: defaults and nothing selected. */
    constructor (imageHeight: int)
      ensures Valid() && params == Defaults() && active == None && this.imageHeight == imageHeight
    {
      params := Defaults();
      active := None;
      this.imageHeight := imageHeight;
    }

    /** `adjust_param(direction)`: without a selected parameter nothing
        changes; otherwise only the selected one moves by `direction` steps
        and is clamped to its range. */
    method AdjustParam(direction: real, shift: bool)
      requires Valid()
      modifies this`params
      ensures Valid()
      ensures active.None? ==> params == old(params)
      ensures active.Some? ==> var p := active.value;
        params == old(params)[p := Adjusted(old(params)[p], p, direction, shift)]
    {
      if active.None? {
        return;
      }
      var p := active.value;
      var v := Adjusted(params[p], p, direction, shift);
      params := params[p := v];
      forall q: Param ensures q in params && 0.0 <= params[q] <= Upper(q) {
        if q != p {
          assert params[q] == old(params)[q];
        }
      }
    }

    /** `reset_params`: every parameter back to its default. */
    method ResetParams()
      modifies this`params
      ensures Valid() && params == Defaults()
    {
      params := Defaults();
      forall p: Param ensures 0.0 <= params[p] <= Upper(p) {
        DefaultsInRange(p);
      }
    }

    /** `handle_param_click(pos)`: the first row containing the point is
        selected; when no row contains it, the selection stays. */
    method HandleParamClick(x: int, y: int) returns (hit: bool)
      modifies this`active
      ensures hit <==> RowAt(imageHeight, x, y).Some?
      ensures hit ==> active == Some(Order[RowAt(imageHeight, x, y).value])
      ensures !hit ==> active == old(active)
    {
      for i := 0 to |Order|
        invariant forall j :: 0 <= j < i ==> !InRow(j, imageHeight, x, y)
      {
        if 20 <= x < 20 + 300 && imageHeight + 150 + i * 30 <= y < imageHeight + 150 + i * 30 + 25 {
          RowAtIff(i, imageHeight, x, y);
          active := Some(Order[i]);
          return true;
        }
      }
      match RowAt(imageHeight, x, y) {
        case None =>
        case Some(r) => RowAtIff(r, imageHeight, x, y);
      }
      return false;
    }
  }

  /** Away from the ends of the range, a step up followed by a step down
      gives back the value it started from. */
  lemma StepBackRestores(v: real, p: Param, shift: bool)
    requires 0.0 <= v && v + Step(p, shift) <= Upper(p)
    ensures Clamp(Clamp(v + Step(p, shift), Upper(p)) - Step(p, shift), Upper(p)) == v
  {
  }

  /** At the top of the range a further step up changes nothing. */
  lemma StepAtTop(p: Param, shift: bool)
    ensures Clamp(Upper(p) + Step(p, shift), Upper(p)) == Upper(p)
    ensures Clamp(0.0 - Step(p, shift), Upper(p)) == 0.0
  {
  }
}
