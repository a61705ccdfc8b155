/**
 * The stack engine: a profile along the z axis. The two z endpoints are scaled onto grid
 * indices and snapped to multiples of `step`; each of the `step_num + 1` samples is the total
 * of one whole xy-layer of the density field.
 */
module Stack {
  import opened Results
  import opened PyArith
  import opened ReadGrd
  import opened DensityField

  /** What `stack` derives before it samples: the snapped z indices, `step` and `step_num`. */
  datatype StackPlan = StackPlan(zFrom: int, zTo: int, step: int, stepNum: int)

  /**
   * The 5-tuple `stack` returns: the echoed header, `clip_vector = (z_from, z_to)`,
   * `clip_step_length = step`, `clip_step_num = step_num + 1` and the profile.
   */
  datatype StackResult = StackResult(info: DataInfo, zFrom: int, zTo: int, stepLength: int,
                                     stepCount: int, profile: seq<real>)

  /** The z index range scaled from a physical coordinate, `v * 1.0 / c * (k_to - k_from)`. */
  function ScaledZ(v: real, lat: Lattice, s: StepArgs): real
    requires lat.c != 0.0
  {
    v / lat.c * (s.kTo - s.kFrom) as real
  }

  /**
   * A physical z coordinate snapped onto the grid, `int((v * 1.0 / c * (k_to - k_from)) // step * step)`:
   * the multiple of `step` at the start of the step interval holding the scaled coordinate.
   */
  function SnappedZ(v: real, lat: Lattice, s: StepArgs): (m: int)
    requires lat.c != 0.0 && s.step != 0
    ensures SnapBracket(m, ScaledZ(v, lat, s), s.step)
  {
    Snap(v / lat.c * (s.kTo - s.kFrom) as real, s.step)
  }

  /** The `z_from` check as the source writes it: it never compares `z_from` with `k_to`. */
  predicate ZFromRejected(zFrom: int, s: StepArgs)
  {
    zFrom < s.kFrom || s.kFrom > s.kTo
  }

  /** The `z_to` check: `z_to` outside `[k_from, k_to]`. */
  predicate ZToRejected(zTo: int, s: StepArgs)
  {
    zTo < s.kFrom || zTo > s.kTo
  }

  /** The range checks and `step_num` of `stack` on the snapped endpoints, `z_from` first. */
  function PlanZ(zFrom: int, zTo: int, s: StepArgs): (r: Result<StackPlan>)
    requires s.step != 0
    ensures r == Err(ZFromOutOfRange) <==> ZFromRejected(zFrom, s)
    ensures r == Err(ZToOutOfRange) <==> !ZFromRejected(zFrom, s) && ZToRejected(zTo, s)
    ensures r.Ok? <==> !ZFromRejected(zFrom, s) && !ZToRejected(zTo, s)
    ensures r.Ok? ==> r.value.zFrom == zFrom && r.value.zTo == zTo && r.value.step == s.step
    ensures r.Ok? && s.step > 0 ==>
      r.value.stepNum * s.step <= zTo - zFrom < (r.value.stepNum + 1) * s.step
    ensures r.Ok? && s.step < 0 ==>
      (r.value.stepNum + 1) * s.step < zTo - zFrom <= r.value.stepNum * s.step
  {
    if ZFromRejected(zFrom, s) then Err(ZFromOutOfRange)
    else if ZToRejected(zTo, s) then Err(ZToOutOfRange)
    else Ok(StackPlan(zFrom, zTo, s.step, FloorDiv(zTo - zFrom, s.step)))
  }

  /**
   * Scaling, snapping and checks of `stack`: a zero `c` or step divides by zero first; then the
   * snapped `z_from` is checked, then the snapped `z_to`. A plan's endpoints are the snapped
   * coordinates and pass both checks.
   */
  function PlanStack(lat: Lattice, s: StepArgs, zFromAbs: real, zToAbs: real): (r: Result<StackPlan>)
    ensures lat.c == 0.0 || s.step == 0 ==> r == Err(ZeroDivision)
    ensures lat.c != 0.0 && s.step != 0 ==>
      (r == Err(ZFromOutOfRange) <==> ZFromRejected(SnappedZ(zFromAbs, lat, s), s)) &&
      (r == Err(ZToOutOfRange) <==> !ZFromRejected(SnappedZ(zFromAbs, lat, s), s) && ZToRejected(SnappedZ(zToAbs, lat, s), s))
    ensures r.Ok? ==>
      lat.c != 0.0 && r.value.step == s.step &&
      SnapBracket(r.value.zFrom, ScaledZ(zFromAbs, lat, s), s.step) &&
      SnapBracket(r.value.zTo, ScaledZ(zToAbs, lat, s), s.step) &&
      !ZFromRejected(r.value.zFrom, s) && !ZToRejected(r.value.zTo, s) &&
      r.value.stepNum == FloorDiv(r.value.zTo - r.value.zFrom, s.step)
  {
    if lat.c == 0.0 || s.step == 0 then Err(ZeroDivision)
    else PlanZ(SnappedZ(zFromAbs, lat, s), SnappedZ(zToAbs, lat, s), s)
  }

  /**
   * The layer read by sample `i`, `int(z_from + step * i) // step`: successive samples read
   * successive layers, starting at layer `z_from // step`.
   */
  function PlaneIndex(plan: StackPlan, i: int): (z: int)
    requires plan.step != 0
    ensures z == FloorDiv(plan.zFrom, plan.step) + i
  {
    FloorDivAddMultiple(plan.zFrom, plan.step, i);
    FloorDiv(plan.zFrom + plan.step * i, plan.step)
  }

  /**
   * `sum(sum(array[z, :, :]))` at sample `i`. numpy raises IndexError for a layer index outside
   * the array; with no rows the inner `sum` is the integer 0 and the outer one raises TypeError.
   */
  function PlaneAt(f: Field, plan: StackPlan, i: int): (r: Result<real>)
    requires plan.step != 0
    ensures r.Ok? <==> NpIndex(PlaneIndex(plan, i), f.nz).Some? && f.ny > 0
    ensures r.Ok? ==> r.value == PlaneSum(f, NpIndex(PlaneIndex(plan, i), f.nz).value)
    ensures r == Err(IndexOutOfBounds) <==> NpIndex(PlaneIndex(plan, i), f.nz).None?
    ensures r == Err(NotIterable) <==> NpIndex(PlaneIndex(plan, i), f.nz).Some? && f.ny == 0
  {
    match NpIndex(PlaneIndex(plan, i), f.nz)
    case None => Err(IndexOutOfBounds)
    case Some(z) => if f.ny == 0 then Err(NotIterable) else Ok(PlaneSum(f, z))
  }

  /** The first `n` profile entries, or the error of the first sample that fails. */
  function Planes(f: Field, plan: StackPlan, n: nat): (r: Result<seq<real>>)
    requires plan.step != 0
    ensures r.Ok? <==> forall i :: 0 <= i < n ==> PlaneAt(f, plan, i).Ok?
    ensures r.Ok? ==> |r.value| == n && forall i :: 0 <= i < n ==> PlaneAt(f, plan, i) == Ok(r.value[i])
    decreases n
  {
    if n == 0 then Ok([])
    else
      var prev :- Planes(f, plan, n - 1);
      var e :- PlaneAt(f, plan, n - 1);
      Ok(prev + [e])
  }

  /** The profile stops at the first failing sample, with that sample's error. */
  lemma {:induction false} PlanesFirstFailure(f: Field, plan: StackPlan, i: nat, n: nat)
    requires plan.step != 0 && i < n
    requires Planes(f, plan, i).Ok? && PlaneAt(f, plan, i).Err?
    ensures Planes(f, plan, n) == Err(PlaneAt(f, plan, i).error)
    decreases n
  {
    if n > i + 1 {
      PlanesFirstFailure(f, plan, i, n - 1);
    }
  }

  /** The sampling loop `for i in range(step_num + 1): profit_data.append(...)`. */
  method SamplePlanes(f: Field, plan: StackPlan) returns (r: Result<seq<real>>)
    requires plan.step != 0
    ensures r == Planes(f, plan, RangeLen(plan.stepNum + 1))
  {
    var n := RangeLen(plan.stepNum + 1);
    var profile: seq<real> := [];
    var i := 0;
    while i < n
      invariant 0 <= i <= n
      invariant Planes(f, plan, i) == Ok(profile)
    {
      var z := NpIndex(PlaneIndex(plan, i), f.nz);
      if z.None? {
        PlanesFirstFailure(f, plan, i, n);
        return Err(IndexOutOfBounds);
      }
      if f.ny == 0 {
        PlanesFirstFailure(f, plan, i, n);
        return Err(NotIterable);
      }
      profile := profile + [PlaneSum(f, z.value)];
      i := i + 1;
    }
    r := Ok(profile);
  }

  /** `stack` on a loaded grid: reshape, plan, sample, and the result tuple. */
  function StackSpec(g: Grid, zFromAbs: real, zToAbs: real): (r: Result<StackResult>)
    ensures r.Ok? ==> r.value.info == Info(g) && r.value.stepLength == g.steps.step
    ensures r.Ok? ==> |r.value.profile| == RangeLen(r.value.stepCount)
    ensures r.Ok? ==> var plan := PlanStack(g.lattice, g.steps, zFromAbs, zToAbs);
      plan.Ok? && r.value.zFrom == plan.value.zFrom && r.value.zTo == plan.value.zTo &&
      r.value.stepCount == plan.value.stepNum + 1
    ensures ReshapeSize(g.steps).Err? ==> r == Err(ZeroDivision)
    ensures ReshapeSize(g.steps).Ok? && Reshape(g.values, ReshapeSize(g.steps).value).Err? ==>
      r == Err(ReshapeMismatch)
    ensures ReshapeSize(g.steps).Ok? && Reshape(g.values, ReshapeSize(g.steps).value).Ok? ==>
      var plan := PlanStack(g.lattice, g.steps, zFromAbs, zToAbs);
      plan.Err? ==> r == Err(plan.error)
    ensures (ReshapeSize(g.steps).Ok? && Reshape(g.values, ReshapeSize(g.steps).value).Ok? &&
             PlanStack(g.lattice, g.steps, zFromAbs, zToAbs).Ok?) ==>
      var f, plan := Reshape(g.values, ReshapeSize(g.steps).value).value, PlanStack(g.lattice, g.steps, zFromAbs, zToAbs).value;
      r.Ok? <==> forall i :: 0 <= i < RangeLen(plan.stepNum + 1) ==> PlaneAt(f, plan, i).Ok?
  {
    var shape :- ReshapeSize(g.steps);
    var f :- Reshape(g.values, shape);
    var plan :- PlanStack(g.lattice, g.steps, zFromAbs, zToAbs);
    var profile :- Planes(f, plan, RangeLen(plan.stepNum + 1));
    Ok(StackResult(Info(g), plan.zFrom, plan.zTo, plan.step, plan.stepNum + 1, profile))
  }

  /** `stack` on a loaded grid, with its sampling loop. */
  method StackGrid(g: Grid, zFromAbs: real, zToAbs: real) returns (r: Result<StackResult>)
    ensures r == StackSpec(g, zFromAbs, zToAbs)
  {
    var shape :- ReshapeSize(g.steps);
    var f :- Reshape(g.values, shape);
    var plan :- PlanStack(g.lattice, g.steps, zFromAbs, zToAbs);
    var profile :- SamplePlanes(f, plan);
    r := Ok(StackResult(Info(g), plan.zFrom, plan.zTo, plan.step, plan.stepNum + 1, profile));
  }

  /** `stack` on the text of a grid file: loading first, then the engine. */
  function StackText(text: string, zFromAbs: real, zToAbs: real): Result<StackResult>
  {
    var g :- LoadGrd(text);
    StackSpec(g, zFromAbs, zToAbs)
  }

  method StackFile(text: string, zFromAbs: real, zToAbs: real) returns (r: Result<StackResult>)
    ensures r == StackText(text, zFromAbs, zToAbs)
  {
    var g :- ReadGrd.ReadGrd(text);
    r := StackGrid(g, zFromAbs, zToAbs);
  }

  // ---------------------------------------------------------------- properties

  /** `e` is the total of every value of layer `z_from // step + i`, with numpy's wrap for a negative number. */
  predicate IsLayerTotal(f: Field, plan: StackPlan, i: int, e: real)
    requires plan.step != 0
  {
    var z := NpIndex(FloorDiv(plan.zFrom, plan.step) + i, f.nz);
    z.Some? && e == Sum(Layer(f, z.value))
  }

  /** One successful sample is the total of the layer `z_from // step + i`. */
  lemma PlaneEntry(f: Field, plan: StackPlan, i: int, e: real)
    requires plan.step != 0 && PlaneAt(f, plan, i) == Ok(e)
    ensures IsLayerTotal(f, plan, i, e)
  {
  }

  lemma PlanesAreLayerTotals(f: Field, plan: StackPlan, n: nat, profile: seq<real>)
    requires plan.step != 0 && Planes(f, plan, n) == Ok(profile)
    ensures |profile| == n && forall i :: 0 <= i < n ==> IsLayerTotal(f, plan, i, profile[i])
  {
    forall i | 0 <= i < n
      ensures IsLayerTotal(f, plan, i, profile[i])
    {
      PlaneEntry(f, plan, i, profile[i]);
    }
  }

  /**
   * A successful stack: entry `i` is the total of every value of layer `z_from // step + i`,
   * and there are `max(0, step_num + 1)` entries.
   */
  lemma StackProfileEntries(g: Grid, zFromAbs: real, zToAbs: real)
    requires StackSpec(g, zFromAbs, zToAbs).Ok?
    ensures ReshapeSize(g.steps).Ok? && Reshape(g.values, ReshapeSize(g.steps).value).Ok?
    ensures PlanStack(g.lattice, g.steps, zFromAbs, zToAbs).Ok?
    ensures var f := Reshape(g.values, ReshapeSize(g.steps).value).value;
      var plan := PlanStack(g.lattice, g.steps, zFromAbs, zToAbs).value;
      var profile := StackSpec(g, zFromAbs, zToAbs).value.profile;
      |profile| == RangeLen(plan.stepNum + 1) &&
      forall i :: 0 <= i < |profile| ==> IsLayerTotal(f, plan, i, profile[i])
  {
    var f := Reshape(g.values, ReshapeSize(g.steps).value).value;
    var plan := PlanStack(g.lattice, g.steps, zFromAbs, zToAbs).value;
    PlanesAreLayerTotals(f, plan, RangeLen(plan.stepNum + 1), StackSpec(g, zFromAbs, zToAbs).value.profile);
  }

  /** Equal endpoints are legal and give exactly one entry: the total of that single layer. */
  lemma EqualEndpointsOneLayer(g: Grid, zFromAbs: real, zToAbs: real)
    requires StackSpec(g, zFromAbs, zToAbs).Ok?
    requires StackSpec(g, zFromAbs, zToAbs).value.zFrom == StackSpec(g, zFromAbs, zToAbs).value.zTo
    ensures var r := StackSpec(g, zFromAbs, zToAbs).value;
      var f := Reshape(g.values, ReshapeSize(g.steps).value).value;
      var plan := PlanStack(g.lattice, g.steps, zFromAbs, zToAbs).value;
      r.stepCount == 1 && |r.profile| == 1 && IsLayerTotal(f, plan, 0, r.profile[0])
  {
    var plan := PlanStack(g.lattice, g.steps, zFromAbs, zToAbs).value;
    assert plan.stepNum == FloorDiv(0, plan.step);
    FloorDivOfMultiple(0, plan.step);
    StackProfileEntries(g, zFromAbs, zToAbs);
  }

  /**
   * A `z_from` above `z_to` gets through the checks whenever it stays at or above `k_from`:
   * then `step_num + 1 <= 0` and the profile is empty.
   */
  lemma BackwardStackIsEmpty(g: Grid, zFromAbs: real, zToAbs: real)
    requires StackSpec(g, zFromAbs, zToAbs).Ok? && g.steps.step > 0
    requires StackSpec(g, zFromAbs, zToAbs).value.zFrom > StackSpec(g, zFromAbs, zToAbs).value.zTo
    ensures StackSpec(g, zFromAbs, zToAbs).value.stepCount <= 0
    ensures StackSpec(g, zFromAbs, zToAbs).value.profile == []
  {
    var plan := PlanStack(g.lattice, g.steps, zFromAbs, zToAbs).value;
    var d := plan.zTo - plan.zFrom;
    assert plan.stepNum * plan.step <= d < 0;
    if plan.stepNum >= 0 {
      MulLe(0, plan.stepNum, plan.step);
    }
  }

  /**
   * The gap in the `z_from` check: with `c = 1`, step 1 and z bounds 0..2, a `z_from` of 3.0 maps
   * to index 6, above `k_to`, and is accepted; `z_to` = 0.5 maps to 1, so `step_num` is -5.
   */
  lemma ZFromAboveTopAccepted()
    ensures var lat := Lattice(1.0, 1.0, 1.0, 90.0, 90.0, 90.0);
      var s := StepArgs(1, 0, 0, 0, 0, 0, 2);
      PlanStack(lat, s, 3.0, 0.5) == Ok(StackPlan(6, 1, 1, -5)) && 6 > s.kTo
  {
    var lat := Lattice(1.0, 1.0, 1.0, 90.0, 90.0, 90.0);
    var s := StepArgs(1, 0, 0, 0, 0, 0, 2);
    assert SnappedZ(3.0, lat, s) == 6 by { SnapOfMultiple(6, 1); }
    assert SnappedZ(0.5, lat, s) == 1 by { SnapOfMultiple(1, 1); }
  }

  /** The accepted backward range of that grid yields an empty profile and `clip_step_num` -4. */
  lemma ZFromAboveTopEmptyProfile()
    ensures var g := Grid("", Lattice(1.0, 1.0, 1.0, 90.0, 90.0, 90.0), StepArgs(1, 0, 0, 0, 0, 0, 2), [1.0, 2.0, 3.0]);
      StackSpec(g, 3.0, 0.5) == Ok(StackResult(Info(g), 6, 1, 1, -4, []))
  {
    var g := Grid("", Lattice(1.0, 1.0, 1.0, 90.0, 90.0, 90.0), StepArgs(1, 0, 0, 0, 0, 0, 2), [1.0, 2.0, 3.0]);
    ZFromAboveTopAccepted();
    assert ReshapeSize(g.steps) == Ok(Shape(3, 1, 1));
  }
}
