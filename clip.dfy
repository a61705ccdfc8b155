/**
 * The clip engine: a vertical cut through the density field along a segment of the xy plane.
 * The two endpoints are scaled onto grid indices and snapped to multiples of `step`; the
 * segment is divided into `step_num` increments; each of the `step_num + 1` samples is the
 * sum over all z-layers of the column under it.
 */
module Clip {
  import opened Results
  import opened PyArith
  import opened ReadGrd
  import opened DensityField

  /** A point of the xy plane in physical coordinates along the lattice axes a and b. */
  datatype Point = Point(x: real, y: real)

  /** `clip_vector`: the snapped grid indices of the from and to points. */
  datatype ClipVector = ClipVector(xFrom: int, yFrom: int, xTo: int, yTo: int)

  /** What `clip` derives before it samples: the vector, `step`, `step_num` and the increments. */
  datatype ClipPlan = ClipPlan(vector: ClipVector, step: int, stepNum: int, xStep: real, yStep: real)

  /**
   * The 5-tuple `clip` returns. The step length is kept squared (`x_step ** 2 + y_step ** 2`),
   * without the final square root.
   */
  datatype ClipResult = ClipResult(info: DataInfo, vector: ClipVector, stepLengthSquared: real,
                                   stepCount: int, profile: seq<real>)

  /**
   * A physical coordinate scaled onto the index range of one axis, `p * 1.0 / extent * (to - from)`:
   * proportional to `p`, with 0 mapped to 0 and the full lattice length `extent` to the span.
   */
  function Scaled(p: real, extent: real, from: int, to: int): (v: real)
    requires extent != 0.0
    ensures v * extent == p * (to - from) as real
    ensures p == 0.0 ==> v == 0.0
    ensures p == extent ==> v == (to - from) as real
  {
    p / extent * (to - from) as real
  }

  /**
   * The snapped indices of both points, before any range check: each is the multiple of `step`
   * at the start of the step interval holding its scaled coordinate.
   */
  function Endpoints(lat: Lattice, s: StepArgs, p: Point, q: Point): (v: ClipVector)
    requires lat.a != 0.0 && lat.b != 0.0 && s.step != 0
    ensures SnapBracket(v.xFrom, Scaled(p.x, lat.a, s.iFrom, s.iTo), s.step)
    ensures SnapBracket(v.yFrom, Scaled(p.y, lat.b, s.jFrom, s.jTo), s.step)
    ensures SnapBracket(v.xTo, Scaled(q.x, lat.a, s.iFrom, s.iTo), s.step)
    ensures SnapBracket(v.yTo, Scaled(q.y, lat.b, s.jFrom, s.jTo), s.step)
  {
    ClipVector(Snap(Scaled(p.x, lat.a, s.iFrom, s.iTo), s.step), Snap(Scaled(p.y, lat.b, s.jFrom, s.jTo), s.step),
               Snap(Scaled(q.x, lat.a, s.iFrom, s.iTo), s.step), Snap(Scaled(q.y, lat.b, s.jFrom, s.jTo), s.step))
  }

  /** An index pair lies inside the grid's x bounds `[i_from, i_to]` and y bounds `[j_from, j_to]`. */
  predicate InGrid(x: int, y: int, s: StepArgs)
  {
    s.iFrom <= x <= s.iTo && s.jFrom <= y <= s.jTo
  }

  /**
   * `step_num = max(x_to - x_from, y_to - y_from) // step`: the number of whole steps in the
   * longer of the two spans, rounded down.
   */
  function StepNum(v: ClipVector, step: int): (n: int)
    requires step != 0
    ensures var m := Max(v.xTo - v.xFrom, v.yTo - v.yFrom);
      (step > 0 ==> n * step <= m < n * step + step) && (step < 0 ==> n * step + step < m <= n * step)
  {
    FloorDiv(Max(v.xTo - v.xFrom, v.yTo - v.yFrom), step)
  }

  predicate NonZero(lat: Lattice, s: StepArgs)
  {
    lat.a != 0.0 && lat.b != 0.0 && s.step != 0
  }

  /**
   * The range checks and increments of `clip` on the snapped vector: the from point is checked
   * before the to point, and a zero `step_num` divides by zero.
   */
  function PlanVector(v: ClipVector, s: StepArgs): (r: Result<ClipPlan>)
    requires s.step != 0
    ensures r == Err(FromPointOutOfRange) <==> !InGrid(v.xFrom, v.yFrom, s)
    ensures r == Err(ToPointOutOfRange) <==> InGrid(v.xFrom, v.yFrom, s) && !InGrid(v.xTo, v.yTo, s)
    ensures InGrid(v.xFrom, v.yFrom, s) && InGrid(v.xTo, v.yTo, s) ==>
      (r == Err(ZeroDivision) <==> StepNum(v, s.step) == 0)
    ensures r.Ok? ==>
      InGrid(v.xFrom, v.yFrom, s) && InGrid(v.xTo, v.yTo, s) && r.value.vector == v &&
      r.value.step == s.step && r.value.stepNum == StepNum(v, s.step) && r.value.stepNum != 0 &&
      r.value.xStep == (v.xTo - v.xFrom) as real / r.value.stepNum as real &&
      r.value.yStep == (v.yTo - v.yFrom) as real / r.value.stepNum as real
  {
    if !InGrid(v.xFrom, v.yFrom, s) then Err(FromPointOutOfRange)
    else if !InGrid(v.xTo, v.yTo, s) then Err(ToPointOutOfRange)
    else
      var n := StepNum(v, s.step);
      if n == 0 then Err(ZeroDivision)
      else
        Ok(ClipPlan(v, s.step, n, (v.xTo - v.xFrom) as real / n as real, (v.yTo - v.yFrom) as real / n as real))
  }

  lemma DivTimes(a: real, n: real)
    requires n != 0.0
    ensures (a / n) * n == a
  {
  }

  /**
   * Scaling, snapping, range checks and increments of `clip`: a zero extent or step divides
   * by zero before anything else is checked.
   */
  function PlanClip(lat: Lattice, s: StepArgs, p: Point, q: Point): (r: Result<ClipPlan>)
    ensures !NonZero(lat, s) ==> r == Err(ZeroDivision)
    ensures NonZero(lat, s) ==> var v := Endpoints(lat, s, p, q);
      (r == Err(FromPointOutOfRange) <==> !InGrid(v.xFrom, v.yFrom, s)) &&
      (r == Err(ToPointOutOfRange) <==> InGrid(v.xFrom, v.yFrom, s) && !InGrid(v.xTo, v.yTo, s))
    ensures r.Ok? ==> var v := r.value.vector;
      NonZero(lat, s) && r.value.step == s.step &&
      SnapBracket(v.xFrom, Scaled(p.x, lat.a, s.iFrom, s.iTo), s.step) &&
      SnapBracket(v.yFrom, Scaled(p.y, lat.b, s.jFrom, s.jTo), s.step) &&
      SnapBracket(v.xTo, Scaled(q.x, lat.a, s.iFrom, s.iTo), s.step) &&
      SnapBracket(v.yTo, Scaled(q.y, lat.b, s.jFrom, s.jTo), s.step) &&
      InGrid(v.xFrom, v.yFrom, s) && InGrid(v.xTo, v.yTo, s)
  {
    if !NonZero(lat, s) then Err(ZeroDivision)
    else PlanVector(Endpoints(lat, s, p, q), s)
  }

  /** The position of sample `i` along one axis, before truncation: `from + inc * i`. */
  function Position(from: int, inc: real, i: int): real
  {
    from as real + inc * i as real
  }

  /**
   * The index of sample `i` along one axis, `int(from + inc * i) // step`: the number of whole
   * steps in the truncated position, rounded down.
   */
  function AxisSample(from: int, inc: real, step: int, i: int): (k: int)
    requires step != 0
    ensures var t := Trunc(Position(from, inc, i));
      (step > 0 ==> k * step <= t < k * step + step) && (step < 0 ==> k * step + step < t <= k * step)
  {
    FloorDiv(Trunc(Position(from, inc, i)), step)
  }

  /**
   * The x index of sample `i`, `int(x_from + x_step * i) // step`. Sample 0 reads the from
   * point's column and, once the increment divides the span into `step_num` parts, sample
   * `step_num` reads the to point's.
   */
  function SampleX(plan: ClipPlan, i: int): (k: int)
    requires plan.step != 0
    ensures i == 0 ==> k == FloorDiv(plan.vector.xFrom, plan.step)
    ensures i == plan.stepNum != 0 && plan.xStep == (plan.vector.xTo - plan.vector.xFrom) as real / plan.stepNum as real ==>
      k == FloorDiv(plan.vector.xTo, plan.step)
  {
    AxisSampleEnds(plan.vector.xFrom, plan.vector.xTo, plan.xStep, plan.step, plan.stepNum);
    AxisSample(plan.vector.xFrom, plan.xStep, plan.step, i)
  }

  /** The y index of sample `i`, `int(y_from + y_step * i) // step`, with the same two ends. */
  function SampleY(plan: ClipPlan, i: int): (k: int)
    requires plan.step != 0
    ensures i == 0 ==> k == FloorDiv(plan.vector.yFrom, plan.step)
    ensures i == plan.stepNum != 0 && plan.yStep == (plan.vector.yTo - plan.vector.yFrom) as real / plan.stepNum as real ==>
      k == FloorDiv(plan.vector.yTo, plan.step)
  {
    AxisSampleEnds(plan.vector.yFrom, plan.vector.yTo, plan.yStep, plan.step, plan.stepNum);
    AxisSample(plan.vector.yFrom, plan.yStep, plan.step, i)
  }

  /**
   * `sum(array[:, y, x])` at sample `i`, with y and x the sample's indices wrapped by numpy: the
   * z-total of that column, or None where numpy raises IndexError.
   */
  function ColumnAt(f: Field, plan: ClipPlan, i: int): (r: Option<real>)
    requires plan.step != 0
    ensures r.Some? <==> NpIndex(SampleY(plan, i), f.ny).Some? && NpIndex(SampleX(plan, i), f.nx).Some?
    ensures r.Some? ==> r.value == ColumnSum(f, NpIndex(SampleY(plan, i), f.ny).value, NpIndex(SampleX(plan, i), f.nx).value)
  {
    match (NpIndex(SampleY(plan, i), f.ny), NpIndex(SampleX(plan, i), f.nx))
    case (Some(y), Some(x)) => Some(ColumnSum(f, y, x))
    case _ => None
  }

  /** The first `n` profile entries, or IndexError as soon as a sample leaves the array. */
  function Columns(f: Field, plan: ClipPlan, n: nat): (r: Result<seq<real>>)
    requires plan.step != 0
    ensures r.Ok? <==> forall i :: 0 <= i < n ==> ColumnAt(f, plan, i).Some?
    ensures r.Ok? ==> |r.value| == n && forall i :: 0 <= i < n ==> Some(r.value[i]) == ColumnAt(f, plan, i)
    ensures r.Err? ==> r.error == IndexOutOfBounds
    decreases n
  {
    if n == 0 then Ok([])
    else
      var prev :- Columns(f, plan, n - 1);
      match ColumnAt(f, plan, n - 1)
      case None => Err(IndexOutOfBounds)
      case Some(e) => Ok(prev + [e])
  }

  /** The sampling loop `for i in range(step_num + 1): profit_data.append(...)`. */
  method SampleColumns(f: Field, plan: ClipPlan) returns (r: Result<seq<real>>)
    requires plan.step != 0
    ensures r == Columns(f, plan, RangeLen(plan.stepNum + 1))
  {
    var n := RangeLen(plan.stepNum + 1);
    var profile: seq<real> := [];
    var i := 0;
    while i < n
      invariant 0 <= i <= n
      invariant Columns(f, plan, i) == Ok(profile)
    {
      var y := NpIndex(SampleY(plan, i), f.ny);
      var x := NpIndex(SampleX(plan, i), f.nx);
      if y.None? || x.None? {
        assert ColumnAt(f, plan, i).None?;
        return Err(IndexOutOfBounds);
      }
      profile := profile + [ColumnSum(f, y.value, x.value)];
      i := i + 1;
    }
    r := Ok(profile);
  }

  /**
   * `x_step ** 2 + y_step ** 2`, the square of `clip_step_length`: never negative and never
   * below the square of either increment.
   */
  function StepLengthSquared(plan: ClipPlan): (l: real)
    ensures l >= 0.0
    ensures l >= plan.xStep * plan.xStep && l >= plan.yStep * plan.yStep
  {
    SquareNonNegative(plan.xStep);
    SquareNonNegative(plan.yStep);
    plan.xStep * plan.xStep + plan.yStep * plan.yStep
  }

  lemma SquareNonNegative(a: real)
    ensures a * a >= 0.0
  {
    if a < 0.0 {
      assert a * a == (-a) * (-a);
    }
  }

  /** `clip` on a loaded grid: reshape, plan, sample, and the result tuple. */
  function ClipSpec(g: Grid, p: Point, q: Point): (r: Result<ClipResult>)
    ensures r.Ok? ==> r.value.info == Info(g)
    ensures r.Ok? ==> |r.value.profile| == RangeLen(r.value.stepCount)
    ensures r.Ok? ==> var plan := PlanClip(g.lattice, g.steps, p, q);
      plan.Ok? && r.value.vector == plan.value.vector && r.value.stepCount == plan.value.stepNum + 1 &&
      r.value.stepLengthSquared == StepLengthSquared(plan.value)
    ensures ReshapeSize(g.steps).Err? ==> r == Err(ZeroDivision)
    ensures ReshapeSize(g.steps).Ok? && Reshape(g.values, ReshapeSize(g.steps).value).Err? ==>
      r == Err(ReshapeMismatch)
    ensures ReshapeSize(g.steps).Ok? && Reshape(g.values, ReshapeSize(g.steps).value).Ok? ==>
      var plan := PlanClip(g.lattice, g.steps, p, q);
      plan.Err? ==> r == Err(plan.error)
    ensures (ReshapeSize(g.steps).Ok? && Reshape(g.values, ReshapeSize(g.steps).value).Ok? &&
             PlanClip(g.lattice, g.steps, p, q).Ok?) ==>
      var f, plan := Reshape(g.values, ReshapeSize(g.steps).value).value, PlanClip(g.lattice, g.steps, p, q).value;
      (r.Ok? <==> forall i :: 0 <= i < RangeLen(plan.stepNum + 1) ==> ColumnAt(f, plan, i).Some?) &&
      (r.Err? ==> r.error == IndexOutOfBounds)
  {
    var shape :- ReshapeSize(g.steps);
    var f :- Reshape(g.values, shape);
    var plan :- PlanClip(g.lattice, g.steps, p, q);
    var profile :- Columns(f, plan, RangeLen(plan.stepNum + 1));
    Ok(ClipResult(Info(g), plan.vector, StepLengthSquared(plan), plan.stepNum + 1, profile))
  }

  /** `clip` on a loaded grid, with its sampling loop. */
  method ClipGrid(g: Grid, p: Point, q: Point) returns (r: Result<ClipResult>)
    ensures r == ClipSpec(g, p, q)
  {
    var shape :- ReshapeSize(g.steps);
    var f :- Reshape(g.values, shape);
    var plan :- PlanClip(g.lattice, g.steps, p, q);
    var profile :- SampleColumns(f, plan);
    r := Ok(ClipResult(Info(g), plan.vector, StepLengthSquared(plan), plan.stepNum + 1, profile));
  }

  /** `clip` on the text of a grid file: loading first, then the engine. */
  function ClipText(text: string, p: Point, q: Point): Result<ClipResult>
  {
    var g :- LoadGrd(text);
    ClipSpec(g, p, q)
  }

  method ClipFile(text: string, p: Point, q: Point) returns (r: Result<ClipResult>)
    ensures r == ClipText(text, p, q)
  {
    var g :- ReadGrd.ReadGrd(text);
    r := ClipGrid(g, p, q);
  }

  // ---------------------------------------------------------------- properties

  /**
   * What every successful plan satisfies: snapped endpoints, the `step_num` of its vector,
   * nonzero, and the increments that divide the spans into `step_num` parts.
   */
  predicate Planned(plan: ClipPlan)
  {
    var v := plan.vector;
    plan.step != 0 && plan.stepNum != 0 && plan.stepNum == StepNum(v, plan.step) &&
    v.xFrom % plan.step == 0 && v.yFrom % plan.step == 0 && v.xTo % plan.step == 0 && v.yTo % plan.step == 0 &&
    plan.xStep == (v.xTo - v.xFrom) as real / plan.stepNum as real &&
    plan.yStep == (v.yTo - v.yFrom) as real / plan.stepNum as real
  }

  lemma PlanClipPlanned(lat: Lattice, s: StepArgs, p: Point, q: Point)
    requires PlanClip(lat, s, p, q).Ok?
    ensures Planned(PlanClip(lat, s, p, q).value)
  {
  }

  /** The vector runs forward: a positive step and from <= to on both axes. */
  predicate Forward(plan: ClipPlan)
  {
    plan.step > 0 && plan.vector.xFrom <= plan.vector.xTo && plan.vector.yFrom <= plan.vector.yTo
  }

  lemma MultipleDiff(a: int, c: int, b: int)
    requires b > 0 && a % b == 0 && c % b == 0
    ensures (a - c) % b == 0
  {
    var qa, ra := DivModOf(a, b);
    var qc, rc := DivModOf(c, b);
    assert a - c == (qa - qc) * b;
    ModOfMultiple(qa - qc, b);
  }

  /**
   * For a forward vector `step_num` is the longer span counted in steps, and it is positive:
   * a planned clip never has coinciding endpoints.
   */
  lemma ForwardStepNum(plan: ClipPlan)
    requires Planned(plan) && Forward(plan)
    ensures var v := plan.vector;
      plan.stepNum > 0 && plan.stepNum * plan.step == Max(v.xTo - v.xFrom, v.yTo - v.yFrom)
  {
    var v := plan.vector;
    MultipleDiff(v.xTo, v.xFrom, plan.step);
    MultipleDiff(v.yTo, v.yFrom, plan.step);
    var m := Max(v.xTo - v.xFrom, v.yTo - v.yFrom);
    var n, r := DivModOf(m, plan.step);
    assert r == 0;
    assert plan.stepNum == n;
    if n < 0 {
      MulLe(n, -1, plan.step);
    }
  }

  /** For a forward vector the increment along the longer axis is exactly `step`. */
  lemma LongerAxisIncrement(plan: ClipPlan)
    requires Planned(plan) && Forward(plan)
    ensures var v := plan.vector;
      (v.xTo - v.xFrom >= v.yTo - v.yFrom ==> plan.xStep == plan.step as real) &&
      (v.yTo - v.yFrom >= v.xTo - v.xFrom ==> plan.yStep == plan.step as real)
  {
    ForwardStepNum(plan);
    var v := plan.vector;
    var m := Max(v.xTo - v.xFrom, v.yTo - v.yFrom);
    ExactIncrement(plan.stepNum, plan.step, m);
  }

  /** For a forward vector a step along the cut is at least `step` long. */
  lemma ForwardStepLength(plan: ClipPlan)
    requires Planned(plan) && Forward(plan)
    ensures StepLengthSquared(plan) >= (plan.step * plan.step) as real
  {
    LongerAxisIncrement(plan);
    LongerAxisStepLength(plan);
  }

  /** A plan whose increment along its longer axis is `step` steps at least `step` along the cut. */
  lemma LongerAxisStepLength(plan: ClipPlan)
    requires var v := plan.vector;
      (v.xTo - v.xFrom >= v.yTo - v.yFrom ==> plan.xStep == plan.step as real) &&
      (v.yTo - v.yFrom >= v.xTo - v.xFrom ==> plan.yStep == plan.step as real)
    ensures StepLengthSquared(plan) >= (plan.step * plan.step) as real
  {
    var v := plan.vector;
    var l := StepLengthSquared(plan);
    CastMul(plan.step, plan.step);
    if v.xTo - v.xFrom >= v.yTo - v.yFrom {
      assert l >= plan.xStep * plan.xStep;
    } else {
      assert l >= plan.yStep * plan.yStep;
    }
  }

  /** A span of n steps divided into n increments gives increments of one step. */
  lemma ExactIncrement(n: int, step: int, m: int)
    requires n != 0 && m == n * step
    ensures m as real / n as real == step as real
  {
    assert m as real == (n as real) * (step as real);
    DivTimes(step as real, n as real);
  }

  lemma RealMulMono(c: real, a: real, b: real)
    requires c >= 0.0 && a <= b
    ensures c * a <= c * b
  {
    assert c * b - c * a == c * (b - a);
  }

  /** Along a forward axis the sample index grows with `i` and stays between the endpoints' indices. */
  lemma AxisSampleBounds(from: int, to: int, inc: real, step: int, n: int, i: int, i': int)
    requires step > 0 && from <= to && n > 0 && inc == (to - from) as real / n as real
    requires 0 <= i <= i' <= n
    ensures FloorDiv(from, step) <= AxisSample(from, inc, step, i) <= AxisSample(from, inc, step, i') <= FloorDiv(to, step)
  {
    var v, v' := IncrementsWithin(from, to, n, inc, i, i');
    SampleMonotone(from, inc, step, i, i');
    SampleAbove(from, inc, step, i);
    SampleBelow(from, inc, step, i', to);
  }

  lemma SampleMonotone(from: int, inc: real, step: int, i: int, i': int)
    requires step > 0 && Position(from, inc, i) <= Position(from, inc, i')
    ensures AxisSample(from, inc, step, i) <= AxisSample(from, inc, step, i')
  {
    SnapIndexMonotone(Position(from, inc, i), Position(from, inc, i'), step);
  }

  lemma SampleAbove(from: int, inc: real, step: int, i: int)
    requires step > 0 && from as real <= Position(from, inc, i)
    ensures FloorDiv(from, step) <= AxisSample(from, inc, step, i)
  {
    TruncOfInt(from);
    SnapIndexMonotone(from as real, Position(from, inc, i), step);
  }

  lemma SampleBelow(from: int, inc: real, step: int, i: int, to: int)
    requires step > 0 && Position(from, inc, i) <= to as real
    ensures AxisSample(from, inc, step, i) <= FloorDiv(to, step)
  {
    TruncOfInt(to);
    SnapIndexMonotone(Position(from, inc, i), to as real, step);
  }

  /** `from + inc * i` for `inc = (to - from) / n` moves from `from` to `to` as `i` goes from 0 to n. */
  lemma IncrementsWithin(from: int, to: int, n: int, inc: real, i: int, i': int) returns (v: real, v': real)
    requires from <= to && n > 0 && inc == (to - from) as real / n as real
    requires 0 <= i <= i' <= n
    ensures v == Position(from, inc, i) && v' == Position(from, inc, i')
    ensures from as real <= v <= v' <= to as real
  {
    assert inc >= 0.0;
    DivTimes((to - from) as real, n as real);
    RealMulMono(inc, 0.0, i as real);
    RealMulMono(inc, i as real, i' as real);
    RealMulMono(inc, i' as real, n as real);
    v, v' := Position(from, inc, i), Position(from, inc, i');
  }

  lemma SnapIndexMonotone(r: real, r': real, step: int)
    requires step > 0 && r <= r'
    ensures FloorDiv(Trunc(r), step) <= FloorDiv(Trunc(r'), step)
  {
    TruncMonotone(r, r');
    FloorDivMonotone(Trunc(r), Trunc(r'), step);
  }

  /** The first sample reads the from index and the n-th the to index, both divided by `step`. */
  lemma AxisSampleEnds(from: int, to: int, inc: real, step: int, n: int)
    requires step != 0
    ensures AxisSample(from, inc, step, 0) == FloorDiv(from, step)
    ensures n != 0 && inc == (to - from) as real / n as real ==> AxisSample(from, inc, step, n) == FloorDiv(to, step)
  {
    AxisSampleAt(from, inc, step, 0, from);
    if n != 0 && inc == (to - from) as real / n as real {
      DivTimes((to - from) as real, n as real);
      assert Position(from, inc, n) == to as real;
      AxisSampleAt(from, inc, step, n, to);
    }
  }

  lemma AxisSampleAt(from: int, inc: real, step: int, i: int, k: int)
    requires step != 0
    requires Position(from, inc, i) == k as real
    ensures AxisSample(from, inc, step, i) == FloorDiv(k, step)
  {
    TruncOfInt(k);
  }

  /**
   * Sample 0 reads the from point's column and sample `step_num` the to point's. The indices are
   * the absolute snapped indices divided by `step`, not offset by `i_from` or `j_from`.
   */
  lemma SampleEnds(plan: ClipPlan)
    requires Planned(plan)
    ensures SampleX(plan, 0) == FloorDiv(plan.vector.xFrom, plan.step)
    ensures SampleY(plan, 0) == FloorDiv(plan.vector.yFrom, plan.step)
    ensures SampleX(plan, plan.stepNum) == FloorDiv(plan.vector.xTo, plan.step)
    ensures SampleY(plan, plan.stepNum) == FloorDiv(plan.vector.yTo, plan.step)
  {
  }

  lemma XSamplesWithin(plan: ClipPlan, i: int, i': int)
    requires plan.step > 0 && plan.stepNum > 0 && plan.vector.xFrom <= plan.vector.xTo
    requires plan.xStep == (plan.vector.xTo - plan.vector.xFrom) as real / plan.stepNum as real
    requires 0 <= i <= i' <= plan.stepNum
    ensures FloorDiv(plan.vector.xFrom, plan.step) <= SampleX(plan, i) <= SampleX(plan, i') <= FloorDiv(plan.vector.xTo, plan.step)
  {
    AxisSampleBounds(plan.vector.xFrom, plan.vector.xTo, plan.xStep, plan.step, plan.stepNum, i, i');
  }

  lemma YSamplesWithin(plan: ClipPlan, i: int, i': int)
    requires plan.step > 0 && plan.stepNum > 0 && plan.vector.yFrom <= plan.vector.yTo
    requires plan.yStep == (plan.vector.yTo - plan.vector.yFrom) as real / plan.stepNum as real
    requires 0 <= i <= i' <= plan.stepNum
    ensures FloorDiv(plan.vector.yFrom, plan.step) <= SampleY(plan, i) <= SampleY(plan, i') <= FloorDiv(plan.vector.yTo, plan.step)
  {
    AxisSampleBounds(plan.vector.yFrom, plan.vector.yTo, plan.yStep, plan.step, plan.stepNum, i, i');
  }

  /**
   * With a forward vector the sampled indices never decrease and stay between the indices of
   * the two endpoints.
   */
  lemma SamplesFollowVector(plan: ClipPlan, i: int, i': int)
    requires Planned(plan) && Forward(plan)
    requires 0 <= i <= i' <= plan.stepNum
    ensures FloorDiv(plan.vector.xFrom, plan.step) <= SampleX(plan, i) <= SampleX(plan, i') <= FloorDiv(plan.vector.xTo, plan.step)
    ensures FloorDiv(plan.vector.yFrom, plan.step) <= SampleY(plan, i) <= SampleY(plan, i') <= FloorDiv(plan.vector.yTo, plan.step)
  {
    ForwardStepNum(plan);
    XSamplesWithin(plan, i, i');
    YSamplesWithin(plan, i, i');
  }

  /**
   * `e` is the z-total of the column read by sample `i`: the column at
   * `int(y_from + y_step * i) // step`, `int(x_from + x_step * i) // step`, wrapped as numpy does.
   */
  predicate IsColumnTotal(f: Field, plan: ClipPlan, i: int, e: real)
    requires plan.step != 0
  {
    var y, x := NpIndex(SampleY(plan, i), f.ny), NpIndex(SampleX(plan, i), f.nx);
    y.Some? && x.Some? && e == Sum(Column(f, y.value, x.value))
  }

  /**
   * A successful clip: entry `i` of the profile is the sum over all z-layers of the column
   * under sample `i`, and there are `max(0, step_num + 1)` entries.
   */
  lemma ClipProfileEntries(g: Grid, p: Point, q: Point)
    requires ClipSpec(g, p, q).Ok?
    ensures ReshapeSize(g.steps).Ok? && Reshape(g.values, ReshapeSize(g.steps).value).Ok?
    ensures PlanClip(g.lattice, g.steps, p, q).Ok?
    ensures var f := Reshape(g.values, ReshapeSize(g.steps).value).value;
      var plan := PlanClip(g.lattice, g.steps, p, q).value;
      var profile := ClipSpec(g, p, q).value.profile;
      |profile| == RangeLen(plan.stepNum + 1) &&
      forall i :: 0 <= i < |profile| ==> IsColumnTotal(f, plan, i, profile[i])
  {
    var f := Reshape(g.values, ReshapeSize(g.steps).value).value;
    var plan := PlanClip(g.lattice, g.steps, p, q).value;
    var profile := ClipSpec(g, p, q).value.profile;
    forall i | 0 <= i < |profile|
      ensures IsColumnTotal(f, plan, i, profile[i])
    {
      assert ColumnAt(f, plan, i) == Some(profile[i]);
    }
  }

  /** For a forward vector the profile has exactly `clip_step_num = step_num + 1` entries, at least two. */
  lemma ForwardProfileLength(g: Grid, p: Point, q: Point)
    requires ClipSpec(g, p, q).Ok?
    requires Forward(PlanClip(g.lattice, g.steps, p, q).value)
    ensures |ClipSpec(g, p, q).value.profile| == ClipSpec(g, p, q).value.stepCount >= 2
  {
    PlanClipPlanned(g.lattice, g.steps, p, q);
    ForwardStepNum(PlanClip(g.lattice, g.steps, p, q).value);
  }

  /**
   * Equal from and to points never give a profile: once the point is inside the grid,
   * `step_num` is 0 and computing the increments divides by zero.
   */
  lemma EqualPointsDivideByZero(lat: Lattice, s: StepArgs, p: Point)
    requires NonZero(lat, s)
    ensures var v := Endpoints(lat, s, p, p);
      InGrid(v.xFrom, v.yFrom, s) ==> PlanClip(lat, s, p, p) == Err(ZeroDivision)
    ensures PlanClip(lat, s, p, p).Err?
  {
    FloorDivOfMultiple(0, s.step);
  }
}
