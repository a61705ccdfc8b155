/**
 * The density field both engines build from a loaded grid: `numpy.reshape` of the flat values
 * into an array indexed `[z, y, x]`, numpy's indexing rule, and the sums the engines take.
 */
module DensityField {
  import opened Results
  import opened PyArith
  import opened ReadGrd

  /** The `reshape_size` triple, in axis order (z, y, x). */
  datatype Shape = Shape(nz: int, ny: int, nx: int)

  /** A three-axis array of shape (nz, ny, nx) stored row-major, as numpy stores it. */
  datatype Array3 = Array3(nz: nat, ny: nat, nx: nat, cells: seq<real>)

  type Field = f: Array3 | |f.cells| == f.nz * f.ny * f.nx witness Array3(0, 0, 0, [])

  /** Samples along one axis, `(to - from) // step + 1`. */
  function AxisCount(from: int, to: int, step: int): (n: int)
    requires step != 0
    ensures step > 0 ==> (n - 1) * step <= to - from < n * step
    ensures step < 0 ==> n * step < to - from <= (n - 1) * step
  {
    FloorDiv(to - from, step) + 1
  }

  /**
   * `reshape_size` of both engines, in axis order (z, y, x); the floor divisions raise on a zero
   * step. When the step divides every span, the shape holds exactly the value count the loader's
   * length check demanded.
   */
  function ReshapeSize(s: StepArgs): (r: Result<Shape>)
    ensures r.Err? <==> s.step == 0
    ensures r.Err? ==> r.error == ZeroDivision
    ensures r.Ok? ==> r.value == Shape(AxisCount(s.kFrom, s.kTo, s.step),
                                       AxisCount(s.jFrom, s.jTo, s.step),
                                       AxisCount(s.iFrom, s.iTo, s.step))
    ensures r.Ok? && (s.iTo - s.iFrom) % s.step == 0 && (s.jTo - s.jFrom) % s.step == 0 && (s.kTo - s.kFrom) % s.step == 0 ==>
      (r.value.nz * r.value.ny * r.value.nx) as real == GrdLength(s)
  {
    if s.step == 0 then Err(ZeroDivision)
    else
      ShapeMatchesLengthCheck(s);
      Ok(Shape(AxisCount(s.kFrom, s.kTo, s.step), AxisCount(s.jFrom, s.jTo, s.step), AxisCount(s.iFrom, s.iTo, s.step)))
  }

  /** A divisible span's floor quotient is its exact quotient. */
  lemma AxisCountExact(from: int, to: int, step: int)
    requires step != 0 && (to - from) % step == 0
    ensures AxisCount(from, to, step) == (to - from) / step + 1
  {
    DivExact(to - from, step);
    FloorDivOfMultiple((to - from) / step, step);
  }

  lemma ShapeMatchesLengthCheck(s: StepArgs)
    requires s.step != 0
    ensures (s.iTo - s.iFrom) % s.step == 0 && (s.jTo - s.jFrom) % s.step == 0 && (s.kTo - s.kFrom) % s.step == 0 ==>
      (AxisCount(s.kFrom, s.kTo, s.step) * AxisCount(s.jFrom, s.jTo, s.step) * AxisCount(s.iFrom, s.iTo, s.step)) as real ==
      GrdLength(s)
  {
    if (s.iTo - s.iFrom) % s.step == 0 && (s.jTo - s.jFrom) % s.step == 0 && (s.kTo - s.kFrom) % s.step == 0 {
      AxisCountExact(s.iFrom, s.iTo, s.step);
      AxisCountExact(s.jFrom, s.jTo, s.step);
      AxisCountExact(s.kFrom, s.kTo, s.step);
      var x, y, z := AxisCount(s.iFrom, s.iTo, s.step), AxisCount(s.jFrom, s.jTo, s.step), AxisCount(s.kFrom, s.kTo, s.step);
      assert z * y * x == x * y * z;
    }
  }

  /** How many sizes of the shape are negative, which numpy reads as "unknown, to be inferred". */
  function UnknownCount(shape: Shape): nat
  {
    (if shape.nz < 0 then 1 else 0) + (if shape.ny < 0 then 1 else 0) + (if shape.nx < 0 then 1 else 0)
  }

  function Known(d: int): nat
  {
    if d < 0 then 1 else d
  }

  /** The product of the sizes that are given, the unknown one left out. */
  function KnownSize(shape: Shape): nat
  {
    Known(shape.nz) * Known(shape.ny) * Known(shape.nx)
  }

  /** A size of the shape after inference: a negative one becomes `inferred`. */
  function Resolve(d: int, inferred: nat): nat
  {
    if d < 0 then inferred else d
  }

  /**
   * `numpy.reshape(values, shape)`. With no unknown size it succeeds exactly when the product of
   * the sizes is the number of values. With one unknown size it succeeds exactly when the other
   * sizes have a nonzero product that divides the number of values, and the unknown size becomes
   * the quotient. Two or more unknown sizes always fail. The cells are the values in their order.
   */
  function Reshape(values: seq<real>, shape: Shape): (r: Result<Field>)
    ensures UnknownCount(shape) == 0 ==> (r.Ok? <==> shape.nz * shape.ny * shape.nx == |values|)
    ensures UnknownCount(shape) == 1 ==>
      (r.Ok? <==> KnownSize(shape) != 0 && |values| % KnownSize(shape) == 0)
    ensures UnknownCount(shape) > 1 ==> r.Err?
    ensures r.Ok? ==> r.value.cells == values
    ensures r.Ok? ==> var m := if UnknownCount(shape) == 0 then 0 else |values| / KnownSize(shape);
      r.value.nz == Resolve(shape.nz, m) && r.value.ny == Resolve(shape.ny, m) && r.value.nx == Resolve(shape.nx, m)
    ensures r.Err? ==> r.error == ReshapeMismatch
  {
    var known := KnownSize(shape);
    if UnknownCount(shape) > 1 then Err(ReshapeMismatch)
    else if UnknownCount(shape) == 0 then
      if shape.nz * shape.ny * shape.nx == |values| then Ok(Array3(shape.nz, shape.ny, shape.nx, values))
      else Err(ReshapeMismatch)
    else if known == 0 || |values| % known != 0 then Err(ReshapeMismatch)
    else
      var m := |values| / known;
      InferredSize(shape, |values|, m);
      Ok(Array3(Resolve(shape.nz, m), Resolve(shape.ny, m), Resolve(shape.nx, m), values))
  }

  /** With one unknown size, filling it with the quotient restores the number of values. */
  lemma InferredSize(shape: Shape, n: nat, m: nat)
    requires UnknownCount(shape) == 1 && KnownSize(shape) != 0 && n % KnownSize(shape) == 0
    requires m == n / KnownSize(shape)
    ensures Resolve(shape.nz, m) * Resolve(shape.ny, m) * Resolve(shape.nx, m) == n
  {
    var k := KnownSize(shape);
    assert n == m * k;
    if shape.nz < 0 {
      assert k == shape.ny * shape.nx;
    } else if shape.ny < 0 {
      assert k == shape.nz * shape.nx;
      assert m * k == shape.nz * m * shape.nx;
    } else {
      assert k == shape.nz * shape.ny;
    }
  }

  // ---------------------------------------------------------------- row-major indexing

  /** The position of `[z, y, x]` in the flat values. */
  function FlatIndex(ny: nat, nx: nat, z: nat, y: nat, x: nat): nat
  {
    (z * ny + y) * nx + x
  }

  lemma MulLe(a: int, b: int, c: int)
    requires a <= b && c >= 0
    ensures a * c <= b * c
  {
  }

  lemma FlatIndexInRange(nz: nat, ny: nat, nx: nat, z: nat, y: nat, x: nat)
    requires z < nz && y < ny && x < nx
    ensures FlatIndex(ny, nx, z, y, x) < nz * ny * nx
  {
    MulLe(z * ny + y + 1, (z + 1) * ny, nx);
    MulLe(z + 1, nz, ny);
    MulLe((z + 1) * ny, nz * ny, nx);
  }

  /** `array[z, y, x]`. */
  function Cell(f: Field, z: nat, y: nat, x: nat): real
    requires z < f.nz && y < f.ny && x < f.nx
  {
    FlatIndexInRange(f.nz, f.ny, f.nx, z, y, x);
    f.cells[FlatIndex(f.ny, f.nx, z, y, x)]
  }

  /** Splitting a flat position back into `[z, y, x]`. */
  function Coords(ny: nat, nx: nat, k: nat): (zyx: (nat, nat, nat))
    requires ny > 0 && nx > 0
  {
    (k / (ny * nx), (k / nx) % ny, k % nx)
  }

  lemma DivMulAdd(q: int, n: int, r: int)
    requires n > 0 && 0 <= r < n
    ensures (q * n + r) / n == q && (q * n + r) % n == r
  {
    FloorDivUnique(q * n + r, n, q);
  }

  lemma Regroup(z: int, ny: int, nx: int, y: int, x: int)
    ensures (z * ny + y) * nx + x == z * (ny * nx) + (y * nx + x)
  {
  }

  lemma InnerBound(ny: nat, nx: nat, y: nat, x: nat)
    requires y < ny && x < nx
    ensures y * nx + x < ny * nx
  {
    MulLe(y + 1, ny, nx);
  }

  /** `Coords` undoes the flat index. */
  lemma CoordsOfFlatIndex(ny: nat, nx: nat, z: nat, y: nat, x: nat)
    requires y < ny && x < nx
    ensures Coords(ny, nx, FlatIndex(ny, nx, z, y, x)) == (z, y, x)
  {
    DivMulAdd(z * ny + y, nx, x);
    DivMulAdd(z, ny, y);
    Regroup(z, ny, nx, y, x);
    InnerBound(ny, nx, y, x);
    DivMulAdd(z, ny * nx, y * nx + x);
  }

  /** Every position below nz * ny * nx is the flat index of a cell, the one `Coords` names. */
  lemma FlatIndexOfCoords(nz: nat, ny: nat, nx: nat, k: nat)
    requires k < nz * ny * nx
    ensures ny > 0 && nx > 0
    ensures var c := Coords(ny, nx, k);
      c.0 < nz && c.1 < ny && c.2 < nx && FlatIndex(ny, nx, c.0, c.1, c.2) == k
  {
    NonEmptyAxes(nz, ny, nx);
    var q, x := DivModOf(k, nx);
    var z, y := DivModOf(q, ny);
    assert k == FlatIndex(ny, nx, z, y, x);
    CoordsOfFlatIndex(ny, nx, z, y, x);
    Regroup(z, ny, nx, y, x);
    LtOfMulLt(z, nz, ny * nx);
  }

  lemma NonEmptyAxes(nz: nat, ny: nat, nx: nat)
    requires nz * ny * nx > 0
    ensures nz > 0 && ny > 0 && nx > 0
  {
    ZeroProduct(nz, ny, nx);
  }

  lemma ZeroProduct(a: nat, b: nat, c: nat)
    ensures a == 0 || b == 0 || c == 0 ==> a * b * c == 0
  {
  }

  /** Quotient and remainder of a natural number by a positive one. */
  /** After a successful reshape, `array[z, y, x]` is `values[(z * ny + y) * nx + x]`. */
  lemma ReshapeCell(values: seq<real>, shape: Shape, z: nat, y: nat, x: nat)
    requires Reshape(values, shape).Ok?
    requires var f := Reshape(values, shape).value; z < f.nz && y < f.ny && x < f.nx
    ensures var f := Reshape(values, shape).value;
      FlatIndex(f.ny, f.nx, z, y, x) < |values| && Cell(f, z, y, x) == values[FlatIndex(f.ny, f.nx, z, y, x)]
  {
    var f := Reshape(values, shape).value;
    FlatIndexInRange(f.nz, f.ny, f.nx, z, y, x);
  }

  /**
   * A grid whose step is positive and divides every span, and whose value count passed the
   * length check, always reshapes.
   */
  lemma LoadedGridReshapes(s: StepArgs, values: seq<real>)
    requires s.step > 0
    requires s.iFrom <= s.iTo && s.jFrom <= s.jTo && s.kFrom <= s.kTo
    requires (s.iTo - s.iFrom) % s.step == 0 && (s.jTo - s.jFrom) % s.step == 0 && (s.kTo - s.kFrom) % s.step == 0
    requires |values| as real == GrdLength(s)
    ensures ReshapeSize(s).Ok? && Reshape(values, ReshapeSize(s).value).Ok?
  {
    assert GrdLength(s) == (((s.iTo - s.iFrom) / s.step + 1) * ((s.jTo - s.jFrom) / s.step + 1) * ((s.kTo - s.kFrom) / s.step + 1)) as real;
    var shape := ReshapeSize(s).value;
    assert shape.nz * shape.ny * shape.nx ==
      ((s.kTo - s.kFrom) / s.step + 1) * ((s.jTo - s.jFrom) / s.step + 1) * ((s.iTo - s.iFrom) / s.step + 1);
  }

  /**
   * On a grid the loader accepts, numpy never infers a size: a negative sample count makes its
   * length-check factor negative, so the value count could not match unless another factor were
   * zero, and then the reshape fails anyway.
   */
  lemma LoadedGridNeverInfers(s: StepArgs, values: seq<real>)
    requires s.step != 0 && |values| as real == GrdLength(s)
    ensures var shape := ReshapeSize(s).value;
      Reshape(values, shape).Ok? ==> UnknownCount(shape) == 0
  {
    var shape := ReshapeSize(s).value;
    ZeroProduct(Known(shape.nz), Known(shape.ny), Known(shape.nx));
    FactorSign(s.kFrom, s.kTo, s.step);
    FactorSign(s.jFrom, s.jTo, s.step);
    FactorSign(s.iFrom, s.iTo, s.step);
    OneNegativeProduct(AxisFactor(s.iFrom, s.iTo, s.step), AxisFactor(s.jFrom, s.jTo, s.step),
                       AxisFactor(s.kFrom, s.kTo, s.step));
  }

  /** An axis's length-check factor is negative when its sample count is, and at least 1 when the count is positive. */
  lemma FactorSign(from: int, to: int, step: int)
    requires step != 0
    ensures AxisCount(from, to, step) < 0 ==> AxisFactor(from, to, step) < 0.0
    ensures AxisCount(from, to, step) > 0 ==> AxisFactor(from, to, step) >= 1.0
  {
    FloorDivIsFloor(to - from, step);
  }

  /** A product of three reals with exactly one negative factor and two positive ones is negative. */
  lemma OneNegativeProduct(a: real, b: real, c: real)
    ensures (a < 0.0 && b > 0.0 && c > 0.0) || (a > 0.0 && b < 0.0 && c > 0.0) || (a > 0.0 && b > 0.0 && c < 0.0) ==>
      a * b * c < 0.0
  {
    if a < 0.0 && b > 0.0 && c > 0.0 {
      assert a * b < 0.0;
    } else if a > 0.0 && b < 0.0 && c > 0.0 {
      assert a * b < 0.0;
    } else if a > 0.0 && b > 0.0 && c < 0.0 {
      assert a * b > 0.0;
    }
  }

  /**
   * The length check divides truly and numpy does not: with step 2 and x bounds 0..3 the
   * check asks for 2.5 * 2 * 1 = 5 values, while the reshape size is (1, 2, 2).
   */
  lemma LengthCheckAdmitsUnreshapable(values: seq<real>)
    requires |values| == 5
    ensures var s := StepArgs(2, 0, 3, 0, 2, 0, 0);
      |values| as real == GrdLength(s) &&
      ReshapeSize(s) == Ok(Shape(1, 2, 2)) &&
      Reshape(values, Shape(1, 2, 2)) == Err(ReshapeMismatch)
  {
    var s := StepArgs(2, 0, 3, 0, 2, 0, 0);
    assert AxisFactor(0, 3, 2) == 2.5;
    assert AxisFactor(0, 2, 2) == 2.0;
    assert AxisFactor(0, 0, 2) == 1.0;
    assert FloorDiv(3, 2) == 1 && FloorDiv(2, 2) == 1 && FloorDiv(0, 2) == 0;
  }

  /**
   * numpy's rule for one integer index into an axis of `n` entries: indices in [0, n) select
   * themselves, indices in [-n, 0) count from the end, anything else raises IndexError (None).
   */
  function NpIndex(i: int, n: nat): (r: Option<nat>)
    ensures r.Some? <==> -(n as int) <= i < n
    ensures r.Some? ==> r.value < n && r.value % n == i % n
  {
    if 0 <= i < n then Some(i)
    else if -(n as int) <= i < 0 then (ModShift(i, n); Some(i + n))
    else None
  }

  lemma ModShift(i: int, n: int)
    requires n > 0
    ensures (i + n) % n == i % n
  {
    var q, r := i / n, i % n;
    assert i + n == (q + 1) * n + r;
    DivMulAdd(q + 1, n, r);
  }

  // ---------------------------------------------------------------- sums

  /** Python's `sum` of reals, added left to right. */
  function Sum(s: seq<real>): real
    decreases |s|
  {
    if s == [] then 0.0 else Sum(s[..|s| - 1]) + s[|s| - 1]
  }

  lemma {:induction false} SumConcat(a: seq<real>, b: seq<real>)
    ensures Sum(a + b) == Sum(a) + Sum(b)
    decreases |b|
  {
    if b == [] {
      assert a + b == a;
    } else {
      var b' := b[..|b| - 1];
      assert (a + b)[..|a + b| - 1] == a + b';
      SumConcat(a, b');
    }
  }

  /** The sum of two equally long sequences added entry by entry is the sum of their sums. */
  lemma {:induction false} SumPointwise(a: seq<real>, b: seq<real>, c: seq<real>)
    requires |a| == |b| == |c|
    requires forall i :: 0 <= i < |c| ==> c[i] == a[i] + b[i]
    ensures Sum(c) == Sum(a) + Sum(b)
    decreases |c|
  {
    if c != [] {
      var n := |c| - 1;
      SumPointwise(a[..n], b[..n], c[..n]);
    }
  }

  /**
   * The column `array[:, y, x]`: one value per z-layer, the layer-z value being the loaded value
   * at the row-major position of `[z, y, x]`.
   */
  function Column(f: Field, y: nat, x: nat): (c: seq<real>)
    requires y < f.ny && x < f.nx
    ensures |c| == f.nz
    ensures forall z :: 0 <= z < f.nz ==>
      FlatIndex(f.ny, f.nx, z, y, x) < |f.cells| && c[z] == f.cells[FlatIndex(f.ny, f.nx, z, y, x)]
  {
    ColumnIndices(f, y, x);
    seq(f.nz, z requires 0 <= z < f.nz => Cell(f, z, y, x))
  }

  lemma ColumnIndices(f: Field, y: nat, x: nat)
    requires y < f.ny && x < f.nx
    ensures forall z :: 0 <= z < f.nz ==> FlatIndex(f.ny, f.nx, z, y, x) < |f.cells|
  {
    forall z | 0 <= z < f.nz
      ensures FlatIndex(f.ny, f.nx, z, y, x) < |f.cells|
    {
      FlatIndexInRange(f.nz, f.ny, f.nx, z, y, x);
    }
  }

  /** `sum(array[:, y, x])`: the column added over all z-layers. */
  function ColumnSum(f: Field, y: nat, x: nat): real
    requires y < f.ny && x < f.nx
  {
    Sum(Column(f, y, x))
  }

  /** The first `r` entries of column x of layer z, `array[z, :r, x]`. */
  function LayerColumn(f: Field, z: nat, x: nat, r: nat): (c: seq<real>)
    requires z < f.nz && x < f.nx && r <= f.ny
    ensures |c| == r && forall y :: 0 <= y < r ==> c[y] == Cell(f, z, y, x)
  {
    seq(r, y requires 0 <= y < r => Cell(f, z, y, x))
  }

  /** `sum(array[z, :r, :])`: Python's `sum` over the rows of a layer, one total per x. */
  function LayerColumnSums(f: Field, z: nat, r: nat): (c: seq<real>)
    requires z < f.nz && r <= f.ny
    ensures |c| == f.nx && forall x :: 0 <= x < f.nx ==> c[x] == Sum(LayerColumn(f, z, x, r))
  {
    seq(f.nx, x requires 0 <= x < f.nx => Sum(LayerColumn(f, z, x, r)))
  }

  /**
   * `sum(sum(array[z, :, :]))`: the column totals of layer z, added up. It is the total of every
   * value of the layer.
   */
  function PlaneSum(f: Field, z: nat): (t: real)
    requires z < f.nz
    ensures t == Sum(Layer(f, z))
  {
    LayerPrefixTotal(f, z, f.ny);
    Sum(LayerColumnSums(f, z, f.ny))
  }

  /** Where row y of layer z starts in the flat values; y == ny is where the layer ends. */
  function RowStart(f: Field, z: nat, y: nat): (s: nat)
    requires z < f.nz && y <= f.ny
    ensures (z * f.ny) * f.nx <= s <= (z * f.ny + f.ny) * f.nx <= |f.cells|
  {
    MulLe(z * f.ny, z * f.ny + y, f.nx);
    MulLe(z * f.ny + y, z * f.ny + f.ny, f.nx);
    MulLe(z + 1, f.nz, f.ny);
    MulLe(z * f.ny + f.ny, f.nz * f.ny, f.nx);
    (z * f.ny + y) * f.nx
  }

  lemma RowStartNext(f: Field, z: nat, y: nat)
    requires z < f.nz && y < f.ny
    ensures RowStart(f, z, y + 1) == RowStart(f, z, y) + f.nx
  {
  }

  /**
   * Layer z of the flat values, `array[z, :, :]` flattened: the `ny * nx` consecutive values
   * starting at position `z * ny * nx`.
   */
  function Layer(f: Field, z: nat): (l: seq<real>)
    requires z < f.nz
    ensures |l| == f.ny * f.nx
    ensures forall k :: 0 <= k < |l| ==> (z * f.ny) * f.nx + k < |f.cells| && l[k] == f.cells[(z * f.ny) * f.nx + k]
  {
    f.cells[RowStart(f, z, 0) .. RowStart(f, z, f.ny)]
  }

  /** Row y of layer z, `array[z, y, :]`. */
  function Row(f: Field, z: nat, y: nat): (row: seq<real>)
    requires z < f.nz && y < f.ny
    ensures |row| == f.nx && forall x :: 0 <= x < f.nx ==> row[x] == Cell(f, z, y, x)
  {
    seq(f.nx, x requires 0 <= x < f.nx => Cell(f, z, y, x))
  }

  lemma RowIsSlice(f: Field, z: nat, y: nat)
    requires z < f.nz && y < f.ny
    ensures RowStart(f, z, y) + f.nx <= |f.cells|
    ensures Row(f, z, y) == f.cells[RowStart(f, z, y) .. RowStart(f, z, y) + f.nx]
  {
    RowStartNext(f, z, y);
  }

  lemma ColumnSumsStep(f: Field, z: nat, y: nat)
    requires z < f.nz && y < f.ny
    ensures forall x :: 0 <= x < f.nx ==>
      LayerColumnSums(f, z, y + 1)[x] == LayerColumnSums(f, z, y)[x] + Row(f, z, y)[x]
  {
    forall x | 0 <= x < f.nx
      ensures LayerColumnSums(f, z, y + 1)[x] == LayerColumnSums(f, z, y)[x] + Row(f, z, y)[x]
    {
      assert LayerColumn(f, z, x, y + 1)[..y] == LayerColumn(f, z, x, y);
    }
  }

  /** Adding up the column totals of the first r rows gives the total of those rows' cells. */
  lemma {:induction false} LayerPrefixTotal(f: Field, z: nat, r: nat)
    requires z < f.nz && r <= f.ny
    ensures Sum(LayerColumnSums(f, z, r)) == Sum(f.cells[RowStart(f, z, 0) .. RowStart(f, z, r)])
    decreases r
  {
    if r == 0 {
      SumZeros(LayerColumnSums(f, z, 0));
    } else {
      var y := r - 1;
      var s0, s1, s2 := RowStart(f, z, 0), RowStart(f, z, y), RowStart(f, z, r);
      LayerPrefixTotal(f, z, y);
      ColumnSumsStep(f, z, y);
      SumPointwise(LayerColumnSums(f, z, y), Row(f, z, y), LayerColumnSums(f, z, r));
      RowIsSlice(f, z, y);
      RowStartNext(f, z, y);
      assert f.cells[s1 .. s2] == Row(f, z, y);
      SliceConcat(f.cells, s0, s1, s2);
      SumConcat(f.cells[s0 .. s1], f.cells[s1 .. s2]);
    }
  }

  lemma SliceConcat(s: seq<real>, i: nat, j: nat, k: nat)
    requires i <= j <= k <= |s|
    ensures s[i .. k] == s[i .. j] + s[j .. k]
  {
  }

  lemma {:induction false} SumZeros(s: seq<real>)
    requires forall i :: 0 <= i < |s| ==> s[i] == 0.0
    ensures Sum(s) == 0.0
    decreases |s|
  {
    if s != [] {
      SumZeros(s[..|s| - 1]);
    }
  }

}
