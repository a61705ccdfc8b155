/** Python's integer and real arithmetic as the core uses it: `//`, `int()`, `range()` and snapping. */
module PyArith {

  /** Python's `a // b` on integers: the quotient rounded towards negative infinity. */
  function FloorDiv(a: int, b: int): (q: int)
    requires b != 0
    ensures b > 0 ==> q * b <= a < q * b + b
    ensures b < 0 ==> q * b + b < a <= q * b
  {
    if b > 0 then a / b else (-a) / (-b)
  }

  /** `FloorDiv` is the floor of the true (real) quotient. */
  lemma FloorDivIsFloor(a: int, b: int)
    requires b != 0
    ensures FloorDiv(a, b) == ((a as real) / (b as real)).Floor
  {
    if b > 0 {
      FloorDivIsFloorPos(a, b);
    } else {
      FloorDivIsFloorPos(-a, -b);
      RealDivNeg(a as real, b as real);
    }
  }

  lemma FloorDivIsFloorPos(a: int, b: int)
    requires b > 0
    ensures FloorDiv(a, b) == ((a as real) / (b as real)).Floor
  {
    var q := FloorDiv(a, b);
    CastMul(q, b);
    CastMul(q + 1, b);
    RealLeDiv(q as real, a as real, b as real);
    RealDivLt((q + 1) as real, a as real, b as real);
    FloorOfBracket((a as real) / (b as real), q);
  }

  lemma CastMul(x: int, y: int)
    ensures (x as real) * (y as real) == (x * y) as real
  {
  }

  lemma FloorOfBracket(x: real, q: int)
    requires q as real <= x < (q + 1) as real
    ensures x.Floor == q
  {
  }

  lemma RealDivNeg(x: real, y: real)
    requires y != 0.0
    ensures x / y == (-x) / (-y)
  {
  }

  /** Adding `i` whole steps to the dividend adds exactly `i` to the floor quotient. */
  lemma FloorDivAddMultiple(a: int, b: int, i: int)
    requires b != 0
    ensures FloorDiv(a + b * i, b) == FloorDiv(a, b) + i
  {
    var q := FloorDiv(a, b);
    if b > 0 {
      assert (q + i) * b == q * b + b * i;
    } else {
      assert (q + i) * b == q * b + b * i;
    }
    FloorDivUnique(a + b * i, b, q + i);
  }

  /** The floor quotient is the only integer that satisfies its bounds. */
  lemma FloorDivUnique(a: int, b: int, q: int)
    requires b != 0
    requires b > 0 ==> q * b <= a < q * b + b
    requires b < 0 ==> q * b + b < a <= q * b
    ensures FloorDiv(a, b) == q
    decreases if b > 0 then 0 else 1
  {
    if b > 0 {
      var q' := FloorDiv(a, b);
      assert q' * b < (q + 1) * b;
      LtOfMulLt(q', q + 1, b);
      assert q * b < (q' + 1) * b;
      LtOfMulLt(q, q' + 1, b);
    } else {
      assert q * (-b) <= -a < q * (-b) + (-b);
      FloorDivUnique(-a, -b, q);
    }
  }

  lemma LtOfMulLt(x: int, y: int, b: int)
    requires b > 0 && x * b < y * b
    ensures x < y
  {
    assert (y - x) * b == y * b - x * b;
  }

  lemma RealLeDiv(x: real, y: real, s: real)
    requires s > 0.0 && x * s <= y
    ensures x <= y / s
  {
    assert (y / s) * s == y;
  }

  lemma RealDivLt(x: real, y: real, s: real)
    requires s > 0.0 && y < x * s
    ensures y / s < x
  {
    assert (y / s) * s == y;
  }

  lemma RealMulLe(x: real, y: real, s: real)
    requires s > 0.0 && x <= y / s
    ensures x * s <= y
  {
    assert (y / s) * s == y;
  }

  lemma RealLtMul(x: real, y: real, s: real)
    requires s > 0.0 && y / s < x
    ensures y < x * s
  {
    assert (y / s) * s == y;
  }

  /** Dafny's own `/` and `%` by a positive divisor: quotient and remainder, with `0 <= r < n`. */
  lemma DivModOf(k: int, n: int) returns (q: int, r: int)
    requires n > 0
    ensures q == k / n && r == k % n && k == q * n + r && 0 <= r < n
    ensures k >= 0 ==> q >= 0
  {
    q, r := k / n, k % n;
  }

  /** Dividing an exact multiple gives the multiplier back. */
  lemma FloorDivOfMultiple(k: int, b: int)
    requires b != 0
    ensures FloorDiv(k * b, b) == k
  {
    if b > 0 { FloorDivUnique(k * b, b, k); } else { FloorDivUnique(k * b, b, k); }
  }

  /** `FloorDiv` by a positive divisor never decreases when the dividend grows. */
  lemma FloorDivMonotone(a: int, a': int, b: int)
    requires b > 0 && a <= a'
    ensures FloorDiv(a, b) <= FloorDiv(a', b)
  {
    var q, q' := FloorDiv(a, b), FloorDiv(a', b);
    assert q * b < (q' + 1) * b;
    LtOfMulLt(q, q' + 1, b);
  }

  /** Python's `int(r)` on a real: the integer part, rounded towards zero. */
  function Trunc(r: real): (t: int)
    ensures r >= 0.0 ==> t as real <= r < t as real + 1.0
    ensures r < 0.0 ==> t as real - 1.0 < r <= t as real
  {
    if r >= 0.0 then r.Floor else -((-r).Floor)
  }

  /** `int()` is the identity on integral values and never decreases. */
  lemma TruncOfInt(n: int)
    ensures Trunc(n as real) == n
  {
  }

  lemma TruncMonotone(r: real, r': real)
    requires r <= r'
    ensures Trunc(r) <= Trunc(r')
  {
    if r >= 0.0 {
      assert r.Floor <= r'.Floor;
    } else if r' < 0.0 {
      assert (-r').Floor <= (-r).Floor;
    }
  }

  /** The larger of two integers, as Python's `max(a, b)`. */
  function Max(a: int, b: int): (m: int)
    ensures m >= a && m >= b && (m == a || m == b)
  {
    if a >= b then a else b
  }

  /** `k in range(n)`. */
  predicate InRange(k: int, n: int)
  {
    0 <= k < n
  }

  /**
   * The number of iterations of `for i in range(n)`: `range(len)` and `range(n)` hold the same
   * values, so the loop runs `len` times.
   */
  function RangeLen(n: int): (len: nat)
    ensures forall k: int :: InRange(k, len) <==> InRange(k, n)
  {
    if n > 0 then n else 0
  }

  /**
   * `m` is where snapping puts `v`: a multiple of `step` with `v` in the step-wide interval
   * starting at `m` (ending at `m` for a negative step).
   */
  predicate SnapBracket(m: int, v: real, step: int)
  {
    step != 0 && m % step == 0 &&
    (step > 0 ==> m as real <= v < (m + step) as real) &&
    (step < 0 ==> (m + step) as real < v <= m as real)
  }

  /**
   * `int(v // step * step)` for a real `v`: `v` snapped to the multiple of `step`
   * that `v // step` selects, that is, the floor of `v / step` times `step`.
   */
  function Snap(v: real, step: int): (m: int)
    requires step != 0
    ensures m % step == 0
    ensures step > 0 ==> m as real <= v < (m + step) as real
    ensures step < 0 ==> (m + step) as real < v <= m as real
  {
    var k := (v / (step as real)).Floor;
    SnapBounds(v, step, k);
    k * step
  }

  lemma SnapBounds(v: real, step: int, k: int)
    requires step != 0
    requires k == (v / (step as real)).Floor
    ensures (k * step) % step == 0
    ensures step > 0 ==> (k * step) as real <= v < (k * step + step) as real
    ensures step < 0 ==> (k * step + step) as real < v <= (k * step) as real
  {
    ModOfMultiple(k, step);
    if step > 0 {
      FloorBoundsScaled(v, step as real, k);
      assert (k * step) as real == (k as real) * (step as real);
      assert (k * step + step) as real == ((k + 1) as real) * (step as real);
    } else {
      var s := (-step) as real;
      assert v / (step as real) == (-v) / s;
      FloorBoundsScaled(-v, s, k);
      assert (k * (-step)) as real == (k as real) * s;
      assert (k * (-step) + (-step)) as real == ((k + 1) as real) * s;
    }
  }

  /** An exact multiple of `b` leaves no remainder. */
  lemma ModOfMultiple(k: int, b: int)
    requires b != 0
    ensures (k * b) % b == 0
  {
    var q := (k * b) / b;
    var r := (k * b) % b;
    assert k * b == q * b + r;
    assert r == (k - q) * b;
    if b > 0 {
      assert (-1) * b < (k - q) * b < 1 * b;
      LtOfMulLt(-1, k - q, b);
      LtOfMulLt(k - q, 1, b);
    } else {
      assert (-1) * (-b) < (q - k) * (-b) < 1 * (-b);
      LtOfMulLt(-1, q - k, -b);
      LtOfMulLt(q - k, 1, -b);
    }
  }

  /** The floor `k` of `v / s` for a positive `s` brackets `v` between `k * s` and `(k + 1) * s`. */
  lemma FloorBoundsScaled(v: real, s: real, k: int)
    requires s > 0.0
    requires k == (v / s).Floor
    ensures (k as real) * s <= v < ((k + 1) as real) * s
  {
    RealMulLe(k as real, v, s);
    RealLtMul((k + 1) as real, v, s);
  }

  /** Snapping a multiple of `step` returns it unchanged; in particular snapping is idempotent. */
  lemma SnapOfMultiple(k: int, step: int)
    requires step != 0
    ensures Snap((k * step) as real, step) == k * step
  {
    var s := step as real;
    assert (k * step) as real == (k as real) * s;
    assert ((k * step) as real) / s == k as real;
  }

  lemma SnapIdempotent(v: real, step: int)
    requires step != 0
    ensures Snap(Snap(v, step) as real, step) == Snap(v, step)
  {
    var m := Snap(v, step);
    var k := m / step;
    DivExact(m, step);
    SnapOfMultiple(k, step);
  }

  lemma DivExact(m: int, b: int)
    requires b != 0 && m % b == 0
    ensures m == (m / b) * b
  {
  }
}
