/** Fixed-width integer behaviour of Go and the views of a `resource.Quantity`
    the model needs. A quantity is held as a whole number of thousandths
    ("milli-units"), the finest precision `MilliValue` exposes. */
module Quantities {
  import opened Strings

  const MaxInt32: int := 0x7fff_ffff
  const MinInt32: int := -0x8000_0000

  predicate InInt64(x: int) { MinInt64 <= x <= MaxInt64 }
  predicate InInt32(x: int) { MinInt32 <= x <= MaxInt32 }

  /** Go's `/` on integers: the quotient truncated toward zero. */
  function TruncDiv(a: int, b: int): (q: int)
    requires b != 0
    ensures (a >= 0) == (b > 0) || a == 0 ==> q >= 0
    ensures b * q == a - TruncMod(a, b)
  {
    var m := if b > 0 then b else -b;
    var n := if a >= 0 then a else -a;
    var q := n / m;
    EuclidNat(n, m);
    NegMul(m, q);
    assert b * q == (if b > 0 then m * q else -(m * q));
    if (a >= 0) == (b > 0) then q
    else
      NegMul(q, b);
      -q
  }

  /** Negating one factor negates the product. */
  lemma NegMul(x: int, y: int)
    ensures (-x) * y == -(x * y) && y * (-x) == -(y * x)
  {
  }

  /** Euclidean division of a natural number by a positive one. */
  lemma EuclidNat(n: nat, m: int)
    requires m > 0
    ensures m * (n / m) == n - n % m && n / m >= 0
  {
  }

  /** Go's `%` on integers: the remainder takes the sign of the dividend. */
  function TruncMod(a: int, b: int): (r: int)
    requires b != 0
    ensures a >= 0 ==> 0 <= r < (if b > 0 then b else -b)
    ensures a < 0 ==> -(if b > 0 then b else -b) < r <= 0
  {
    if a >= 0 then a % (if b > 0 then b else -b)
    else -((-a) % (if b > 0 then b else -b))
  }

  const TwoTo64: int := 0x1_0000_0000_0000_0000

  /** Two's complement wrap-around into 64 bits (Go's int64 arithmetic). */
  function WrapInt64(x: int): (r: int)
    ensures InInt64(r)
    ensures InInt64(x) ==> r == x
    ensures (x - r) % TwoTo64 == 0
  {
    var u := x % TwoTo64;
    if u > MaxInt64 then u - TwoTo64 else u
  }

  /** Wrapping an intermediate result and wrapping only at the end agree, so
      a running `int64` sum is the wrapped mathematical sum. */
  lemma WrapInt64Add(x: int, y: int)
    ensures WrapInt64(WrapInt64(x) + y) == WrapInt64(x + y)
  {
    var w := WrapInt64(x);
    var k := (x - w) / TwoTo64;
    assert x - w == TwoTo64 * k;
    ModShift(x + y, k);
    assert w + y == (x + y) - TwoTo64 * k;
  }

  /** Subtracting a multiple of 2^64 keeps the remainder. */
  lemma ModShift(a: int, k: int)
    ensures (a - TwoTo64 * k) % TwoTo64 == a % TwoTo64
  {
    var q := a / TwoTo64;
    var m := a % TwoTo64;
    assert a == TwoTo64 * q + m;
    assert a - TwoTo64 * k == TwoTo64 * (q - k) + m;
  }

  /** Two's complement truncation into 32 bits (Go's `int32(x)`). */
  function WrapInt32(x: int): (r: int)
    ensures InInt32(r)
    ensures InInt32(x) ==> r == x
    ensures (x - r) % TwoTo32 == 0
  {
    var u := x % TwoTo32;
    if u > MaxInt32 then u - TwoTo32 else u
  }

  /** `resource.Quantity`, in thousandths. */
  datatype Quantity = Quantity(milli: int)

  function FromValue(v: int): (q: Quantity)
    ensures q.milli == 1000 * v
  {
    Quantity(1000 * v)
  }

  /** `Quantity.IsZero`. */
  predicate IsZero(q: Quantity) { q.milli == 0 }

  /** `Quantity.MilliValue`. */
  function MilliValue(q: Quantity): int { q.milli }

  /** `Quantity.Value`: the whole number of units, rounded away from zero. */
  function Value(q: Quantity): (r: int)
    ensures q.milli >= 0 ==> 1000 * (r - 1) < q.milli <= 1000 * r
    ensures q.milli < 0 ==> 1000 * r <= q.milli < 1000 * (r + 1)
  {
    if q.milli >= 0 then (q.milli + 999) / 1000 else -((-q.milli + 999) / 1000)
  }

  /** `Quantity.Add`. */
  function Add(a: Quantity, b: Quantity): Quantity { Quantity(a.milli + b.milli) }

  /** `Quantity.Cmp(a, b) > 0`. */
  predicate Greater(a: Quantity, b: Quantity) { a.milli > b.milli }

  lemma ValueOfWhole(v: int)
    ensures Value(FromValue(v)) == v
  {
  }

  /** A quantity is zero exactly when its unit view is zero. */
  lemma ValueZero(q: Quantity)
    ensures Value(q) == 0 <==> IsZero(q)
  {
  }
}
