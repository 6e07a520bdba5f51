/** Truncating an approximate quotient: interval / sqrt(count) through a floating-point type. */
module Rounding {

  lemma Scale(a: real, b: real, c: real)
    requires a <= b && c >= 0.0
    ensures a * c <= b * c
  {}

  lemma Positive(a: real, b: real)
    requires a > 0.0 && b > 0.0
    ensures a * b > 0.0
  {}

  lemma SquareApart(x: real, d: real)
    ensures (x - d) * (x + d) == x * x - d * d
  {}

  lemma RootOrder(x: real, d: real, n: real)
    requires x >= 0.0 && d >= 0.0 && n > 0.0 && d * d * n < x * x * n
    ensures d < x
  {
    if d >= x {
      Scale(x, d, x);
      Scale(x, d, d);
      Scale(x * x, d * d, n);
    }
  }

  function Volume(a: real, b: real, c: real): real {
    a * b * c
  }

  /** Roots whose squares are at least 1/n apart keep a distance. */
  lemma Gap(x: real, d: real, n: real, g: real)
    requires 0.0 <= d <= x && n > 0.0 && d * d * n + 1.0 <= x * x * n && x - d <= g
    ensures Volume(x + d, n, g) >= 1.0
  {
    var s := (x + d) * n;
    Scale(0.0, x + d, n);
    Scale(x - d, g, s);
    SquareApart(x, d);
    assert (x - d) * s == (x * x - d * d) * n;
    assert (x * x - d * d) * n == x * x * n - d * d * n;
    assert s * g == g * s;
  }

  lemma Regroup(x: real, n: real, e: real)
    ensures 3.0 * x * n * (x * e) == Volume(3.0, x * x * n, e)
  {
    assert 3.0 * x * n * (x * e) == 3.0 * (x * n * (x * e));
    assert x * n * (x * e) == x * x * n * e;
  }

  /** A bound on that distance in units of `x * e`. */
  lemma Stretch(x: real, y: real, n: real, e: real)
    requires x >= 0.0 && n > 0.0 && e > 0.0 && y <= 3.0 * x && Volume(3.0, x * x * n, e) < 1.0
    ensures Volume(y, n, x * e) < 1.0
  {
    Scale(y, 3.0 * x, n);
    Scale(0.0, x, e);
    Scale(y * n, 3.0 * x * n, x * e);
    Regroup(x, n, e);
  }

  lemma NotBelow(x: real, q: real, d: real, n: real, e: real)
    requires x >= 0.0 && d >= 0.0 && n > 0.0 && e > 0.0
    requires d * d * n + 1.0 <= x * x * n && Volume(3.0, x * x * n, e) < 1.0
    requires q >= x - x * e
    ensures q >= d
  {
    RootOrder(x, d, n);
    hide Volume;
    if q < d {
      Gap(x, d, n, x * e);
      Stretch(x, x + d, n, e);
      assert false;
    }
  }

  lemma NotAbove(x: real, q: real, d: real, n: real, e: real)
    requires x >= 0.0 && d >= 0.0 && n > 0.0 && 0.0 < e <= 1.0
    requires x * x * n + 1.0 <= d * d * n && Volume(3.0, x * x * n, e) < 1.0
    requires q <= x + x * e
    ensures q < d
  {
    RootOrder(d, x, n);
    hide Volume;
    if q >= d {
      Scale(e, 1.0, x);
      assert e * x == x * e;
      Gap(d, x, n, x * e);
      Stretch(x, d + x, n, e);
      assert false;
    }
  }

  lemma {:induction false} RealProduct(a: nat, b: nat)
    ensures (a * b) as real == a as real * b as real
  {
    if a > 0 {
      RealProduct(a - 1, b);
      assert a * b == (a - 1) * b + b;
      assert (a - 1) as real * b as real + b as real == a as real * b as real;
    }
  }

  lemma RealSquares(d: nat, n: nat)
    ensures (d * d * n) as real == d as real * d as real * n as real
  {
    RealProduct(d, d);
    RealProduct(d * d, n);
  }

  /** The precision of a double, with room for the two roundings of the quotient. */
  const EPSILON: real := 1.0 / 1125899906842624.0

  /** A quotient x = i / sqrt(n), computed to one part in 2^50 and exactly where it is whole, is truncated to the d with
      d * d * n <= i * i < (d + 1) * (d + 1) * n, for i up to 2^24. */
  lemma TruncatedQuotient(i: nat, n: nat, d: nat, x: real, q: real)
    requires n > 0 && i <= 0x100_0000 && d * d * n <= i * i < (d + 1) * (d + 1) * n
    requires x >= 0.0 && x * x * n as real == (i * i) as real
    requires x - x * EPSILON <= q <= x + x * EPSILON && (x == x.Floor as real ==> q == x)
    ensures q.Floor == d
  {
    hide Volume;
    var r := n as real;
    SmallSquare(i);
    AtMost(i, n, d, x, q);
    if d * d * n == i * i {
      RealSquares(d, n);
      Exact(x, d as real, r);
    } else {
      AtLeast(i, n, d, x, q);
    }
  }

  lemma AtMost(i: nat, n: nat, d: nat, x: real, q: real)
    requires n > 0 && i * i < (d + 1) * (d + 1) * n && Volume(3.0, (i * i) as real, EPSILON) < 1.0
    requires x >= 0.0 && x * x * n as real == (i * i) as real && q <= x + x * EPSILON
    ensures q < (d + 1) as real
  {
    hide Volume;
    RealSquares(d + 1, n);
    var r := n as real;
    assert x * x * r == (i * i) as real;
    NotAbove(x, q, (d + 1) as real, r, EPSILON);
  }

  lemma AtLeast(i: nat, n: nat, d: nat, x: real, q: real)
    requires n > 0 && d * d * n < i * i && Volume(3.0, (i * i) as real, EPSILON) < 1.0
    requires x >= 0.0 && x * x * n as real == (i * i) as real && q >= x - x * EPSILON
    ensures q >= d as real
  {
    hide Volume;
    RealSquares(d, n);
    var r := n as real;
    assert x * x * r == (i * i) as real;
    NotBelow(x, q, d as real, r, EPSILON);
  }

  lemma SmallSquare(i: nat)
    requires i <= 0x100_0000
    ensures Volume(3.0, (i * i) as real, EPSILON) < 1.0
  {
    SquareBelow(i);
  }

  lemma NatScale(a: nat, b: nat, c: nat)
    requires a <= b
    ensures a * c <= b * c
  {}

  lemma SquareBelow(i: nat)
    requires i <= 0x100_0000
    ensures i * i <= 0x1_0000_0000_0000
  {
    NatScale(i, 0x100_0000, i);
    NatScale(i, 0x100_0000, 0x100_0000);
  }

  lemma Exact(x: real, d: real, n: real)
    requires x >= 0.0 && d >= 0.0 && n > 0.0 && d * d * n == x * x * n
    ensures x == d
  {
    if x < d { RootLess(x, d, n); }
    if d < x { RootLess(d, x, n); }
  }

  lemma RootLess(x: real, d: real, n: real)
    requires 0.0 <= x < d && n > 0.0
    ensures x * x * n < d * d * n
  {
    Positive(d - x, d + x);
    SquareApart(d, x);
    Positive(d * d - x * x, n);
    assert (d * d - x * x) * n == d * d * n - x * x * n;
  }
}
