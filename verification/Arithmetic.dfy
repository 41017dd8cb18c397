/** Products, quotients and remainders of integers. */
module Arithmetic {
  lemma ProductOrder(d: int, a: int, b: int)
    requires d >= 0 && a <= b
    ensures d * a <= d * b
    ensures a * d <= b * d
  {
  }

  lemma DivBounds(x: int, d: int)
    requires d > 0
    ensures d * (x / d) <= x < d * (x / d) + d
  {
  }

  lemma DivShrinks(x: nat, d: nat)
    requires d > 0
    ensures 0 <= x / d <= x
  {
    DivBounds(x, d);
    if x / d < 0 {
      ProductOrder(d, x / d, -1);
    } else {
      ProductOrder(x / d, 1, d);
    }
  }

  lemma QuotientOrder(x: int, y: int, d: int)
    requires d > 0 && x <= y
    ensures x / d <= y / d
  {
    DivBounds(x, d);
    DivBounds(y, d);
    if y / d < x / d {
      ProductOrder(d, y / d + 1, x / d);
    }
  }

  lemma DivUnique(x: int, d: int, q: int)
    requires d > 0 && d * q <= x < d * q + d
    ensures x / d == q
  {
    var y := x / d;
    assert x == d * y + x % d;
    if y < q {
      ProductOrder(d, y + 1, q);
    } else if q < y {
      ProductOrder(d, q + 1, y);
    }
  }

  lemma DivShift(x: int, d: int, h: int)
    requires d > 0
    ensures (x + d * h) / d == x / d + h
  {
    DivBounds(x, d);
    assert d * (x / d + h) == d * (x / d) + d * h;
    DivUnique(x + d * h, d, x / d + h);
  }

  lemma ModUnique(x: int, d: int, q: int, r: int)
    requires d > 0 && x == d * q + r && 0 <= r < d
    ensures x % d == r
  {
    DivUnique(x, d, q);
    assert x == d * (x / d) + x % d;
  }

  lemma ModShift(x: int, d: int, q: int)
    requires d > 0
    ensures (x + d * q) % d == x % d
  {
    assert x + d * q == d * (x / d + q) + x % d;
    ModUnique(x + d * q, d, x / d + q, x % d);
  }

  /** Numbers that are less than d apart have different remainders. */
  lemma RemaindersDiffer(x: int, y: int, d: int)
    requires x < y < x + d
    ensures x % d != y % d
  {
    var a, b := x / d, y / d;
    assert x == d * a + x % d && y == d * b + y % d;
    if x % d == y % d {
      if b <= a {
        ProductOrder(d, b, a);
      } else {
        ProductOrder(d, a + 1, b);
      }
    }
  }
}
