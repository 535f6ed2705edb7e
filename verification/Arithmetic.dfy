/**
 * Facts about floored and ceiled division that the rest of the project uses by name, so that no
 * other proof has to reason about a product of two variables and a quotient at the same time.
 */
module Arithmetic {

  lemma MulLe(a: int, b: int, c: int)
    requires a <= b && 0 <= c
    ensures a * c <= b * c
  {
  }

  lemma MulLt(a: int, b: int, c: int)
    requires a < b && 0 < c
    ensures a * c < b * c
  {
  }

  lemma MulAssoc(a: int, b: int, c: int)
    ensures a * (b * c) == (a * b) * c
    ensures a * (b * c) == b * (a * c)
  {
  }

  lemma MulSwap(a: int, b: int, c: int)
    ensures (a * b) * c == (a * c) * b
  {
  }

  lemma MulDist(a: int, b: int, c: int)
    ensures (a + b) * c == a * c + b * c
  {
  }

  /** Cancelling a positive factor from a strict inequality. */
  lemma MulLtCancel(a: int, b: int, c: int)
    requires a * c < b * c && 0 < c
    ensures a < b
  {
    if b <= a {
      MulLe(b, a, c);
    }
  }

  lemma MulLeCancel(a: int, b: int, c: int)
    requires a * c <= b * c && 0 < c
    ensures a <= b
  {
    if b < a {
      MulLt(b, a, c);
    }
  }

  /** `x / d` is the only number whose `d`-fold brackets `x`. */
  lemma FloorBounds(x: int, d: int)
    requires 0 < d
    ensures (x / d) * d <= x < (x / d) * d + d
    ensures x == (x / d) * d + x % d
    ensures 0 <= x ==> 0 <= x / d
  {
  }

  lemma FloorAtLeast(x: int, d: int, q: int)
    requires 0 < d && q * d <= x
    ensures q <= x / d
  {
    FloorBounds(x, d);
    assert q * d < (x / d + 1) * d;
    MulLtCancel(q, x / d + 1, d);
  }

  lemma FloorAtMost(x: int, d: int, q: int)
    requires 0 < d && x < (q + 1) * d
    ensures x / d <= q
  {
    FloorBounds(x, d);
    MulLtCancel(x / d, q + 1, d);
  }

  lemma FloorUnique(x: int, d: int, q: int)
    requires 0 < d && q * d <= x < q * d + d
    ensures x / d == q
    ensures x % d == x - q * d
  {
    FloorAtLeast(x, d, q);
    FloorAtMost(x, d, q);
  }

  /** A quotient is below `q` exactly when its dividend is below `q * d`. */
  lemma FloorBelow(x: int, d: int, q: int)
    requires 0 < d
    ensures x / d < q <==> x < q * d
  {
    if x < q * d {
      FloorAtMost(x, d, q - 1);
    } else {
      FloorAtLeast(x, d, q);
    }
  }

  lemma FloorMono(x: int, y: int, d: int)
    requires 0 < d && x <= y
    ensures x / d <= y / d
  {
    FloorBounds(x, d);
    FloorAtLeast(y, d, x / d);
  }

  /** A larger divisor gives a smaller quotient. */
  lemma FloorAnti(x: int, d: int, e: int)
    requires 0 < d <= e && 0 <= x
    ensures x / e <= x / d
  {
    FloorBounds(x, e);
    MulLe(d, e, x / e);
    FloorAtLeast(x, d, x / e);
  }

  lemma FloorMulDivMono(a: int, a': int, b: int, d: int)
    requires 0 < d && 0 <= b && a <= a'
    ensures a * b / d <= a' * b / d
  {
    MulLe(a, a', b);
    FloorMono(a * b, a' * b, d);
  }

  lemma FloorExact(q: int, d: int)
    requires 0 < d
    ensures q * d / d == q
  {
    FloorUnique(q * d, d, q);
  }

  lemma FloorShift(x: int, q: int, d: int)
    requires 0 < d
    ensures (x + q * d) / d == x / d + q
    ensures (x + q * d) % d == x % d
  {
    FloorBounds(x, d);
    FloorUnique(x + q * d, d, x / d + q);
  }

  /** Dividing twice is dividing once by the product. */
  lemma FloorTwice(x: int, d: int, e: int)
    requires 0 < d && 0 < e
    ensures 0 < d * e
    ensures (x / d) / e == x / (d * e)
  {
    MulLt(0, d, e);
    FloorBounds(x, d);
    FloorBounds(x / d, e);
    NestedBounds(x, d, e, x / d, (x / d) / e);
    FloorUnique(x, d * e, (x / d) / e);
  }

  lemma NestedBounds(x: int, d: int, e: int, q: int, p: int)
    requires 0 < d && 0 < e
    requires q * d <= x < q * d + d && p * e <= q < p * e + e
    ensures p * (d * e) <= x < p * (d * e) + d * e
  {
    MulLe(p * e, q, d);
    MulLe(q + 1, p * e + e, d);
    MulDist(q, 1, d);
    MulDist(p * e, e, d);
    MulAssoc(p, e, d);
  }

  /** A floored share `r * s / w` of something is at most the whole when `s <= w`. */
  lemma FloorShare(r: int, s: int, w: int)
    requires 0 <= r && 0 <= s <= w && 0 < w
    ensures 0 <= r * s / w <= r
  {
    MulLe(s, w, r);
    MulLe(0, s, r);
    FloorExact(r, w);
    FloorMono(r * s, r * w, w);
    FloorBounds(r * s, w);
  }

  /** A larger fraction, by cross multiplication, has a larger floored share of `scale`. */
  lemma FractionMono(a: nat, b: nat, a': nat, b': nat, scale: nat)
    requires 0 < b && 0 < b' && a * b' <= a' * b
    ensures a * scale / b <= a' * scale / b'
  {
    var u := a * scale / b;
    FloorBounds(a * scale, b);
    assert (u * b') * b <= (a' * scale) * b by {
      MulLe(u * b, a * scale, b');
      MulLe(a * b', a' * b, scale);
      assert (u * b) * b' == (u * b') * b;
      assert (a * scale) * b' == (a * b') * scale;
      assert (a' * b) * scale == (a' * scale) * b;
    }
    MulLeCancel(u * b', a' * scale, b);
    FloorAtLeast(a' * scale, b', u);
  }

  /** `x` is `y / d` rounded down. */
  predicate IsFloor(x: int, y: int, d: int) {
    x * d <= y < (x + 1) * d
  }

  lemma DivisionFloors(y: int, d: int)
    requires 0 < d
    ensures IsFloor(y / d, y, d)
  {
    FloorBounds(y, d);
    MulDist(y / d, 1, d);
  }

  /** `x / d` rounded down. */
  function FloorDiv(x: nat, d: nat): (q: nat)
    requires 0 < d
    ensures q * d <= x < q * d + d
  {
    FloorBounds(x, d);
    x / d
  }

  /** `x / d` rounded up. */
  function CeilDiv(x: nat, d: nat): (c: nat)
    requires 0 < d
    ensures x <= c * d
    ensures 0 < x ==> (c - 1) * d < x
    ensures x == 0 ==> c == 0
  {
    if x == 0 then 0
    else
      FloorBounds(x - 1, d);
      (x - 1) / d + 1
  }

  /** The ceiling is the least multiple count that covers `x`. */
  lemma CeilAtMost(x: nat, d: nat, q: nat)
    requires 0 < d && x <= q * d
    ensures CeilDiv(x, d) <= q
  {
    if 0 < x {
      MulLtCancel(CeilDiv(x, d) - 1, q, d);
    }
  }

  lemma CeilAtLeast(x: nat, d: nat, q: nat)
    requires 0 < d && (q - 1) * d < x
    ensures q <= CeilDiv(x, d)
  {
    MulLtCancel(q - 1, CeilDiv(x, d), d);
  }

  lemma CeilMono(x: nat, y: nat, d: nat)
    requires 0 < d && x <= y
    ensures CeilDiv(x, d) <= CeilDiv(y, d)
  {
    CeilAtMost(x, d, CeilDiv(y, d));
  }

  lemma CeilShift(x: nat, q: nat, d: nat)
    requires 0 < d
    ensures CeilDiv(q * d + x, d) == q + CeilDiv(x, d)
  {
    var c := CeilDiv(x, d);
    assert (q + c) * d == q * d + c * d;
    CeilAtMost(q * d + x, d, q + c);
    if 0 < x {
      assert (q + c - 1) * d == q * d + (c - 1) * d;
      CeilAtLeast(q * d + x, d, q + c);
    } else {
      if 0 < q {
        assert (q - 1) * d == q * d - d;
        CeilAtLeast(q * d, d, q);
      }
    }
  }
}
