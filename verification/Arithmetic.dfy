/** Powers of two, division and multiplication, for the proofs of the other modules. */
module Arithmetic {
  function Pow2(k: nat): (r: nat)
    ensures 0 < r
  {
    if k == 0 then 1 else 2 * Pow2(k - 1)
  }

  lemma {:induction false} Pow2Adds(a: nat, b: nat)
    ensures Pow2(a + b) == Pow2(a) * Pow2(b)
  {
    if a == 0 {
      assert Pow2(a + b) == Pow2(b) && Pow2(a) == 1;
    } else {
      Pow2Adds(a - 1, b);
      calc {
        Pow2(a + b);
        2 * Pow2(a - 1 + b);
        2 * (Pow2(a - 1) * Pow2(b));
        (2 * Pow2(a - 1)) * Pow2(b);
      }
    }
  }

  lemma {:induction false} Pow2Grows(a: nat, b: nat)
    requires a <= b
    ensures Pow2(a) <= Pow2(b) && (a < b ==> 2 * Pow2(a) <= Pow2(b))
  {
    if a < b { Pow2Grows(a, b - 1); }
  }

  lemma Pow2Order(a: nat, b: nat)
    requires Pow2(a) <= Pow2(b)
    ensures a <= b
  {
    if b < a { Pow2Grows(b, a); }
  }

  lemma MulAssoc(a: int, b: int, c: int)
    ensures a * b * c == a * (b * c)
  {}

  lemma MulSwaps(a: int, b: int)
    ensures a * b == b * a
  {}

  lemma MulDistributes(a: int, b: int, c: int)
    ensures a * (b + c) == a * b + a * c
  {}

  lemma MulMonotone(s: nat, a: nat, b: nat)
    requires a <= b
    ensures s * a <= s * b
  {}

  lemma DivUnique(x: int, d: int, q: int, r: int)
    requires 0 < d && x == d * q + r && 0 <= r < d
    ensures x / d == q && x % d == r
  {
    var q', r' := x / d, x % d;
    assert x == d * q' + r' && 0 <= r' < d;
    assert d * (q - q') == r' - r by { MulDistributes(d, q, -q'); }
    if q > q' { MulMonotone(d, 1, q - q'); assert false; }
    if q < q' { MulMonotone(d, 1, q' - q); assert false; }
  }

  lemma SmallQuotient(y: nat, p: nat, q: nat, t: nat)
    requires y < q * p && q * t <= y
    ensures t < p
  {
    if t >= p { MulMonotone(q, p, t); }
  }

  lemma Quotient(y: nat, q: nat, t: nat)
    requires q > 0 && t == y / q
    ensures q * t <= y
  {}

  /** Dividing by s and then taking the remainder by g is the same as the other way round. */
  lemma DivOfMod(x: nat, s: nat, g: nat)
    requires s > 0 && g > 0
    ensures s * g > 0 && x / s % g == x % (s * g) / s
  {
    MulMonotone(s, 1, g);
    var n := s * g;
    var q, h := x / n, x % n;
    var a, r := h / s, h % s;
    Remainder(x, n);
    Remainder(h, s);
    Regroup(s, g, q, a, r);
    DivUnique(x, s, g * q + a, r);
    SmallQuotient(h, g, s, a);
    DivUnique(g * q + a, g, q, a);
  }

  lemma Remainder(x: nat, d: nat)
    requires d > 0
    ensures x == d * (x / d) + x % d && x % d < d && d * (x / d) <= x
  {}

  lemma Regroup(s: nat, g: nat, q: nat, a: nat, r: nat)
    ensures s * g * q + (s * a + r) == s * (g * q + a) + r
  {
    MulAssoc(s, g, q);
    MulDistributes(s, g * q, a);
  }

  // Row by row: the place x + w * y of a cell (x, y)

  lemma Inside(x: nat, y: nat, w: nat, h: nat)
    requires x < w && y < h
    ensures x + w * y < w * h
  {
    MulMonotone(w, y + 1, h);
    MulDistributes(w, y, 1);
  }

  lemma PlaceIsUnique(x: nat, y: nat, x': nat, y': nat, w: nat)
    requires x < w && x' < w && x + w * y == x' + w * y'
    ensures x == x' && y == y'
  {
    DivUnique(x + w * y, w, y, x);
    DivUnique(x + w * y, w, y', x');
  }
}
