/** Facts about products, quotients and truncation that the other modules need. */
module Arith {

  /** C's division and remainder truncate toward zero (section 6.5.5 of C11). */
  function TruncDiv(a: int, b: int): int
    requires b != 0
  {
    if a >= 0 then (if b > 0 then a / b else -(a / -b))
    else (if b > 0 then -(-a / b) else -a / -b)
  }

  function TruncMod(a: int, b: int): int
    requires b != 0
  {
    a - b * TruncDiv(a, b)
  }

  function Pow2(k: nat): (p: nat)
    ensures p > 0
  {
    if k == 0 then 1 else 2 * Pow2(k - 1)
  }

  lemma MulMono(a: int, b: int, c: int)
    requires a <= b && c >= 0
    ensures a * c <= b * c
  {
    assert (b - a) * c >= 0;
  }

  lemma DivIs(x: int, y: int)
    requires y > 0
    ensures x == (x / y) * y + x % y && 0 <= x % y < y
  {
  }

  /** Quotient and remainder are the only ones. */
  lemma DivUnique(x: int, y: int, q: int, r: int)
    requires y > 0 && x == q * y + r && 0 <= r < y
    ensures x / y == q && x % y == r
  {
    DivIs(x, y);
    var p := x / y;
    assert (q - p) * y == x % y - r by { assert (q - p) * y == q * y - p * y; }
    if q - p >= 1 { MulMono(1, q - p, y); }
    if q - p <= -1 { MulMono(q - p, -1, y); }
  }

  lemma DivShrinks(x: int, y: int)
    requires x >= 0 && y > 0
    ensures 0 <= x / y <= x
  {
    DivIs(x, y);
    var q := x / y;
    if q < 0 { MulMono(q, -1, y); }
    if q > x { MulMono(1, y, q); }
  }

  lemma DivNegative(x: int, y: int)
    requires x < 0 && y > 0
    ensures x <= x / y < 0
  {
    DivIs(x, y);
    var q := x / y;
    if q >= 0 { MulMono(0, q, y); }
    if q < x { MulMono(q + 1, x, y); MulMono(1, y, -x); }
  }

  lemma MulReal(x: int, y: int)
    ensures (x as real) * (y as real) == (x * y) as real
  {
  }

  lemma {:induction false} FloorDiv(x: int, y: int)
    requires y > 0
    ensures ((x as real) / (y as real)).Floor == x / y
  {
    var q, r := x / y, x % y;
    DivIs(x, y);
    MulReal(q, y);
    assert (x as real) == (q as real) * (y as real) + (r as real);
    assert (x as real) / (y as real) == (q as real) + (r as real) / (y as real);
    assert 0.0 <= (r as real) / (y as real) < 1.0;
  }

  lemma RealNegate(x: real, y: real)
    requires y != 0.0
    ensures (-x) / y == -(x / y) && x / (-y) == -(x / y) && (-x) / (-y) == x / y
  {
    var q := x / y;
    assert x == q * y;
    assert -x == (-q) * y && x == (-q) * (-y) && -x == q * (-y);
  }

  lemma QuotientSign(x: real, y: real)
    requires y > 0.0
    ensures x / y >= 0.0 <==> x >= 0.0
    ensures x / y == 0.0 <==> x == 0.0
  {
    var q := x / y;
    assert x == q * y;
  }

  /** Toward zero. */
  function Trunc(r: real): int {
    if r >= 0.0 then r.Floor else -((-r).Floor)
  }

  lemma TruncNegate(r: real)
    ensures Trunc(-r) == -Trunc(r)
  {
  }

  lemma TruncIsTruncDiv(x: int, y: int)
    requires y != 0
    ensures Trunc((x as real) / (y as real)) == TruncDiv(x, y)
  {
    var a, b := if x >= 0 then x else -x, if y > 0 then y else -y;
    FloorDiv(a, b);
    QuotientSign(a as real, b as real);
    RealNegate(a as real, b as real);
    TruncNegate((a as real) / (b as real));
    assert Trunc((a as real) / (b as real)) == a / b;
    assert (x as real) == (if x >= 0 then a as real else -(a as real));
    assert (y as real) == (if y > 0 then b as real else -(b as real));
  }

  lemma TruncDivShrinks(x: int, y: int)
    requires y != 0
    ensures x >= 0 ==> -x <= TruncDiv(x, y) <= x
    ensures x <= 0 ==> x <= TruncDiv(x, y) <= -x
  {
    DivShrinks(if x >= 0 then x else -x, if y > 0 then y else -y);
  }

  lemma DivExact(q: int, y: int)
    requires y > 0
    ensures (q * y) / y == q && (q * y) % y == 0
  {
    DivUnique(q * y, y, q, 0);
  }

  lemma ModProduct(n: int, y: int)
    requires y != 0
    ensures (n * y) % y == 0
  {
    if y > 0 {
      DivExact(n, y);
    } else {
      DivExact(-n, -y);
      assert (-n) * (-y) == n * y && (n * y) % y == (n * y) % -y;
    }
  }

  lemma DivMinus(x: int, k: int, y: int)
    requires y > 0
    ensures (x - k * y) / y == x / y - k
  {
    DivIs(x, y);
    assert x - k * y == (x / y - k) * y + x % y;
    DivUnique(x - k * y, y, x / y - k, x % y);
  }

  lemma DivTwice(x: int, y: int, z: int)
    requires y > 0 && z > 0 && y * z > 0
    ensures x / (y * z) == x / y / z
  {
    var q, r := x / y, x % y;
    DivIs(x, y);
    DivIs(q, z);
    var s := q % z;
    assert x == (q / z) * (y * z) + (s * y + r) by {
      assert q * y == ((q / z) * z + s) * y == (q / z) * (y * z) + s * y;
    }
    MulMono(s, z - 1, y);
    MulMono(0, s, y);
    DivUnique(x, y * z, q / z, s * y + r);
  }

  lemma {:induction false} PowSum(a: nat, b: nat)
    ensures Pow2(a + b) == Pow2(a) * Pow2(b)
  {
    if a > 0 { PowSum(a - 1, b); }
  }

  /** The truncated quotient is exact if and only if there is no remainder. */
  lemma TruncDivExact(x: int, y: int)
    requires y != 0
    ensures x == TruncDiv(x, y) * y <==> x % y == 0
  {
    var a, b := if x >= 0 then x else -x, if y > 0 then y else -y;
    var q := a / b;
    DivIs(a, b);
    assert TruncDiv(x, y) == if (x >= 0) == (y > 0) then q else -q;
    assert x == TruncDiv(x, y) * y <==> a == q * b;
    ModSign(x, y);
  }

  lemma ModSign(x: int, y: int)
    requires y != 0
    ensures x % y == 0 <==> (if x >= 0 then x else -x) % (if y > 0 then y else -y) == 0
  {
    var b := if y > 0 then y else -y;
    assert x % y == x % b;
    DivIs(x, b);
    DivIs(-x, b);
    var p, q := x / b, (-x) / b;
    if x % b == 0 { assert -x == (-p) * b; DivUnique(-x, b, -p, 0); }
    if (-x) % b == 0 { assert x == (-q) * b; DivUnique(x, b, -q, 0); }
  }
}
