/** The JavaScript arithmetic the reel scheduler relies on: `%` truncates
    toward zero (unlike Dafny's Euclidean `%`), `Math.ceil`, and the wrap of a
    scroll offset into one strip height. */
module JsMath {

  /** Truncation toward zero, the quotient JavaScript's `%` is based on. */
  function Trunc(x: real): (q: int)
    ensures 0.0 <= x ==> 0 <= q && q as real <= x < q as real + 1.0
    ensures x < 0.0 ==> q <= 0 && q as real - 1.0 < x <= q as real
  {
    if x >= 0.0 then x.Floor else -((-x).Floor)
  }

  /** `Math.ceil`. */
  function Ceil(x: real): (c: int)
    ensures c as real - 1.0 < x <= c as real
  {
    -((-x).Floor)
  }

  /** The quotient of `a` by `m` truncated toward zero. */
  function JsIntQuot(a: int, m: int): int
    requires m > 0
  {
    if a >= 0 then a / m else -((-a) / m)
  }

  /** JavaScript's `x % m` on integers: `a` minus a whole multiple of `m`,
      taking the sign of `a` and smaller than `m` in magnitude; so an `a`
      already inside `(-m, m)` is its own remainder. */
  function JsIntRem(a: int, m: int): (r: int)
    requires m > 0
    ensures a == JsIntQuot(a, m) * m + r
    ensures 0 <= a ==> 0 <= r < m
    ensures a < 0 ==> -m < r <= 0
    ensures -m < a < m ==> r == a
  {
    var b := if a >= 0 then a else -a;
    NatDivMod(b, m);
    if a >= 0 then a % m else -((-a) % m)
  }

  lemma NatDivMod(b: int, m: int)
    requires b >= 0 && m > 0
    ensures b == (b / m) * m + b % m && 0 <= b % m < m
    ensures b < m ==> b / m == 0 && b % m == b
  {
  }

  /** JavaScript's `x % m` on numbers, for a positive modulus. */
  function JsFmod(x: real, m: real): (r: real)
    requires m > 0.0
  {
    x - m * Trunc(x / m) as real
  }

  /** The remainder of a non-negative number lies in `[0, m)`. */
  lemma JsFmodRange(x: real, m: real)
    requires m > 0.0 && 0.0 <= x
    ensures 0.0 <= JsFmod(x, m) < m
  {
    var y := x / m;
    var f := y - Trunc(y) as real;
    assert 0.0 <= f < 1.0;
    assert JsFmod(x, m) == m * f;
    ProductBelow(m, f);
  }

  /** The remainder of a negative number lies in `(-m, 0]`. */
  lemma JsFmodRangeNegative(x: real, m: real)
    requires m > 0.0 && x < 0.0
    ensures -m < JsFmod(x, m) <= 0.0
  {
    var y := x / m;
    assert y < 0.0;
    var f := Trunc(y) as real - y;
    assert 0.0 <= f < 1.0;
    assert JsFmod(x, m) == -(m * f);
    ProductBelow(m, f);
  }

  /** Whatever the sign of `x`, its remainder lies strictly between `-m` and `m`. */
  lemma JsFmodBounds(x: real, m: real)
    requires m > 0.0
    ensures -m < JsFmod(x, m) < m
  {
    if x >= 0.0 {
      JsFmodRange(x, m);
    } else {
      JsFmodRangeNegative(x, m);
    }
  }

  lemma ProductBelow(m: real, f: real)
    requires m > 0.0 && 0.0 <= f < 1.0
    ensures 0.0 <= m * f < m
  {
  }

  lemma ProductAtLeast(m: real, f: real)
    requires m > 0.0 && f >= 1.0
    ensures f * m >= m
  {
  }

  lemma ProductNegative(m: real, f: real)
    requires m > 0.0 && f < 0.0
    ensures f * m < 0.0
  {
  }

  /** A non-negative number `q * m + r` with `0 <= r < m` leaves remainder `r`. */
  lemma JsFmodOfMultiple(q: nat, m: real, r: real)
    requires m > 0.0 && 0.0 <= r < m
    ensures JsFmod(q as real * m + r, m) == r
  {
    var x := q as real * m + r;
    var f := r / m;
    assert f * m == r;
    assert 0.0 <= f < 1.0 by {
      if f >= 1.0 {
        ProductAtLeast(m, f);
      } else if f < 0.0 {
        ProductNegative(m, f);
      }
    }
    assert x / m == q as real + f;
    assert Trunc(x / m) == q;
  }

  /** `((x % h) + h) % h`: the offset `x` wrapped into one strip height `h`. */
  function Wrap(x: real, h: real): (w: real)
    requires h > 0.0
    ensures 0.0 <= w < h
  {
    var inner := JsFmod(x, h);
    JsFmodBounds(x, h);
    JsFmodRange(inner + h, h);
    JsFmod(inner + h, h)
  }

  /** Wrapping `q * h + r` with `0 <= r < h` yields `r`. */
  lemma WrapOfMultiple(q: nat, h: real, r: real)
    requires h > 0.0 && 0.0 <= r < h
    ensures Wrap(q as real * h + r, h) == r
  {
    JsFmodOfMultiple(q, h, r);
    JsFmodOfMultiple(1, h, r);
    assert 1 as real * h + r == r + h;
  }
}
