/** The linear colour ramp `interp` that both firmware variants use to blend
    the worm's colours over a window of ticks. */
module Ramp {
  import opened Bits

  /** `interp(TFROM, TTO, YFROM, YTO, T)`: YFROM + (YTO - YFROM) * (min(T, TTO) - TFROM) / (TTO - TFROM)
      in C int arithmetic. The time is clamped at the upper end of the window
      only; below TFROM the ramp extrapolates. */
  function Interp(tFrom: int, tTo: int, yFrom: int, yTo: int, t: int): (y: int)
    requires tTo != tFrom
    ensures tFrom < tTo && t == tFrom ==> y == yFrom
    ensures t >= tTo ==> y == yTo
    ensures tFrom < tTo && tFrom <= t ==> Min(yFrom, yTo) <= y <= Max(yFrom, yTo)
  {
    var span, rise, elapsed := tTo - tFrom, yTo - yFrom, Min(t, tTo) - tFrom;
    if tFrom < tTo && t == tFrom then
      assert rise * elapsed == 0;
      yFrom + TruncDiv(rise * elapsed, span)
    else if t >= tTo then
      TruncDivExact(rise, span);
      yFrom + TruncDiv(rise * elapsed, span)
    else if tFrom < tTo && tFrom <= t then
      TruncDivScaled(rise, elapsed, span);
      yFrom + TruncDiv(rise * elapsed, span)
    else
      yFrom + TruncDiv(rise * elapsed, span)
  }

  /** Dividing an exact multiple gives the factor back. */
  lemma TruncDivExact(k: int, d: int)
    requires d != 0
    ensures TruncDiv(k * d, d) == k
  {
    var q := TruncDiv(k * d, d);
    AbsMul(k, d);
    MulDivCancel(Abs(k), Abs(d));
    assert Abs(q) == Abs(k);
    if k > 0 {
      assert (k * d > 0) == (d > 0) by { MulSign(k, d); }
    } else if k < 0 {
      assert (k * d > 0) != (d > 0) by { MulSign(k, d); }
    }
  }

  /** A fraction x/d (0 <= x <= d) of k, truncated, lies between 0 and k. */
  lemma TruncDivScaled(k: int, x: int, d: int)
    requires d > 0 && 0 <= x <= d
    ensures Min(0, k) <= TruncDiv(k * x, d) <= Max(0, k)
  {
    var q := TruncDiv(k * x, d);
    AbsMul(k, x);
    assert Abs(k) * x <= Abs(k) * d by { MulLe(Abs(k), x, d); }
    DivLe(Abs(k) * x, Abs(k) * d, d);
    MulDivCancel(Abs(k), d);
    assert Abs(q) <= Abs(k);
    if k >= 0 {
      assert k * x >= 0 by { MulLe(k, 0, x); }
    } else {
      assert k * x <= 0 by { MulLe(-k, 0, x); }
    }
  }

  lemma AbsMul(a: int, b: int)
    ensures Abs(a * b) == Abs(a) * Abs(b)
  {
    if a < 0 && b < 0 {
      assert a * b == (-a) * (-b);
    } else if a < 0 {
      assert a * b == -((-a) * b);
    } else if b < 0 {
      assert a * b == -(a * (-b));
    }
  }

  lemma MulSign(a: int, b: int)
    requires a != 0
    ensures a > 0 ==> (a * b > 0) == (b > 0)
    ensures a < 0 ==> (a * b > 0) == (b < 0)
  {
    AbsMul(a, b);
    if b != 0 {
      assert Abs(a) * Abs(b) >= Abs(b) by { MulLe(Abs(b), 1, Abs(a)); }
    }
    if a > 0 && b > 0 {
      MulLe(a, 0, b);
    } else if a > 0 && b < 0 {
      MulLe(a, b, 0);
    } else if a < 0 && b > 0 {
      MulLe(-a, 0, b);
      assert a * b == -((-a) * b);
    } else if a < 0 && b < 0 {
      MulLe(-a, b, 0);
      assert a * b == -((-a) * b);
    }
  }

  lemma MulLe(k: nat, x: int, y: int)
    requires x <= y
    ensures k * x <= k * y
  {
    assert k * y - k * x == k * (y - x);
  }

  lemma MulDivCancel(k: nat, d: nat)
    requires d > 0
    ensures (k * d) / d == k
  {
    var q, r := (k * d) / d, (k * d) % d;
    assert k * d == q * d + r && 0 <= r < d;
    assert (k - q) * d == r;
    if k > q {
      MulLe(d, 1, k - q);
    } else if k < q {
      MulLe(d, k - q, -1);
    }
  }

  lemma DivLe(n: nat, m: nat, d: nat)
    requires d > 0 && n <= m
    ensures n / d <= m / d
  {
    if n / d > m / d {
      assert (n / d) * d >= (m / d + 1) * d by { MulLe(d, m / d + 1, n / d); }
    }
  }
}
