/** Rounding of real numbers to significant decimal digits, ties to even, and the range of float64. */
module Rounding {
  /** 10 to the power k. */
  function Scale(k: int): (r: real)
    ensures r > 0.0
    decreases if k < 0 then -k else k
  {
    if k == 0 then 1.0 else if k > 0 then 10.0 * Scale(k - 1) else Scale(k + 1) / 10.0
  }

  lemma ScaleZero()
    ensures Scale(0) == 1.0
  {
  }

  lemma ScaleNext(k: int)
    ensures Scale(k + 1) == 10.0 * Scale(k)
  {
  }

  lemma TimesTen(x: real, y: real)
    ensures x * (10.0 * y) == 10.0 * (x * y)
  {
  }

  lemma {:induction false} ScaleAdd(a: int, b: int)
    ensures Scale(a + b) == Scale(a) * Scale(b)
    decreases if b < 0 then -b else b
  {
    hide Scale;
    if b == 0 {
      ScaleZero();
    } else if b > 0 {
      ScaleAdd(a, b - 1);
      ScaleNext(a + b - 1);
      ScaleNext(b - 1);
      TimesTen(Scale(a), Scale(b - 1));
    } else {
      ScaleAdd(a, b + 1);
      ScaleNext(a + b);
      ScaleNext(b);
      TimesTen(Scale(a), Scale(b));
    }
  }

  lemma {:induction false} ScaleMonotone(a: int, b: int)
    requires a <= b
    ensures Scale(a) <= Scale(b) && (a < b ==> 10.0 * Scale(a) <= Scale(b))
    decreases b - a
  {
    if a < b {
      ScaleMonotone(a, b - 1);
      ScaleNext(b - 1);
    }
  }

  /** n is the integer nearest to z, the even one of two. */
  ghost predicate NearestEven(z: real, n: int) {
    var d := z - n as real;
    -0.5 <= d <= 0.5 && (d == 0.5 || d == -0.5 ==> n % 2 == 0)
  }

  lemma NearestUnique(z: real, m: int, n: int)
    requires NearestEven(z, m) && NearestEven(z, n)
    ensures m == n
  {
  }

  /** A coefficient with an exponent. */
  function Magnitude(c: int, e: int): real {
    c as real * Scale(e)
  }

  function Quot(x: real, e: int): real {
    x / Scale(e)
  }

  /** y is x, whose leading digit is that of 10 to the power a, rounded to prec digits. */
  ghost predicate RoundedAt(x: real, prec: nat, y: real, a: int, n: int) {
    var u := a - prec + 1;
    Scale(a) <= x < Scale(a + 1) && NearestEven(Quot(x, u), n) && y == Magnitude(n, u)
  }

  /** y is the positive number x rounded to prec digits. */
  ghost predicate IsRounded(x: real, prec: nat, y: real) {
    exists a: int, n: int :: RoundedAt(x, prec, y, a, n)
  }

  lemma LeadingUnique(x: real, a: int, b: int)
    requires Scale(a) <= x < Scale(a + 1) && Scale(b) <= x < Scale(b + 1)
    ensures a == b
  {
    if a < b {
      ScaleMonotone(a + 1, b);
    } else if b < a {
      ScaleMonotone(b + 1, a);
    }
  }

  lemma RoundedUnique(x: real, prec: nat, y: real, z: real)
    requires IsRounded(x, prec, y) && IsRounded(x, prec, z)
    ensures y == z
  {
    hide NearestEven, Scale, Quot, Magnitude;
    var a, m :| RoundedAt(x, prec, y, a, m);
    var b, n :| RoundedAt(x, prec, z, b, n);
    LeadingUnique(x, a, b);
    NearestUnique(Quot(x, a - prec + 1), m, n);
  }

  /** Rounding stays between the powers of ten around a number. */
  lemma RoundedRange(x: real, prec: nat, y: real, a: int)
    requires prec > 0 && IsRounded(x, prec, y) && Scale(a) <= x < Scale(a + 1)
    ensures Scale(a) <= y <= Scale(a + 1)
  {
    hide NearestEven, Scale, Quot, Magnitude;
    var b, n :| RoundedAt(x, prec, y, b, n);
    LeadingUnique(x, a, b);
    ScaleAdd(prec - 1, a - prec + 1);
    ScaleAdd(prec, a - prec + 1);
    WholeScale(prec - 1);
    WholeScale(prec);
    RangeOf(x, y, n, Scale(prec - 1), Scale(prec), a - prec + 1);
  }

  lemma RangeOf(x: real, y: real, n: int, lo: real, hi: real, u: int)
    requires lo * Scale(u) <= x < hi * Scale(u) && NearestEven(Quot(x, u), n) && y == Magnitude(n, u)
    requires lo.Floor as real == lo && hi.Floor as real == hi
    ensures lo * Scale(u) <= y <= hi * Scale(u)
  {
    hide NearestEven, Scale;
    DivBounds(x, Scale(u), lo, hi);
    NearestBetween(Quot(x, u), n, lo, hi);
    MulOrder(lo, n as real, Scale(u));
    MulOrder(n as real, hi, Scale(u));
  }

  lemma MulOrder(a: real, b: real, c: real)
    requires a <= b && c > 0.0
    ensures a * c <= b * c
  {
  }

  lemma DivBounds(x: real, unit: real, lo: real, hi: real)
    requires unit > 0.0 && lo * unit <= x < hi * unit
    ensures lo <= x / unit < hi
  {
    var z := x / unit;
    assert z * unit == x;
  }

  lemma {:induction false} WholeScale(k: nat)
    ensures Scale(k).Floor as real == Scale(k)
  {
    if k > 0 {
      WholeScale(k - 1);
      var n := Scale(k - 1).Floor;
      assert Scale(k) == (10 * n) as real;
    }
  }

  lemma NearestBetween(z: real, n: int, lo: real, hi: real)
    requires NearestEven(z, n) && lo <= z <= hi && lo.Floor as real == lo && hi.Floor as real == hi
    ensures lo <= n as real <= hi
  {
    var l, h := lo.Floor, hi.Floor;
    assert (n - l) as real >= -0.5 && (h - n) as real >= -0.5;
    assert n - l > -1 && h - n > -1;
  }

  /** Numbers between the same neighbouring tenths of a unit round alike: neither is on a tie. */
  lemma NearestAlike(d: int, z: real, w: real, n: int)
    requires d as real / 10.0 < z < (d + 1) as real / 10.0 && d as real / 10.0 < w < (d + 1) as real / 10.0
    ensures NearestEven(z, n) ==> NearestEven(w, n)
  {
    if NearestEven(z, n) {
      assert (10 * n - 5) as real < (d + 1) as real;
      assert d as real < (10 * n + 5) as real;
      assert 10 * n - 5 <= d && d + 1 <= 10 * n + 5;
      assert (10 * n - 5) as real <= d as real && (d + 1) as real <= (10 * n + 5) as real;
    }
  }

  function Pow10(k: nat): nat {
    if k == 0 then 1 else 10 * Pow10(k - 1)
  }

  lemma {:induction false} Pow10IsScale(k: nat)
    ensures Pow10(k) as real == Scale(k) && Pow10(k) > 0
  {
    if k > 0 {
      Pow10IsScale(k - 1);
    }
  }

  /** How many digits a number has. */
  function NumDigits(c: nat): (n: nat)
    ensures n > 0
  {
    if c < 10 then 1 else 1 + NumDigits(c / 10)
  }

  lemma {:induction false} DigitsRange(c: nat)
    requires c > 0
    ensures Scale(NumDigits(c) - 1) <= c as real < Scale(NumDigits(c))
  {
    if c < 10 {
      assert Scale(0) == 1.0 && Scale(1) == 10.0;
    } else {
      DigitsRange(c / 10);
      var n, q, r := NumDigits(c / 10), c / 10, c % 10;
      ScaleNext(n - 1);
      ScaleNext(n);
      Pow10IsScale(n);
      assert q + 1 <= Pow10(n);
      assert c == 10 * q + r;
    }
  }

  /** A quotient rounded to the nearest integer, ties to even. */
  function RoundDiv(c: nat, p: nat): nat
    requires p > 0
  {
    var q, r := c / p, c % p;
    if 2 * r < p || (2 * r == p && q % 2 == 0) then q else q + 1
  }

  lemma RoundDivNearest(c: nat, p: nat)
    requires p > 0
    ensures NearestEven(c as real / p as real, RoundDiv(c, p))
  {
    var q, r := c / p, c % p;
    QuotientReal(c, p);
    var f := r as real / p as real;
    HalfOf(r, p);
  }

  lemma QuotientReal(c: nat, p: nat)
    requires p > 0
    ensures c as real / p as real == (c / p) as real + (c % p) as real / p as real
  {
    var q, r := c / p, c % p;
    assert c == q * p + r;
    var x := p as real;
    assert c as real == q as real * x + r as real;
  }

  lemma HalfOf(r: nat, p: nat)
    requires r < p
    ensures var f := r as real / p as real;
            0.0 <= f < 1.0 && (2 * r < p <==> f < 0.5) && (2 * r == p <==> f == 0.5)
  {
    Compare(r as real, p as real, 0.0);
    Compare(r as real, p as real, 1.0);
    Compare(r as real, p as real, 0.5);
    assert (2 * r) as real == 2.0 * r as real;
  }

  /** A quotient is to a number as the dividend is to its multiple. */
  lemma Compare(r: real, p: real, z: real)
    requires p > 0.0
    ensures (r / p < z <==> r < z * p) && (r / p == z <==> r == z * p)
  {
    var f := r / p;
    assert f * p == r;
    if f < z {
      MulLess(f, z, p);
    } else {
      MulOrder(z, f, p);
    }
    if z < f {
      MulLess(z, f, p);
    }
  }

  /** A coefficient and an exponent rounded to prec digits: a coefficient that is short enough is left as it is. */
  function RoundTo(c: nat, e: int, prec: nat): (nat, int)
    requires prec > 0
  {
    var n := NumDigits(c);
    if n <= prec then (c, e) else
      Pow10IsScale(n - prec);
      (RoundDiv(c, Pow10(n - prec)), e + n - prec)
  }

  lemma RoundToRounds(c: nat, e: int, prec: nat)
    requires c > 0 && prec > 0
    ensures var r := RoundTo(c, e, prec); IsRounded(Magnitude(c, e), prec, Magnitude(r.0, r.1))
  {
    hide IsRounded, Magnitude, RoundDiv, NumDigits, Pow10;
    var n := NumDigits(c);
    if n <= prec {
      ShortRounds(c, e, prec);
    } else {
      LongRounds(c, e, prec);
    }
  }

  lemma ShortRounds(c: nat, e: int, prec: nat)
    requires c > 0 && NumDigits(c) <= prec
    ensures IsRounded(Magnitude(c, e), prec, Magnitude(c, e))
  {
    hide NearestEven, Scale, NumDigits, Magnitude, Quot, Pow10;
    var a, k := e + NumDigits(c) - 1, prec - NumDigits(c);
    var m := c * Pow10(k);
    Leading(c, e);
    Shifted(c, k, e - k);
    QuotExact(m, e - k);
    assert RoundedAt(Magnitude(c, e), prec, Magnitude(c, e), a, m);
  }

  lemma LongRounds(c: nat, e: int, prec: nat)
    requires prec > 0 && NumDigits(c) > prec
    ensures var k := NumDigits(c) - prec;
            && Pow10(k) > 0
            && IsRounded(Magnitude(c, e), prec, Magnitude(RoundDiv(c, Pow10(k)), e + k))
  {
    hide NearestEven, Scale, RoundDiv, Magnitude, Quot, Pow10;
    var k := NumDigits(c) - prec;
    Leading(c, e);
    Pow10IsScale(k);
    RoundDivNearest(c, Pow10(k));
    QuotPower(c, k, e);
    var n := RoundDiv(c, Pow10(k));
    assert RoundedAt(Magnitude(c, e), prec, Magnitude(n, e + k), e + NumDigits(c) - 1, n);
  }

  lemma Shifted(c: nat, k: nat, e: int)
    ensures Magnitude(c * Pow10(k), e) == Magnitude(c, e + k)
  {
    hide Scale, Pow10;
    Pow10IsScale(k);
    ScaleAdd(e, k);
    TimesReal(c, Pow10(k));
    Reassociate(c as real, Scale(k), Scale(e));
  }

  lemma Reassociate(a: real, b: real, c: real)
    ensures (a * b) * c == a * (c * b)
  {
  }

  lemma TimesReal(a: nat, b: nat)
    ensures (a * b) as real == a as real * b as real
  {
  }

  lemma QuotExact(m: int, u: int)
    ensures Quot(Magnitude(m, u), u) == m as real && NearestEven(Quot(Magnitude(m, u), u), m)
  {
    hide Scale;
    Compare(Magnitude(m, u), Scale(u), m as real);
  }

  lemma QuotPower(c: nat, k: nat, e: int)
    ensures Pow10(k) > 0 && Quot(Magnitude(c, e), e + k) == c as real / Pow10(k) as real
  {
    hide Scale, Pow10;
    Pow10IsScale(k);
    ScaleAdd(e, k);
    Cancel(c as real, Scale(e), Pow10(k) as real, Scale(e + k));
  }

  /** Where a coefficient with an exponent is among the powers of ten. */
  lemma Leading(c: nat, e: int)
    requires c > 0
    ensures var a := e + NumDigits(c) - 1; Scale(a) <= Magnitude(c, e) < Scale(a + 1)
  {
    hide Scale, NumDigits;
    var n := NumDigits(c);
    DigitsRange(c);
    ScaleAdd(n - 1, e);
    ScaleAdd(n, e);
    MulOrder(Scale(n - 1), c as real, Scale(e));
    MulLess(c as real, Scale(n), Scale(e));
  }

  lemma MulLess(a: real, b: real, c: real)
    requires a < b && c > 0.0
    ensures a * c < b * c
  {
  }

  lemma Cancel(c: real, e: real, p: real, unit: real)
    requires e > 0.0 && p > 0.0 && unit == e * p
    ensures unit > 0.0 && c * e / unit == c / p
  {
    var z := c / p;
    assert z * p == c;
    assert z * unit == (z * p) * e;
  }

  /** x is strictly between d and d + 1 units of the digit 10 to the power s. */
  ghost predicate Within(x: real, d: int, s: int) {
    Magnitude(d, s) < x < Magnitude(d + 1, s)
  }

  /** Numbers that agree in prec + 1 digits, with more beyond, round alike to prec digits: one nonzero
      digit stands in for all those beyond. */
  lemma StickyAlike(x: real, w: real, d: nat, s: int, prec: nat, y: real)
    requires NumDigits(d) == prec + 1 && d > 0 && Within(x, d, s) && Within(w, d, s)
    ensures IsRounded(x, prec, y) ==> IsRounded(w, prec, y)
  {
    hide NearestEven, Scale, NumDigits, Quot;
    if IsRounded(x, prec, y) {
      var a, n :| RoundedAt(x, prec, y, a, n);
      WithinLeads(x, d, s, prec);
      WithinLeads(w, d, s, prec);
      LeadingUnique(x, a, s + prec);
      WithinTenths(x, d, s);
      WithinTenths(w, d, s);
      NearestAlike(d, Quot(x, s + 1), Quot(w, s + 1), n);
      assert RoundedAt(w, prec, y, a, n);
    }
  }

  lemma AsReals(a: nat, b: nat)
    requires a <= b
    ensures a as real <= b as real
  {
  }

  lemma MagnitudeAtMost(n: nat, k: nat, s: int)
    requires n <= Pow10(k)
    ensures Magnitude(n, s) <= Scale(s + k)
  {
    hide Scale, Pow10;
    AsReals(n, Pow10(k));
    Pow10IsScale(k);
    MulOrder(n as real, Scale(k), Scale(s));
    ScaleAdd(k, s);
  }

  lemma WithinLeads(x: real, d: nat, s: int, prec: nat)
    requires NumDigits(d) == prec + 1 && d > 0 && Within(x, d, s)
    ensures Scale(s + prec) <= x < Scale(s + prec + 1)
  {
    hide Scale, NumDigits;
    Leading(d, s);
    DigitsRange(d);
    Pow10IsScale(prec + 1);
    assert d + 1 <= Pow10(prec + 1);
    hide Magnitude, Pow10;
    MagnitudeAtMost(d + 1, prec + 1, s);
  }

  lemma WithinTenths(x: real, d: int, s: int)
    requires Within(x, d, s)
    ensures d as real / 10.0 < Quot(x, s + 1) < (d + 1) as real / 10.0
  {
    hide Scale;
    ScaleNext(s);
    Tenths(x, d as real, (d + 1) as real, Scale(s), Scale(s + 1));
  }

  lemma Tenths(x: real, a: real, b: real, unit: real, ten: real)
    requires unit > 0.0 && ten == 10.0 * unit && a * unit < x < b * unit
    ensures a / 10.0 < x / ten < b / 10.0
  {
    TimesTen(a / 10.0, unit);
    TimesTen(b / 10.0, unit);
    Compare(x, ten, a / 10.0);
    Compare(x, ten, b / 10.0);
  }

  function Pow2(n: nat): (r: nat)
    ensures r > 0
  {
    if n == 0 then 1 else 2 * Pow2(n - 1)
  }

  /** The smallest magnitude that float64 rounds to infinity. */
  const OVERFLOW: real := (Pow2(1024) - Pow2(970)) as real

  /** Half the smallest magnitude float64 has, which it rounds to zero. */
  const UNDERFLOW: real := 1.0 / (Pow2(1075) as real)

  lemma {:induction false} Pow2Add(a: nat, b: nat)
    ensures Pow2(a + b) == Pow2(a) * Pow2(b)
  {
    if b > 0 {
      Pow2Add(a, b - 1);
      assert Pow2(a) * (2 * Pow2(b - 1)) == 2 * (Pow2(a) * Pow2(b - 1));
    }
  }

  /** 2 to the power 10 k against 10 to the power 3 k. */
  ghost function Ratio(k: nat): real {
    if k == 0 then 1.0 else Ratio(k - 1) * 1.024
  }

  lemma {:induction false} RatioIs(k: nat)
    ensures Pow2(10 * k) as real == Ratio(k) * Scale(3 * k)
  {
    if k > 0 {
      RatioIs(k - 1);
      Pow2Add(10 * (k - 1), 10);
      Pow2Ten();
      ScaleNext(3 * (k - 1));
      ScaleNext(3 * (k - 1) + 1);
      ScaleNext(3 * (k - 1) + 2);
      RatioStep(Pow2(10 * (k - 1)), Ratio(k - 1), Scale(3 * (k - 1)));
    }
  }

  lemma Pow2Ten()
    ensures Pow2(10) == 1024
  {
    assert Pow2(2) == 4 && Pow2(4) == 16 && Pow2(6) == 64 && Pow2(8) == 256;
  }

  lemma RatioStep(p: nat, r: real, s: real)
    requires p as real == r * s
    ensures (p * 1024) as real == (r * 1.024) * (1000.0 * s)
  {
    assert (p * 1024) as real == 1024.0 * (r * s);
    assert (r * 1.024) * (1000.0 * s) == 1024.0 * (r * s);
  }

  lemma {:induction false} RatioAdd(a: nat, b: nat)
    ensures Ratio(a + b) == Ratio(a) * Ratio(b)
  {
    if b > 0 {
      RatioAdd(a, b - 1);
      assert Ratio(a) * (Ratio(b - 1) * 1.024) == (Ratio(a) * Ratio(b - 1)) * 1.024;
    }
  }

  lemma RatioBounds()
    ensures 6.5 < Ratio(102) < 15.0 && 6.5 < Ratio(107) < 15.0
  {
    hide Ratio;
    RatioSmall();
    Doubled(2, 1.048, 1.049);
    Doubled(4, 1.098, 1.101);
    Doubled(8, 1.205, 1.213);
    Doubled(16, 1.452, 1.472);
    Doubled(32, 2.108, 2.167);
    RatioAdd(64, 32);
    Product(Ratio(64), Ratio(32), 4.443, 4.696, 2.108, 2.167);
    RatioAdd(96, 4);
    Product(Ratio(96), Ratio(4), 9.3, 10.2, 1.098, 1.101);
    RatioAdd(100, 2);
    Product(Ratio(100), Ratio(2), 10.2, 11.3, 1.048, 1.049);
    RatioAdd(102, 4);
    Product(Ratio(102), Ratio(4), 10.6, 11.9, 1.098, 1.101);
    RatioAdd(106, 1);
  }

  lemma RatioSmall()
    ensures Ratio(1) == 1.024 && 1.048 <= Ratio(2) <= 1.049
  {
    assert Ratio(0) == 1.0;
  }

  lemma Doubled(k: nat, lo: real, hi: real)
    requires 0.0 < lo <= Ratio(k) <= hi
    ensures lo * lo <= Ratio(2 * k) <= hi * hi
  {
    RatioAdd(k, k);
    Product(Ratio(k), Ratio(k), lo, hi, lo, hi);
  }

  lemma Product(x: real, y: real, a: real, b: real, c: real, d: real)
    requires 0.0 < a <= x <= b && 0.0 < c <= y <= d
    ensures a * c <= x * y <= b * d
  {
    MulOrder(a, x, c);
    assert x * c <= x * y;
    MulOrder(x, b, y);
    assert b * y <= b * d;
  }

  /** The range of float64 among the powers of ten. */
  lemma RangeOfFloat64()
    ensures Scale(308) < OVERFLOW < Scale(309)
    ensures Scale(-324) < UNDERFLOW < Scale(-323)
  {
    RatioBounds();
    OverflowRange();
    UnderflowRange();
  }

  lemma RatioWithin(x: real, r: real, s: real)
    requires x == r * s && 6.5 < r < 15.0 && s > 0.0
    ensures 6.5 * s < x < 15.0 * s
  {
    MulLess(6.5, r, s);
    MulLess(r, 15.0, s);
  }

  lemma OverflowRange()
    requires 6.5 < Ratio(102) < 15.0
    ensures Scale(308) < OVERFLOW < Scale(309)
  {
    hide Scale, Pow2, Ratio;
    RatioIs(102);
    Pow2Small();
    Pow2Add(1020, 4);
    Pow2Add(970, 50);
    Pow2Add(970, 54);
    Pow2Add(50, 4);
    ScaleAdd(306, 2);
    ScaleAdd(306, 3);
    ScaleSmall();
    RatioWithin(Pow2(1020) as real, Ratio(102), Scale(306));
    MulAtLeast(Pow2(970), Pow2(50), 1000);
    LessSixteen(Pow2(1020), Pow2(970), Scale(306));
  }

  lemma LessSixteen(p: nat, q: nat, s: real)
    requires q * 1000 <= p && q > 0 && 6.5 * s < p as real < 15.0 * s
    ensures s * 100.0 < (p * 16 - q) as real < s * 1000.0
  {
    assert 15 * p < p * 16 - q < 16 * p;
    assert (15 * p) as real == 15.0 * p as real && (16 * p) as real == 16.0 * p as real;
  }

  lemma MulAtLeast(q: nat, f: nat, k: nat)
    requires f >= k
    ensures q * f >= q * k
  {
  }

  lemma Pow2Small()
    ensures Pow2(4) == 16 && Pow2(5) == 32 && Pow2(50) >= 1000
  {
    assert Pow2(1) == 2 && Pow2(2) == 4 && Pow2(3) == 8;
    Pow2Ten();
    Pow2Add(40, 10);
  }

  lemma ScaleSmall()
    ensures Scale(2) == 100.0 && Scale(3) == 1000.0 && Scale(0) == 1.0
  {
    assert Scale(1) == 10.0;
  }

  lemma UnderflowRange()
    requires 6.5 < Ratio(107) < 15.0
    ensures Scale(-324) < UNDERFLOW < Scale(-323)
  {
    hide Scale, Pow2, Ratio;
    RatioIs(107);
    Pow2Small();
    Pow2Add(1070, 5);
    ScaleAdd(321, 2);
    ScaleAdd(321, 3);
    ScaleAdd(324, -324);
    ScaleAdd(323, -323);
    ScaleSmall();
    RatioWithin(Pow2(1070) as real, Ratio(107), Scale(321));
    var p := Pow2(1075) as real;
    assert p == 32.0 * Pow2(1070) as real;
    assert Scale(323) < p < Scale(324);
    InverseAbove(p, Scale(324), Scale(-324));
    InverseBelow(Scale(323), p, Scale(-323));
  }

  lemma InverseAbove(x: real, y: real, z: real)
    requires 0.0 < x < y && y * z == 1.0 && z > 0.0
    ensures z < 1.0 / x
  {
    Compare(1.0, x, z);
    MulLess(x, y, z);
  }

  lemma InverseBelow(x: real, y: real, z: real)
    requires 0.0 < x < y && x * z == 1.0 && z > 0.0
    ensures 1.0 / y < z
  {
    Compare(1.0, y, z);
    MulLess(x, y, z);
  }
}
