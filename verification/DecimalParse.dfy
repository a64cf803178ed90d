/** Parsing a decimal number and rounding it to a precision, in one pass that keeps no more digits
    than the rounding needs. */
module DecimalParse {
  import opened Wrappers
  import opened Rounding

  const MIN_PRECISION: nat := 17
  const MAX_PRECISION: nat := 100
  const MAX_EXP: int := 308
  const MIN_EXP: int := -324
  const MAX_PARSE_EXP: int := 1_000_000_000

  /** A finite decimal number; zero has no sign. */
  datatype Decimal = Decimal(negative: bool, coeff: nat, exponent: int)

  const ZERO := Decimal(false, 0, 0)

  predicate IsDigit(c: char) {
    '0' <= c <= '9'
  }

  predicate AllDigits(s: string) {
    forall i :: 0 <= i < |s| ==> IsDigit(s[i])
  }

  function DigitOf(c: char): nat {
    if IsDigit(c) then (c - '0') as nat else 0
  }

  /** The number some digits spell. */
  function NatOf(digits: string): nat {
    if digits == "" then 0
    else 10 * NatOf(digits[..|digits| - 1]) + DigitOf(digits[|digits| - 1])
  }

  const DIGITS := "0123456789"

  /** A number in decimal. */
  function Written(n: nat): string {
    if n < 10 then [DIGITS[n]] else Written(n / 10) + [DIGITS[n % 10]]
  }

  /** A number is the one its digits spell, behind any zeros. */
  lemma {:induction false} WrittenIs(n: nat, zeros: string)
    requires forall i :: 0 <= i < |zeros| ==> zeros[i] == '0'
    ensures AllDigits(zeros + Written(n)) && NatOf(zeros + Written(n)) == n
  {
    var last := DIGITS[n % 10];
    assert IsDigit(last) && DigitOf(last) == n % 10;
    if n < 10 {
      ZerosAre(zeros);
      NatOfMore(zeros, last);
    } else {
      WrittenIs(n / 10, zeros);
      NatOfMore(zeros + Written(n / 10), last);
      assert zeros + Written(n) == zeros + Written(n / 10) + [last];
    }
  }

  lemma {:induction false} ZerosAre(zeros: string)
    requires forall i :: 0 <= i < |zeros| ==> zeros[i] == '0'
    ensures NatOf(zeros) == 0
  {
    if zeros != "" {
      ZerosAre(zeros[..|zeros| - 1]);
    }
  }

  datatype Exponent = Exponent(letter: char, sign: string, digits: string)

  /** A number as it is written: digits with a point before, among or after them, and an exponent. */
  datatype Spelling = Spelling(sign: string, whole: string, dotted: bool, frac: string, exponent: Option<Exponent>)

  predicate IsSign(s: string) {
    s == "" || s == "+" || s == "-"
  }

  predicate ValidExponent(e: Exponent) {
    (e.letter == 'e' || e.letter == 'E') && IsSign(e.sign) && AllDigits(e.digits) && e.digits != ""
  }

  predicate IsExponent(e: Option<Exponent>) {
    e.Some? ==> ValidExponent(e.value)
  }

  predicate Valid(sp: Spelling) {
    && IsSign(sp.sign) && AllDigits(sp.whole) && AllDigits(sp.frac) && (!sp.dotted ==> sp.frac == "")
    && |sp.whole| + |sp.frac| > 0 && IsExponent(sp.exponent)
  }

  function Mantissa(whole: string, dotted: bool, frac: string): string {
    whole + if dotted then "." + frac else ""
  }

  function ExponentText(e: Option<Exponent>): string {
    if e.None? then "" else [e.value.letter] + e.value.sign + e.value.digits
  }

  function Text(sp: Spelling): string {
    sp.sign + (Mantissa(sp.whole, sp.dotted, sp.frac) + ExponentText(sp.exponent))
  }

  function Signed(sign: string, n: nat): int {
    if sign == "-" then -(n as int) else n
  }

  function ExponentValue(e: Option<Exponent>): int {
    if e.None? then 0 else Signed(e.value.sign, NatOf(e.value.digits))
  }

  function Min(a: int, b: int): int {
    if a < b then a else b
  }

  function Max(a: int, b: int): int {
    if a < b then b else a
  }

  /** An exponent kept within a magnitude of MAX_PARSE_EXP. */
  function Capped(e: int): int {
    Max(Min(e, MAX_PARSE_EXP), -MAX_PARSE_EXP)
  }

  /** The outcome of a number of magnitude y. */
  ghost predicate OutcomeOf(negative: bool, y: real, r: Option<Decimal>) {
    if y >= OVERFLOW then r.None?
    else if y <= UNDERFLOW then r == Some(ZERO)
    else r.Some? && r.value.negative == negative && r.value.coeff > 0 && Magnitude(r.value.coeff, r.value.exponent) == y
  }

  /** m times 10 to the power k, rounded to prec digits, within the range of float64. */
  ghost predicate Outcome(negative: bool, m: nat, k: int, prec: nat, r: Option<Decimal>) {
    if m == 0 then r == Some(ZERO)
    else exists y :: IsRounded(Magnitude(m, k), prec, y) && OutcomeOf(negative, y, r)
  }

  lemma RunUnique(a: string, b: string, c: string, d: string)
    requires AllDigits(a) && AllDigits(c) && a + b == c + d
    requires (b == "" || !IsDigit(b[0])) && (d == "" || !IsDigit(d[0]))
    ensures a == c && b == d
  {
    var s := a + b;
    assert forall i :: 0 <= i < |a| ==> s[i] == a[i];
    assert forall i :: 0 <= i < |c| ==> s[i] == c[i];
    assert b != [] ==> s[|a|] == b[0];
    assert d != [] ==> s[|c|] == d[0];
    assert |a| == |c|;
    assert s[..|a|] == a && s[|a|..] == b && s[..|c|] == c && s[|c|..] == d;
  }

  /** What follows a mantissa does not belong to it. */
  predicate Ends(dotted: bool, rest: string) {
    rest == "" || (!IsDigit(rest[0]) && (rest[0] != '.' || dotted))
  }

  lemma MantissaUnique(w1: string, d1: bool, f1: string, r1: string, w2: string, d2: bool, f2: string, r2: string)
    requires AllDigits(w1) && AllDigits(f1) && (!d1 ==> f1 == "") && Ends(d1, r1)
    requires AllDigits(w2) && AllDigits(f2) && (!d2 ==> f2 == "") && Ends(d2, r2)
    requires Mantissa(w1, d1, f1) + r1 == Mantissa(w2, d2, f2) + r2
    ensures w1 == w2 && d1 == d2 && f1 == f2 && r1 == r2
  {
    var t1, t2 := (if d1 then "." + f1 else "") + r1, (if d2 then "." + f2 else "") + r2;
    assert w1 + t1 == Mantissa(w1, d1, f1) + r1 && w2 + t2 == Mantissa(w2, d2, f2) + r2;
    assert d1 ==> t1[0] == '.';
    assert d2 ==> t2[0] == '.';
    RunUnique(w1, t1, w2, t2);
    if d1 {
      assert t1[1..] == f1 + r1 && t2[1..] == f2 + r2;
      RunUnique(f1, r1, f2, r2);
    } else {
      assert t1 == r1;
    }
  }

  lemma SignUnique(a: string, b: string, c: string, d: string)
    requires IsSign(a) && IsSign(c) && a + b == c + d
    requires (b == "" || (b[0] != '+' && b[0] != '-')) && (d == "" || (d[0] != '+' && d[0] != '-'))
    ensures a == c && b == d
  {
    var s := a + b;
    assert a != "" ==> s[0] == a[0];
    assert c != "" ==> s[0] == c[0];
    assert a == "" && b != "" ==> s[0] == b[0];
    assert c == "" && d != "" ==> s[0] == d[0];
    assert s[|a|..] == b && s[|c|..] == d;
  }

  lemma NatOfMore(digits: string, c: char)
    ensures NatOf(digits + [c]) == 10 * NatOf(digits) + DigitOf(c)
  {
    assert (digits + [c])[..|digits|] == digits;
  }

  /** The parse of a signed exponent, its magnitude capped. */
  method ParseExp(s: string) returns (r: Option<int>)
    ensures forall sign, digits :: IsSign(sign) && AllDigits(digits) && digits != "" && s == sign + digits ==>
              r == Some(Capped(Signed(sign, NatOf(digits))))
    ensures r.Some? ==> exists sign, digits :: IsSign(sign) && AllDigits(digits) && digits != "" && s == sign + digits
  {
    hide NatOf;
    NatOfNone();
    var i, neg := 0, false;
    if i < |s| && (s[i] == '+' || s[i] == '-') {
      neg := s[i] == '-';
      i := i + 1;
    }
    var e, start := 0, i;
    while i < |s| && IsDigit(s[i])
      invariant start <= i <= |s| && AllDigits(s[start..i])
      invariant e == Min(NatOf(s[start..i]), MAX_PARSE_EXP)
    {
      assert s[start..i + 1] == s[start..i] + [s[i]];
      NatOfMore(s[start..i], s[i]);
      e := Min(e * 10 + DigitOf(s[i]), MAX_PARSE_EXP);
      i := i + 1;
    }
    ghost var sign, digits := s[..start], s[start..i];
    forall sg, ds | IsSign(sg) && AllDigits(ds) && ds != "" && s == sg + ds
      ensures sg == sign && ds == s[start..]
    {
      assert s[..start] + s[start..] == s;
      SignUnique(sg, ds, sign, s[start..]);
    }
    if i == start || i != |s| {
      return None;
    }
    assert s == sign + digits;
    r := Some(if neg then -e else e);
  }

  /** The digits kept of a number m, and how many were dropped after them: sticky if some of those were not zero. */
  ghost predicate Kept(digits: string, dropped: nat, sticky: bool, m: nat, prec: nat) {
    var d, p := NatOf(digits), Pow10(dropped);
    && AllDigits(digits) && |digits| <= prec + 1 && (digits != "" ==> digits[0] != '0')
    && d * p <= m < (d + 1) * p && (sticky <==> m != d * p)
    && (dropped > 0 ==> |digits| == prec + 1)
  }

  lemma KeepFirst(prec: nat)
    ensures Kept("", 0, false, 0, prec)
  {
  }

  /** A zero before the first nonzero digit. */
  lemma KeepZero(m: nat, prec: nat, sticky: bool, dropped: nat)
    requires Kept("", dropped, sticky, m, prec)
    ensures dropped == 0 && m == 0 && Kept("", 0, sticky, 10 * m, prec)
  {
  }

  lemma KeepDigit(digits: string, dropped: nat, sticky: bool, m: nat, prec: nat, c: char)
    requires Kept(digits, dropped, sticky, m, prec) && IsDigit(c) && |digits| <= prec && (digits == "" ==> c != '0')
    ensures dropped == 0 && Kept(digits + [c], 0, sticky, 10 * m + DigitOf(c), prec)
  {
    NatOfMore(digits, c);
  }

  lemma DropDigit(digits: string, dropped: nat, sticky: bool, m: nat, prec: nat, c: char)
    requires Kept(digits, dropped, sticky, m, prec) && IsDigit(c) && |digits| == prec + 1
    ensures Kept(digits, dropped + 1, sticky || c != '0', 10 * m + DigitOf(c), prec)
  {
    hide NatOf;
    var d, p := NatOf(digits), Pow10(dropped);
    assert Pow10(dropped + 1) == 10 * p;
    TenTimes(d, p);
    TenTimes(d + 1, p);
    assert DigitOf(c) < 10 && (DigitOf(c) == 0 <==> c == '0');
  }

  lemma TenTimes(d: nat, p: nat)
    ensures d * (10 * p) == 10 * (d * p)
  {
  }

  /** Digits without a leading zero number as many as those of the number they spell. */
  lemma {:induction false} CountDigits(digits: string)
    requires AllDigits(digits) && digits != "" && digits[0] != '0'
    ensures NatOf(digits) > 0 && NumDigits(NatOf(digits)) == |digits|
  {
    var n := |digits| - 1;
    if n > 0 {
      CountDigits(digits[..n]);
      assert NatOf(digits) / 10 == NatOf(digits[..n]);
    } else {
      assert digits[..0] == "";
    }
  }

  /** The coefficient and exponent that stand for m times 10 to the power k in the rounding. */
  ghost predicate StandsFor(c: nat, e: int, m: nat, k: int, prec: nat) {
    c > 0 && m > 0 && forall y :: IsRounded(Magnitude(c, e), prec, y) ==> IsRounded(Magnitude(m, k), prec, y)
  }

  lemma KeptStands(digits: string, dropped: nat, sticky: bool, m: nat, k: int, prec: nat)
    requires Kept(digits, dropped, sticky, m, prec) && digits != ""
    ensures var d := NatOf(digits);
            if sticky then StandsFor(10 * d + 1, k + dropped - 1, m, k, prec) else StandsFor(d, k + dropped, m, k, prec)
  {
    hide IsRounded, Magnitude, Pow10, NumDigits;
    CountDigits(digits);
    var d, s := NatOf(digits), k + dropped;
    Pow10IsScale(dropped);
    MulPositive(d, Pow10(dropped));
    Shifted(d, dropped, k);
    if sticky {
      assert dropped > 0 by { Pow10Zero(); }
      Shifted(d + 1, dropped, k);
      Less(d * Pow10(dropped), m, k);
      Less(m, (d + 1) * Pow10(dropped), k);
      Shifted(d, 1, s - 1);
      Shifted(d + 1, 1, s - 1);
      Pow10One();
      Less(d * 10, 10 * d + 1, s - 1);
      Less(10 * d + 1, (d + 1) * 10, s - 1);
      forall y | IsRounded(Magnitude(10 * d + 1, s - 1), prec, y)
        ensures IsRounded(Magnitude(m, k), prec, y)
      {
        StickyAlike(Magnitude(10 * d + 1, s - 1), Magnitude(m, k), d, s, prec, y);
      }
    }
  }

  lemma Pow10Zero()
    ensures Pow10(0) == 1
  {
  }

  lemma Pow10One()
    ensures Pow10(1) == 10
  {
    assert Pow10(0) == 1;
  }

  lemma MulPositive(a: nat, b: nat)
    requires a > 0 && b > 0
    ensures a * b > 0
  {
  }

  lemma Less(a: int, b: int, k: int)
    requires a < b
    ensures Magnitude(a, k) < Magnitude(b, k)
  {
    hide Scale;
    MulLess(a as real, b as real, Scale(k));
  }

  /** The range of float64 applied to a rounded number. */
  function ResultOf(negative: bool, c: nat, e: int): Option<Decimal> {
    var adj := e + NumDigits(c) - 1;
    if adj > MAX_EXP || (adj == MAX_EXP && Magnitude(c, e) >= OVERFLOW) then None
    else if adj < MIN_EXP || (adj == MIN_EXP && Magnitude(c, e) <= UNDERFLOW) then Some(ZERO)
    else Some(Decimal(negative, c, e))
  }

  lemma ResultRight(negative: bool, c: nat, e: int)
    requires c > 0
    ensures OutcomeOf(negative, Magnitude(c, e), ResultOf(negative, c, e))
  {
    hide Scale, Magnitude, NumDigits, Pow2;
    var adj := e + NumDigits(c) - 1;
    Leading(c, e);
    RangeOfFloat64();
    if adj > MAX_EXP {
      ScaleMonotone(309, adj);
    } else if adj < MAX_EXP {
      ScaleMonotone(adj + 1, 308);
    }
    if adj < MIN_EXP {
      ScaleMonotone(adj + 1, -324);
    } else if adj > MIN_EXP {
      ScaleMonotone(-323, adj);
    }
  }

  /** A number far beyond the range of float64 is out of it when it is rounded. */
  lemma FarOut(negative: bool, c: nat, e: int, prec: nat)
    requires c > 0 && prec > 0
    ensures var adj := e + NumDigits(c) - 1;
            && (adj > MAX_EXP + 1 ==> Rounds(negative, c, e, prec, None))
            && (adj < MIN_EXP - 1 ==> Rounds(negative, c, e, prec, Some(ZERO)))
  {
    hide Scale, Magnitude, NumDigits, IsRounded, Pow2;
    var adj, r := e + NumDigits(c) - 1, RoundTo(c, e, prec);
    var y := Magnitude(r.0, r.1);
    Leading(c, e);
    RoundToRounds(c, e, prec);
    RoundedRange(Magnitude(c, e), prec, y, adj);
    RangeOfFloat64();
    if adj > MAX_EXP + 1 {
      ScaleMonotone(309, adj);
      assert OutcomeOf(negative, y, None);
    }
    if adj < MIN_EXP - 1 {
      ScaleMonotone(adj + 1, -324);
      assert OutcomeOf(negative, y, Some(ZERO)) by { ScaleMonotone(-324, 308); }
    }
  }

  /** c times 10 to the power e rounds to r. */
  ghost predicate Rounds(negative: bool, c: nat, e: int, prec: nat, r: Option<Decimal>) {
    exists y :: IsRounded(Magnitude(c, e), prec, y) && OutcomeOf(negative, y, r)
  }

  lemma RoundedOutcome(negative: bool, c: nat, e: int, prec: nat)
    requires c > 0 && prec > 0
    ensures var z := RoundTo(c, e, prec); Rounds(negative, c, e, prec, ResultOf(negative, z.0, z.1))
  {
    hide IsRounded, Magnitude, NumDigits;
    var z := RoundTo(c, e, prec);
    RoundToRounds(c, e, prec);
    RoundedPositive(c, e, prec);
    ResultRight(negative, z.0, z.1);
  }

  lemma RoundedPositive(c: nat, e: int, prec: nat)
    requires c > 0 && prec > 0
    ensures RoundTo(c, e, prec).0 > 0
  {
    hide Scale, NumDigits, IsRounded;
    var z := RoundTo(c, e, prec);
    RoundToRounds(c, e, prec);
    Leading(c, e);
    RoundedRange(Magnitude(c, e), prec, Magnitude(z.0, z.1), e + NumDigits(c) - 1);
    assert Magnitude(0, z.1) == 0.0;
  }

  /** What stands for a number has its outcome. */
  lemma StandsOutcome(negative: bool, c: nat, e: int, m: nat, k: int, prec: nat, r: Option<Decimal>)
    requires StandsFor(c, e, m, k, prec) && Rounds(negative, c, e, prec, r)
    ensures Outcome(negative, m, k, prec, r)
  {
    hide IsRounded, Magnitude, OutcomeOf;
  }

  /** Where a scan is in the text: s from start to i is a mantissa, whose digits those kept stand for. */
  ghost predicate Scanned(s: string, start: nat, i: nat, whole: string, dotted: bool, frac: string, digit: bool,
                          digits: string, scale: int, dropped: nat, sticky: bool, prec: nat) {
    && start <= i <= |s| && s[start..i] == Mantissa(whole, dotted, frac)
    && AllDigits(whole) && AllDigits(frac) && (!dotted ==> frac == "") && (digit <==> |whole| + |frac| > 0)
    && Kept(digits, dropped, sticky, NatOf(whole + frac), prec) && scale == dropped - |frac|
  }

  lemma ScannedDigit(whole: string, dotted: bool, frac: string, c: char)
    requires (!dotted ==> frac == "") && IsDigit(c) && AllDigits(whole) && AllDigits(frac)
    ensures var w, f := if dotted then whole else whole + [c], if dotted then frac + [c] else frac;
            && Mantissa(w, dotted, f) == Mantissa(whole, dotted, frac) + [c] && AllDigits(w) && AllDigits(f)
            && NatOf(w + f) == 10 * NatOf(whole + frac) + DigitOf(c)
  {
    hide NatOf;
    NatOfMore(whole + frac, c);
    if dotted {
      assert whole + (frac + [c]) == (whole + frac) + [c];
    } else {
      assert whole + [c] + frac == (whole + frac) + [c];
    }
  }

  /** The scan of a mantissa: its parts, and the digits that matter to the rounding. */
  method Scan(s: string, start: nat, prec: nat)
    returns (i: nat, digits: string, scale: int, sticky: bool, digit: bool, ghost whole: string, ghost dot: bool,
             ghost frac: string, ghost dropped: nat)
    requires start <= |s|
    ensures Scanned(s, start, i, whole, dot, frac, digit, digits, scale, dropped, sticky, prec) && Ends(dot, s[i..])
  {
    hide Kept, NatOf, Scanned, AllDigits, Mantissa;
    var dotted := false;
    i, digits, scale, sticky, digit := start, "", 0, false, false;
    whole, frac, dropped := "", "", 0;
    ScanBegun(s, start, prec);
    while i < |s| && (IsDigit(s[i]) || (s[i] == '.' && !dotted))
      invariant i <= |s| && Scanned(s, start, i, whole, dotted, frac, digit, digits, scale, dropped, sticky, prec)
      decreases |s| - i
    {
      var c := s[i];
      ScanParts(s, start, i, whole, dotted, frac, digit, digits, scale, dropped, sticky, prec);
      ghost var m, digits0, scale0, dropped0, sticky0 := NatOf(whole + frac), digits, scale, dropped, sticky;
      if c == '.' {
        ScanPoint(s, start, i, whole, digit, digits, scale, dropped, sticky, prec);
        dotted, i := true, i + 1;
        continue;
      }
      KeptLength(digits, dropped, sticky, m, prec);
      if digits == "" && c == '0' {
        KeepZero(m, prec, sticky, dropped);
        scale := if dotted then scale - 1 else scale;
      } else if |digits| <= prec {
        KeepDigit(digits, dropped, sticky, m, prec, c);
        scale := if dotted then scale - 1 else scale;
        digits := digits + [c];
      } else {
        DropDigit(digits, dropped, sticky, m, prec, c);
        sticky := sticky || c != '0';
        scale := if dotted then scale else scale + 1;
        dropped := dropped + 1;
      }
      ScanNext(s, start, i, whole, dotted, frac, digit, digits0, scale0, dropped0, sticky0, prec, digits, scale,
               dropped, sticky);
      whole, frac := if dotted then whole else whole + [c], if dotted then frac + [c] else frac;
      digit, i := true, i + 1;
    }
    dot := dotted;
  }

  lemma ScanBegun(s: string, start: nat, prec: nat)
    requires start <= |s|
    ensures Scanned(s, start, start, "", false, "", false, "", 0, 0, false, prec)
  {
    KeepFirst(prec);
    assert "" + "" == "";
  }

  lemma ScanPoint(s: string, start: nat, i: nat, whole: string, digit: bool, digits: string, scale: int, dropped: nat,
                  sticky: bool, prec: nat)
    requires i < |s| && s[i] == '.'
             && Scanned(s, start, i, whole, false, "", digit, digits, scale, dropped, sticky, prec)
    ensures Scanned(s, start, i + 1, whole, true, "", digit, digits, scale, dropped, sticky, prec)
  {
    hide Kept, NatOf;
    assert s[start..i + 1] == s[start..i] + ".";
    assert Mantissa(whole, true, "") == Mantissa(whole, false, "") + ".";
  }

  lemma ScanNext(s: string, start: nat, i: nat, whole: string, dotted: bool, frac: string, digit: bool, digits: string,
                 scale: int,
                 dropped: nat, sticky: bool, prec: nat, digits': string, scale': int, dropped': nat, sticky': bool)
    requires i < |s| && IsDigit(s[i])
             && Scanned(s, start, i, whole, dotted, frac, digit, digits, scale, dropped, sticky, prec)
    requires Kept(digits', dropped', sticky', 10 * NatOf(whole + frac) + DigitOf(s[i]), prec)
    requires scale' - scale == dropped' - dropped - if dotted then 1 else 0
    ensures var w, f := if dotted then whole else whole + [s[i]], if dotted then frac + [s[i]] else frac;
            Scanned(s, start, i + 1, w, dotted, f, true, digits', scale', dropped', sticky', prec)
  {
    hide Kept, NatOf, Mantissa;
    assert s[start..i + 1] == s[start..i] + [s[i]];
    ScannedDigit(whole, dotted, frac, s[i]);
  }

  lemma NatOfNone()
    ensures NatOf("") == 0
  {
  }

  lemma KeptLength(digits: string, dropped: nat, sticky: bool, m: nat, prec: nat)
    requires Kept(digits, dropped, sticky, m, prec)
    ensures |digits| <= prec + 1 && (digits == "" ==> dropped == 0) && (|digits| <= prec ==> dropped == 0)
  {
  }

  /** The outcome of a text that is a number, whose exponent is capped. */
  ghost predicate ParsedAs(sp: Spelling, prec: nat, r: Option<Decimal>) {
    Outcome(sp.sign == "-", NatOf(sp.whole + sp.frac), Capped(ExponentValue(sp.exponent)) - |sp.frac|, prec, r)
  }

  /** The outcome of a text that is a number, with its exponent as it is written. */
  ghost predicate Exactly(sp: Spelling, prec: nat, r: Option<Decimal>) {
    Outcome(sp.sign == "-", NatOf(sp.whole + sp.frac), ExponentValue(sp.exponent) - |sp.frac|, prec, r)
  }

  /** However a text is read as a number, it is read as the scan reads it. */
  lemma ReadAs(s: string, sign: string, start: nat, i: nat, whole: string, dotted: bool, frac: string, sp: Spelling)
    requires start <= i <= |s| && s[..start] == sign && IsSign(sign) && s[start..i] == Mantissa(whole, dotted, frac)
    requires sign != "" || start == |s| || (s[start] != '+' && s[start] != '-')
    requires AllDigits(whole) && AllDigits(frac) && (!dotted ==> frac == "") && Ends(dotted, s[i..])
    requires Valid(sp) && Text(sp) == s
    ensures sp.sign == sign && sp.whole == whole && sp.dotted == dotted && sp.frac == frac
            && ExponentText(sp.exponent) == s[i..]
  {
    hide Mantissa, ExponentText, Valid;
    ValidParts(sp);
    BodyBegins(sp);
    SignRead(s, sign, start, sp.sign, Mantissa(sp.whole, sp.dotted, sp.frac) + ExponentText(sp.exponent));
    assert s[start..] == s[start..i] + s[i..];
    MantissaUnique(sp.whole, sp.dotted, sp.frac, ExponentText(sp.exponent), whole, dotted, frac, s[i..]);
  }

  lemma ValidParts(sp: Spelling)
    requires Valid(sp)
    ensures IsSign(sp.sign) && AllDigits(sp.whole) && AllDigits(sp.frac) && (!sp.dotted ==> sp.frac == "")
  {
  }

  lemma SignRead(s: string, sign: string, start: nat, other: string, body: string)
    requires start <= |s| && s[..start] == sign && IsSign(sign) && IsSign(other) && s == other + body
    requires sign != "" || start == |s| || (s[start] != '+' && s[start] != '-')
    requires body != "" && body[0] != '+' && body[0] != '-'
    ensures other == sign && body == s[start..]
  {
    assert s == s[..start] + s[start..];
    assert s[0] == if other == "" then body[0] else other[0];
    assert sign != "" ==> s[0] == sign[0];
    assert other == sign;
    assert s[|other|..] == body;
  }

  lemma BodyBegins(sp: Spelling)
    requires Valid(sp)
    ensures var body := Mantissa(sp.whole, sp.dotted, sp.frac) + ExponentText(sp.exponent);
            body != "" && body[0] != '+' && body[0] != '-'
    ensures Ends(sp.dotted, ExponentText(sp.exponent))
  {
    if sp.whole != "" {
      assert (Mantissa(sp.whole, sp.dotted, sp.frac) + ExponentText(sp.exponent))[0] == sp.whole[0];
    } else {
      assert (Mantissa(sp.whole, sp.dotted, sp.frac) + ExponentText(sp.exponent))[0] == '.';
    }
  }

  /** A text is read with this sign, mantissa and what follows. */
  ghost predicate ReadHere(sp: Spelling, sign: string, whole: string, dotted: bool, frac: string, rest: string) {
    sp.sign == sign && sp.whole == whole && sp.dotted == dotted && sp.frac == frac && ExponentText(sp.exponent) == rest
  }

  lemma ScanParts(s: string, start: nat, i: nat, whole: string, dotted: bool, frac: string, digit: bool,
                  digits: string, scale: int, dropped: nat, sticky: bool, prec: nat)
    requires Scanned(s, start, i, whole, dotted, frac, digit, digits, scale, dropped, sticky, prec)
    ensures start <= i <= |s| && s[start..i] == Mantissa(whole, dotted, frac) && AllDigits(whole) && AllDigits(frac)
    ensures (!dotted ==> frac == "") && (digit <==> |whole| + |frac| > 0) && scale == dropped - |frac|
    ensures Kept(digits, dropped, sticky, NatOf(whole + frac), prec)
  {
  }

  /** Rounds what some digits spell, times 10 to the power scale, within the range of float64. */
  method Round(neg: bool, digits: string, scale: int, prec: nat) returns (r: Option<Decimal>)
    requires AllDigits(digits) && digits != "" && digits[0] != '0' && |digits| <= prec + 2
    requires MIN_PRECISION <= prec <= MAX_PRECISION
    ensures Rounds(neg, NatOf(digits), scale, prec, r)
  {
    hide Rounds, NumDigits, RoundTo, NatOf;
    CountDigits(digits);
    FarOut(neg, NatOf(digits), scale, prec);
    var near := Max(Min(scale, 2 * MAX_PARSE_EXP), -2 * MAX_PARSE_EXP);
    var adj := near + |digits| - 1;
    if adj > MAX_EXP + 1 {
      return None;
    } else if adj < MIN_EXP - 1 {
      return Some(ZERO);
    }
    RoundedOutcome(neg, NatOf(digits), near, prec);
    var z := RoundTo(NatOf(digits), near, prec);
    r := ResultOf(neg, z.0, z.1);
  }

  /** The parse of s, rounded to prec digits: it fails on what is not a number, and on overflow. */
  method Parse(s: string, prec: nat) returns (r: Option<Decimal>)
    requires MIN_PRECISION <= prec <= MAX_PRECISION
    ensures forall sp :: Valid(sp) && Text(sp) == s ==>
              ParsedAs(sp, prec, r) && (Exactly(sp, prec, r) <==> CapHidden(sp, prec))
    ensures r.Some? ==> exists sp :: Valid(sp) && Text(sp) == s
  {
    hide Kept, NatOf, Outcome, Scanned, Mantissa, ExponentText, IsExponent, Text, AllDigits, Ends;
    var start, neg := 0, false;
    if start < |s| && (s[start] == '+' || s[start] == '-') {
      neg := s[start] == '-';
      start := 1;
    }
    var i, digits, scale, sticky, digit;
    ghost var whole, dot, frac, dropped;
    i, digits, scale, sticky, digit, whole, dot, frac, dropped := Scan(s, start, prec);
    ghost var m := NatOf(whole + frac);
    ScanParts(s, start, i, whole, dot, frac, digit, digits, scale, dropped, sticky, prec);
    forall sp | Valid(sp) && Text(sp) == s
      ensures ReadHere(sp, s[..start], whole, dot, frac, s[i..])
    {
      ReadAs(s, s[..start], start, i, whole, dot, frac, sp);
    }
    if !digit {
      return None;
    }
    var e := ParseExponent(s[i..]);
    if e.None? {
      return None;
    }
    r := Finish(neg, digits, scale + e.value, sticky, prec, m, dropped, e.value - |frac|);
    forall sp | Valid(sp) && Text(sp) == s
      ensures ParsedAs(sp, prec, r) && (Exactly(sp, prec, r) <==> CapHidden(sp, prec))
    {
      assert ReadHere(sp, s[..start], whole, dot, frac, s[i..]);
      CapOutcome(sp, prec, r);
    }
    ghost var exponent :| IsExponent(exponent) && ExponentText(exponent) == s[i..];
    Spelled(s, start, i, whole, dot, frac, exponent);
  }

  /** The exponent after a mantissa, if there is one, capped. */
  method ParseExponent(rest: string) returns (r: Option<int>)
    ensures forall e :: IsExponent(e) && ExponentText(e) == rest ==> r == Some(Capped(ExponentValue(e)))
    ensures r.Some? ==> exists e :: IsExponent(e) && ExponentText(e) == rest
  {
    hide NatOf;
    forall e | IsExponent(e) && ExponentText(e) == rest
      ensures ExponentRead(e, rest)
    {
      if e.Some? {
        assert rest == [e.value.letter] + (e.value.sign + e.value.digits);
      }
    }
    if rest == "" {
      assert ExponentText(None) == rest;
      return Some(0);
    }
    if rest[0] != 'e' && rest[0] != 'E' {
      return None;
    }
    r := ParseExp(rest[1..]);
    if r.Some? {
      ghost var sign, digits :| IsSign(sign) && AllDigits(digits) && digits != "" && rest[1..] == sign + digits;
      assert rest == [rest[0]] + sign + digits;
      assert ExponentText(Some(Exponent(rest[0], sign, digits))) == rest;
    }
  }

  ghost predicate ExponentRead(e: Option<Exponent>, rest: string) {
    if rest == "" then e.None?
    else e.Some? && rest[0] == e.value.letter && (rest[0] == 'e' || rest[0] == 'E')
         && rest[1..] == e.value.sign + e.value.digits
  }

  lemma Spelled(s: string, start: nat, i: nat, whole: string, dotted: bool, frac: string, exponent: Option<Exponent>)
    requires start <= i <= |s| && IsSign(s[..start]) && s[start..i] == Mantissa(whole, dotted, frac)
             && AllDigits(whole) && AllDigits(frac)
    requires (!dotted ==> frac == "") && |whole| + |frac| > 0 && IsExponent(exponent)
    requires ExponentText(exponent) == s[i..]
    ensures var sp := Spelling(s[..start], whole, dotted, frac, exponent); Valid(sp) && Text(sp) == s
  {
    hide Mantissa, ExponentText, IsExponent;
    assert s == s[..start] + (s[start..i] + s[i..]);
  }

  /** The end of a parse, once the digits kept and the exponent are known. */
  method Finish(neg: bool, digits: string, scale: int, sticky: bool, prec: nat, ghost m: nat, ghost dropped: nat,
                ghost k: int)
    returns (r: Option<Decimal>)
    requires Kept(digits, dropped, sticky, m, prec) && scale == dropped + k && MIN_PRECISION <= prec <= MAX_PRECISION
    ensures Outcome(neg, m, k, prec, r)
  {
    hide NatOf, Rounds, StandsFor;
    if digits == "" {
      NatOfNone();
      return Some(ZERO);
    }
    KeptStands(digits, dropped, sticky, m, k, prec);
    if sticky {
      NatOfMore(digits, '1');
      r := Round(neg, digits + "1", scale - 1, prec);
      StandsOutcome(neg, NatOf(digits + "1"), scale - 1, m, k, prec, r);
    } else {
      r := Round(neg, digits, scale, prec);
      StandsOutcome(neg, NatOf(digits), scale, m, k, prec, r);
    }
  }

  /** m times 10 to the power k, rounded to prec digits. */
  function Rounded(m: nat, k: int, prec: nat): real
    requires prec > 0
  {
    Magnitude(RoundTo(m, k, prec).0, RoundTo(m, k, prec).1)
  }

  /** An outcome is that of the rounded number. */
  lemma OutcomeIs(negative: bool, m: nat, k: int, prec: nat, r: Option<Decimal>)
    requires m > 0 && prec > 0
    ensures Outcome(negative, m, k, prec, r) <==> OutcomeOf(negative, Rounded(m, k, prec), r)
  {
    hide IsRounded, Magnitude, RoundTo, OutcomeOf;
    RoundToRounds(m, k, prec);
    if Outcome(negative, m, k, prec, r) {
      var y :| IsRounded(Magnitude(m, k), prec, y) && OutcomeOf(negative, y, r);
      RoundedUnique(Magnitude(m, k), prec, y, Rounded(m, k, prec));
    }
  }

  /** Rounding commutes with scaling by a power of ten, so the rounded number grows with the exponent. */
  lemma RoundedGrows(m: nat, k: int, l: int, prec: nat)
    requires m > 0 && prec > 0 && k < l
    ensures Rounded(m, l, prec) == Rounded(m, k, prec) * Scale(l - k)
    ensures 0.0 < Rounded(m, k, prec) < Rounded(m, l, prec)
  {
    hide Scale, RoundDiv, NumDigits, Pow10;
    var z, d := RoundTo(m, k, prec), l - k;
    RoundedPositive(m, k, prec);
    assert RoundTo(m, l, prec) == (z.0, z.1 + d);
    ScaleAdd(z.1, d);
    ProductOf(z.0 as real, Scale(z.1), Scale(d));
    ScaleMonotone(z.1, z.1 + d);
    MulLess(Scale(z.1), Scale(z.1 + d), z.0 as real);
    MulLess(0.0, z.0 as real, Scale(z.1));
  }

  lemma ProductOf(a: real, b: real, c: real)
    ensures a * (b * c) == (a * b) * c
  {
  }

  predicate Overflows(m: nat, k: int, prec: nat)
    requires prec > 0
  {
    Rounded(m, k, prec) >= OVERFLOW
  }

  predicate Vanishes(m: nat, k: int, prec: nat)
    requires prec > 0
  {
    Rounded(m, k, prec) <= UNDERFLOW
  }

  /** Two exponents give one outcome exactly when the smaller is too large already, or the larger too small. */
  lemma OneOutcome(negative: bool, m: nat, k: int, l: int, prec: nat, r: Option<Decimal>)
    requires m > 0 && prec > 0 && k < l
    ensures Overflows(m, k, prec) || Vanishes(m, l, prec) ==>
              (Outcome(negative, m, k, prec, r) <==> Outcome(negative, m, l, prec, r))
    ensures Outcome(negative, m, k, prec, r) && Outcome(negative, m, l, prec, r) ==>
              Overflows(m, k, prec) || Vanishes(m, l, prec)
  {
    hide Rounded, Outcome, Magnitude, Scale;
    OutcomeIs(negative, m, k, prec, r);
    OutcomeIs(negative, m, l, prec, r);
    RoundedGrows(m, k, l, prec);
    UnderOver();
  }

  lemma UnderOver()
    ensures UNDERFLOW < OVERFLOW
  {
    hide Scale, Pow2;
    RangeOfFloat64();
    ScaleMonotone(-323, 308);
  }

  /** Capping the exponent does not show: the digits are zero, or it is within the cap, or the number overflows at
      the smaller of the two exponents, or vanishes at the larger. */
  predicate CapHidden(sp: Spelling, prec: nat)
    requires prec > 0
  {
    var m, e := NatOf(sp.whole + sp.frac), ExponentValue(sp.exponent);
    || m == 0 || Capped(e) == e
    || Overflows(m, Min(Capped(e), e) - |sp.frac|, prec) || Vanishes(m, Max(Capped(e), e) - |sp.frac|, prec)
  }

  lemma CapOutcome(sp: Spelling, prec: nat, r: Option<Decimal>)
    requires prec > 0
    ensures CapHidden(sp, prec) ==> (ParsedAs(sp, prec, r) <==> Exactly(sp, prec, r))
    ensures ParsedAs(sp, prec, r) ==> (Exactly(sp, prec, r) <==> CapHidden(sp, prec))
  {
    hide NatOf, Outcome, Overflows, Vanishes;
    var m, e := NatOf(sp.whole + sp.frac), ExponentValue(sp.exponent);
    var lo, hi := Min(Capped(e), e) - |sp.frac|, Max(Capped(e), e) - |sp.frac|;
    if m == 0 {
      ZeroOutcome(sp.sign == "-", e - |sp.frac|, Capped(e) - |sp.frac|, prec, r);
    } else if Capped(e) != e {
      OneOutcome(sp.sign == "-", m, lo, hi, prec, r);
    }
  }

  lemma HasOutcome(negative: bool, m: nat, k: int, prec: nat)
    requires prec > 0
    ensures exists r :: Outcome(negative, m, k, prec, r)
  {
    hide IsRounded, Magnitude, OutcomeOf, RoundTo;
    if m == 0 {
      assert Outcome(negative, m, k, prec, Some(ZERO));
    } else {
      RoundedOutcome(negative, m, k, prec);
      var z := RoundTo(m, k, prec);
      assert Outcome(negative, m, k, prec, ResultOf(negative, z.0, z.1));
    }
  }

  /** Capping the exponent of a number keeps its outcome if and only if it is hidden. */
  lemma CapExactly(sp: Spelling, prec: nat)
    requires prec > 0
    ensures (forall r :: ParsedAs(sp, prec, r) <==> Exactly(sp, prec, r)) <==> CapHidden(sp, prec)
  {
    hide NatOf, Outcome, CapHidden;
    forall r
      ensures CapHidden(sp, prec) ==> (ParsedAs(sp, prec, r) <==> Exactly(sp, prec, r))
      ensures ParsedAs(sp, prec, r) ==> (Exactly(sp, prec, r) <==> CapHidden(sp, prec))
    {
      CapOutcome(sp, prec, r);
    }
    HasOutcome(sp.sign == "-", NatOf(sp.whole + sp.frac), Capped(ExponentValue(sp.exponent)) - |sp.frac|, prec);
    var r :| Outcome(sp.sign == "-", NatOf(sp.whole + sp.frac), Capped(ExponentValue(sp.exponent)) - |sp.frac|, prec,
                     r);
    assert ParsedAs(sp, prec, r);
  }

  lemma FarRounded(m: nat, k: int, prec: nat)
    requires m > 0 && prec > 0
    ensures k + NumDigits(m) - 1 > MAX_EXP + 1 ==> Overflows(m, k, prec)
    ensures k + NumDigits(m) - 1 < MIN_EXP - 1 ==> Vanishes(m, k, prec)
  {
    hide IsRounded, Magnitude, NumDigits, Rounded;
    FarOut(false, m, k, prec);
    RoundToRounds(m, k, prec);
    if k + NumDigits(m) - 1 > MAX_EXP + 1 {
      assert Outcome(false, m, k, prec, None);
      OutcomeIs(false, m, k, prec, None);
    }
    if k + NumDigits(m) - 1 < MIN_EXP - 1 {
      assert Outcome(false, m, k, prec, Some(ZERO));
      OutcomeIs(false, m, k, prec, Some(ZERO));
      UnderOver();
    }
  }

  lemma {:induction false} DigitsAtMost(digits: string)
    ensures NatOf(digits) > 0 ==> NumDigits(NatOf(digits)) <= |digits|
  {
    if digits != "" {
      var n := |digits| - 1;
      DigitsAtMost(digits[..n]);
      assert NatOf(digits) / 10 == NatOf(digits[..n]);
    }
  }

  /** It is hidden, whatever the exponent, in a text shorter than the cap by more than the range of float64. */
  lemma CapHarmless(sp: Spelling, prec: nat)
    requires Valid(sp) && prec > 0 && |Text(sp)| + 400 <= MAX_PARSE_EXP
    ensures CapHidden(sp, prec)
  {
    hide NatOf, NumDigits, Overflows, Vanishes;
    var m, e := NatOf(sp.whole + sp.frac), ExponentValue(sp.exponent);
    if m > 0 && Capped(e) != e {
      DigitsAtMost(sp.whole + sp.frac);
      assert |sp.whole| + |sp.frac| <= |Text(sp)|;
      FarRounded(m, Min(Capped(e), e) - |sp.frac|, prec);
      FarRounded(m, Max(Capped(e), e) - |sp.frac|, prec);
    }
  }

  lemma ZeroOutcome(negative: bool, k: int, l: int, prec: nat, r: Option<Decimal>)
    ensures Outcome(negative, 0, k, prec, r) <==> Outcome(negative, 0, l, prec, r)
  {
  }

  lemma {:induction false} NatOfZeros(zeros: string)
    requires forall i :: 0 <= i < |zeros| ==> zeros[i] == '0'
    ensures NatOf(zeros) == 0
  {
    if zeros != "" {
      NatOfZeros(zeros[..|zeros| - 1]);
    }
  }

  /** 0.0...01e and digits. */
  function LateOne(zeros: string, digits: string): Spelling {
    Spelling("", "0", true, zeros + "1", Some(Exponent('e', "", digits)))
  }

  lemma LateOneIs(zeros: string, digits: string)
    requires (forall i :: 0 <= i < |zeros| ==> zeros[i] == '0') && AllDigits(digits) && digits != ""
    ensures var sp := LateOne(zeros, digits);
            && Valid(sp) && NatOf(sp.whole + sp.frac) == 1 && |sp.frac| == |zeros| + 1
            && ExponentValue(sp.exponent) == NatOf(digits) && sp.sign != "-"
  {
    hide NatOf;
    NatOfZeros("0" + zeros);
    NatOfMore("0" + zeros, '1');
    assert "0" + (zeros + "1") == ("0" + zeros) + "1";
  }

  /** In a longer text it can show: a one behind as many zeros as the cap, with an exponent that lifts it
      out of the range of float64, is parsed as 0.1. */
  lemma CapShows(zeros: string, digits: string, prec: nat, r: Option<Decimal>)
    requires |zeros| == MAX_PARSE_EXP && (forall i :: 0 <= i < |zeros| ==> zeros[i] == '0')
    requires AllDigits(digits) && digits != "" && NatOf(digits) > MAX_PARSE_EXP + 400 && MIN_PRECISION <= prec
    ensures var sp := LateOne(zeros, digits);
            && Valid(sp) && !CapHidden(sp, prec)
            && (ParsedAs(sp, prec, r) ==> r.Some?) && (Exactly(sp, prec, r) <==> r.None?)
  {
    hide NatOf, Outcome, NumDigits, Rounded, LateOne, AllDigits, Valid, ExponentValue;
    LateOneIs(zeros, digits);
    OneDigit();
    LiftedOne(NatOf(digits) - |zeros| - 1, prec, r);
  }

  lemma LiftedOne(k: int, prec: nat, r: Option<Decimal>)
    requires k > 398 && prec > 0
    ensures UNDERFLOW < Rounded(1, -1, prec) < OVERFLOW <= Rounded(1, k, prec)
    ensures Outcome(false, 1, k, prec, r) <==> r.None?
    ensures Outcome(false, 1, -1, prec, r) ==> r.Some?
  {
    hide Outcome, NumDigits, Rounded, Pow2;
    OneDigit();
    FarRounded(1, k, prec);
    OutcomeIs(false, 1, k, prec, r);
    TenthInRange(prec);
    OutcomeIs(false, 1, -1, prec, r);
  }

  lemma OneDigit()
    ensures NumDigits(1) == 1
  {
  }

  lemma TenthInRange(prec: nat)
    requires prec > 0
    ensures UNDERFLOW < Rounded(1, -1, prec) < OVERFLOW
  {
    hide IsRounded, Magnitude, NumDigits, Pow2, Scale;
    Leading(1, -1);
    OneDigit();
    RoundToRounds(1, -1, prec);
    RoundedRange(Magnitude(1, -1), prec, Rounded(1, -1, prec), -1);
    RangeOfFloat64();
    ScaleMonotone(0, 308);
    ScaleMonotone(-323, -1);
  }
}
