/** Roman numerals and letters as numbers: the printers and the parsers that read them back. */
module Numerals {
  import opened Wrappers

  const MAX_INT64: int := 0x7FFF_FFFF_FFFF_FFFF

  const MODULUS: int := 0x1_0000_0000_0000_0000

  datatype Symbol = Symbol(value: nat, text: string)

  const SYMBOLS: seq<Symbol> :=
    [Symbol(1000, "M"), Symbol(900, "CM"), Symbol(500, "D"), Symbol(400, "CD"), Symbol(100, "C"), Symbol(90, "XC"),
     Symbol(50, "L"),
     Symbol(40, "XL"), Symbol(10, "X"), Symbol(9, "IX"), Symbol(5, "V"), Symbol(4, "IV"), Symbol(1, "I")]

  /** The first symbol of a number's numeral: the greatest that is no more than it. */
  function Leading(n: nat): (i: nat)
    requires n > 0
    ensures i < |SYMBOLS| && SYMBOLS[i].value <= n && SYMBOLS[i].value > 0
    ensures forall j :: 0 <= j < i ==> SYMBOLS[j].value > n
  {
    if n >= 1000 then 0 else if n >= 900 then 1 else if n >= 500 then 2 else if n >= 400 then 3 else if n >= 100 then 4
    else if n >= 90 then 5 else if n >= 50 then 6 else if n >= 40 then 7 else if n >= 10 then 8 else if n >= 9 then 9
    else if n >= 5 then 10 else if n >= 4 then 11 else 12
  }

  function Roman(n: nat): string {
    if n == 0 then "" else
      var sym := SYMBOLS[Leading(n)];
      sym.text + Roman(n - sym.value)
  }

  function Lower(c: char): char {
    if 'A' <= c <= 'Z' then c - 'A' + 'a' else c
  }

  function Upper(c: char): char {
    if 'a' <= c <= 'z' then c - 'a' + 'A' else c
  }

  function LowerAll(s: string): (r: string)
    ensures |r| == |s| && forall i :: 0 <= i < |s| ==> r[i] == Lower(s[i])
  {
    seq(|s|, i requires 0 <= i < |s| => Lower(s[i]))
  }

  function UpperAll(s: string): (r: string)
    ensures |r| == |s| && forall i :: 0 <= i < |s| ==> r[i] == Upper(s[i])
  {
    seq(|s|, i requires 0 <= i < |s| => Upper(s[i]))
  }

  /** Prints n with the symbols in turn, each as often as it fits. */
  method ToRoman(n: int, upper: bool) returns (r: string)
    ensures var text := if n <= 0 then "" else Roman(n); r == if upper then text else LowerAll(text)
  {
    hide Roman, LowerAll, SYMBOLS;
    if n <= 0 {
      r := "";
      assert LowerAll("") == "";
      return;
    }
    r := "";
    var m := n;
    RomanNone();
    for i := 0 to SYMBOL_COUNT
      invariant 0 <= m <= n && Roman(n) == r + Roman(m) && (i > 0 ==> m < SymbolAt(i - 1).value)
    {
      while m >= SymbolAt(i).value
        invariant 0 <= m <= n && Roman(n) == r + Roman(m) && (i > 0 ==> m < SymbolAt(i - 1).value)
      {
        RomanStep(m, i);
        r := r + SymbolAt(i).text;
        m := m - SymbolAt(i).value;
      }
    }
    if !upper {
      r := LowerAll(r);
    }
  }

  const SYMBOL_COUNT: nat := 13

  function SymbolAt(i: nat): Symbol
    requires i < SYMBOL_COUNT
  {
    SYMBOLS[i]
  }

  lemma RomanNone()
    ensures Roman(0) == "" && forall r: string :: r + "" == r
    ensures SymbolAt(SYMBOL_COUNT - 1).value == 1
  {
  }

  /** A numeral begins with the first symbol that fits. */
  lemma RomanStep(m: nat, i: nat)
    requires i < SYMBOL_COUNT && m >= SymbolAt(i).value && (i > 0 ==> m < SymbolAt(i - 1).value)
    ensures SymbolAt(i).value > 0 && Roman(m) == SymbolAt(i).text + Roman(m - SymbolAt(i).value)
    ensures forall r: string :: r + (SymbolAt(i).text + Roman(m - SymbolAt(i).value)) ==
                              (r + SymbolAt(i).text) + Roman(m - SymbolAt(i).value)
  {
    hide Roman;
    assert SYMBOLS[i].value > 0;
    assert Leading(m) == i;
    RomanIs(m);
  }

  lemma RomanIs(m: nat)
    requires m > 0
    ensures var sym := SYMBOLS[Leading(m)]; Roman(m) == sym.text + Roman(m - sym.value)
  {
  }

  /** The value of a letter of a Roman numeral. */
  function LetterValue(c: char): Option<nat> {
    match c
    case 'I' => Some(1) case 'V' => Some(5) case 'X' => Some(10) case 'L' => Some(50)
    case 'C' => Some(100) case 'D' => Some(500) case 'M' => Some(1000)
    case _ => None
  }

  predicate AllLetters(s: string) {
    forall i :: 0 <= i < |s| ==> LetterValue(s[i]).Some?
  }

  /** A letter before a greater one counts against the sum, read from the left. */
  function FromLeft(s: string): int
    requires AllLetters(s)
  {
    if s == "" then 0
    else
      var v, rest := LetterValue(s[0]).value, s[1..];
      (if rest != "" && LetterValue(rest[0]).value > v then -(v as int) else v) + FromLeft(rest)
  }

  /** The sum read from the right, and the greatest letter before it was last not against it. */
  function FromRight(s: string): (int, nat)
    requires AllLetters(s)
  {
    if s == "" then (0, 0)
    else
      var r, v := FromRight(s[1..]), LetterValue(s[0]).value;
      if v < r.1 then (r.0 - v, r.1) else (r.0 + v, v)
  }

  /** The greatest letter of a number's leading symbol. */
  function LeadingLetter(n: nat): nat {
    if n == 0 then 0 else
      match SYMBOLS[Leading(n)].text
      case "M" => 1000 case "CM" => 1000 case "D" => 500 case "CD" => 500 case "C" => 100 case "XC" => 100
      case "L" => 50 case "XL" => 50 case "X" => 10 case "IX" => 10 case "V" => 5 case "IV" => 5 case _ => 1
  }

  /** What is left of a number after its leading symbol begins with no greater letter. */
  lemma RestIsLess(n: nat)
    requires n > 0
    ensures var text := SYMBOLS[Leading(n)].text;
            text != "" && LetterValue(text[0]).Some?
                && LeadingLetter(n - SYMBOLS[Leading(n)].value) <= LetterValue(text[0]).value
  {
  }

  /** A symbol is a letter, or one and a greater one that it counts against. */
  lemma SymbolLetters(n: nat)
    requires n > 0
    ensures var sym := SYMBOLS[Leading(n)];
            && AllLetters(sym.text)
            && (|sym.text| == 1 ==> LetterValue(sym.text[0]).value == sym.value == LeadingLetter(n))
            && (|sym.text| != 1 ==> |sym.text| == 2 && LetterValue(sym.text[1]).value == LeadingLetter(n)
                                    && LetterValue(sym.text[0]).value + sym.value == LeadingLetter(n)
                                    && LetterValue(sym.text[0]).value < LeadingLetter(n))
  {
  }

  lemma RightStep(c: char, rest: string)
    requires AllLetters(rest) && LetterValue(c).Some?
    ensures AllLetters([c] + rest)
    ensures var r, v := FromRight(rest), LetterValue(c).value;
            FromRight([c] + rest) == if v < r.1 then (r.0 - v, r.1) else (r.0 + v, v)
  {
    hide LetterValue;
    assert ([c] + rest)[1..] == rest;
  }

  lemma LeftStep(c: char, rest: string)
    requires AllLetters(rest) && LetterValue(c).Some?
    ensures AllLetters([c] + rest)
    ensures var v := LetterValue(c).value;
            FromLeft([c] + rest) == (if rest != "" && LetterValue(rest[0]).value > v then -(v as int) else v)
                + FromLeft(rest)
  {
    hide LetterValue;
    assert ([c] + rest)[1..] == rest;
  }

  lemma LetterReads(c: char, rest: string)
    requires AllLetters(rest) && LetterValue(c).Some?
             && (rest != "" ==> LetterValue(rest[0]).value <= LetterValue(c).value)
    requires FromRight(rest).1 <= LetterValue(c).value
    ensures var s, v := [c] + rest, LetterValue(c).value;
            AllLetters(s) && FromLeft(s) == v + FromLeft(rest) && FromRight(s) == (FromRight(rest).0 + v, v)
  {
    hide LetterValue, FromLeft, FromRight;
    RightStep(c, rest);
    LeftStep(c, rest);
  }

  lemma PairReads(c: char, d: char, rest: string)
    requires AllLetters(rest) && LetterValue(c).Some? && LetterValue(d).Some?
             && LetterValue(c).value < LetterValue(d).value
    requires rest != "" ==> LetterValue(rest[0]).value <= LetterValue(d).value
    requires FromRight(rest).1 <= LetterValue(d).value
    ensures var s, v := [c, d] + rest, LetterValue(d).value - LetterValue(c).value;
            AllLetters(s) && FromLeft(s) == v + FromLeft(rest)
                && FromRight(s) == (FromRight(rest).0 + v, LetterValue(d).value)
  {
    hide LetterValue, FromLeft, FromRight;
    LetterReads(d, rest);
    RightStep(c, [d] + rest);
    LeftStep(c, [d] + rest);
    assert [c] + ([d] + rest) == [c, d] + rest;
  }

  /** Both readings of a numeral give the number it was printed from. */
  lemma {:induction false} RomanReads(n: nat)
    ensures var s := Roman(n);
            && AllLetters(s) && FromLeft(s) == n && FromRight(s) == (n, LeadingLetter(n))
            && (n > 0 ==> s != "" && LetterValue(s[0]).value <= LeadingLetter(n))
  {
    if n > 0 {
      var sym := SYMBOLS[Leading(n)];
      var rest := Roman(n - sym.value);
      RomanReads(n - sym.value);
      RestIsLess(n);
      SymbolLetters(n);
      ReadsOn(n, sym, rest, n - sym.value);
    }
  }

  lemma ReadsOn(n: nat, sym: Symbol, rest: string, left: nat)
    requires n > 0 && sym == SYMBOLS[Leading(n)] && left == n - sym.value && Roman(n) == sym.text + rest
    requires AllLetters(sym.text) && sym.text != "" && AllLetters(rest) && FromLeft(rest) == left
             && FromRight(rest) == (left, LeadingLetter(left))
    requires rest != "" ==> LetterValue(rest[0]).value <= LeadingLetter(left)
    requires LeadingLetter(left) <= LetterValue(sym.text[0]).value
    requires |sym.text| == 1 ==> LetterValue(sym.text[0]).value == sym.value == LeadingLetter(n)
    requires |sym.text| != 1 ==> |sym.text| == 2 && LetterValue(sym.text[1]).value == LeadingLetter(n)
                                 && LetterValue(sym.text[0]).value + sym.value == LeadingLetter(n)
                                 && LetterValue(sym.text[0]).value < LeadingLetter(n)
    ensures var s := Roman(n);
            && AllLetters(s) && FromLeft(s) == n && FromRight(s) == (n, LeadingLetter(n))
            && s != "" && LetterValue(s[0]).value <= LeadingLetter(n)
  {
    hide Roman, LeadingLetter, LetterValue, Leading, FromLeft, FromRight;
    if |sym.text| == 1 {
      assert sym.text == [sym.text[0]];
      LetterReads(sym.text[0], rest);
    } else {
      assert sym.text == [sym.text[0], sym.text[1]];
      PairReads(sym.text[0], sym.text[1], rest);
    }
  }

  /** The number of a text that is all letters of Roman numerals, in capitals. */
  method FromRoman(s: string) returns (r: Option<int>)
    ensures r == if AllLetters(s) then Some(FromLeft(s)) else None
  {
    var total := 0;
    assert s[0..] == s;
    for i := 0 to |s|
      invariant AllLetters(s[..i])
      invariant AllLetters(s) ==> FromLeft(s) == total + FromLeft(s[i..])
    {
      var v := LetterValue(s[i]);
      if v.None? {
        return None;
      }
      assert s[i..][1..] == s[i + 1..];
      if i + 1 < |s| {
        var next := LetterValue(s[i + 1]);
        if next.Some? && next.value > v.value {
          total := total - v.value;
          continue;
        }
      }
      total := total + v.value;
    }
    assert s[..|s|] == s;
    r := Some(total);
  }

  /** The number and the length of the Roman numeral, of either case, that a text begins with, if it begins with one. */
  method ParseRoman(s: string) returns (r: Option<(int, nat)>)
    ensures r.None? <==> s == "" || LetterValue(Upper(s[0])).None?
    ensures r.Some? ==>
              && 0 < r.value.1 <= |s| && AllLetters(UpperAll(s[..r.value.1]))
                  && r.value.0 == FromRight(UpperAll(s[..r.value.1])).0
              && (r.value.1 < |s| ==> LetterValue(Upper(s[r.value.1])).None?)
  {
    var i := 0;
    while i < |s| && LetterValue(Upper(s[i])).Some?
      invariant i <= |s| && forall k :: 0 <= k < i ==> LetterValue(Upper(s[k])).Some?
    {
      i := i + 1;
    }
    if i == 0 {
      return None;
    }
    ghost var text := UpperAll(s[..i]);
    var total: int, prev: nat, j := 0, 0, i;
    assert text[i..] == "";
    while j > 0
      invariant 0 <= j <= i && AllLetters(text) && AllLetters(text[j..])
      invariant (total, prev) == FromRight(text[j..])
    {
      j := j - 1;
      var v := LetterValue(Upper(s[j])).value;
      assert text[j..][1..] == text[j + 1..] && text[j] == Upper(s[j]);
      if v < prev {
        total := total - v;
      } else {
        total := total + v;
        prev := v;
      }
    }
    assert text[0..] == text;
    r := Some((total, i));
  }

  lemma CaseOf(text: string)
    requires AllLetters(text)
    ensures UpperAll(text) == text && UpperAll(LowerAll(text)) == text
  {
    hide LetterValue;
    forall i | 0 <= i < |text|
      ensures Upper(text[i]) == text[i] && Upper(Lower(text[i])) == text[i]
    {
      LetterIsCapital(text[i]);
    }
  }

  lemma LetterIsCapital(c: char)
    requires LetterValue(c).Some?
    ensures 'A' <= c <= 'Z'
  {
  }

  /** A numeral in either case is read back, from the left and from the right. */
  lemma RomanRoundTrip(n: nat, upper: bool)
    ensures var s := if upper then Roman(n) else LowerAll(Roman(n));
            && AllLetters(UpperAll(s)) && FromLeft(UpperAll(s)) == n && FromRight(UpperAll(s)).0 == n
                && (n > 0 ==> s != "")
  {
    hide Roman, FromLeft, FromRight, LeadingLetter, LetterValue;
    RomanReads(n);
    CaseOf(Roman(n));
  }

  /** A number in letters: base 26 without a zero. */
  function Letters(n: nat): string {
    if n == 0 then "" else Letters((n - 1) / 26) + ['a' + ((n - 1) % 26) as char]
  }

  predicate IsLetter(c: char) {
    'a' <= c <= 'z'
  }

  /** The number that letters stand for. */
  function LettersValue(s: string): nat {
    if s == "" then 0
    else
      var c := s[|s| - 1];
      26 * LettersValue(s[..|s| - 1]) + if IsLetter(c) then (c - 'a') as nat + 1 else 0
  }

  lemma {:induction false} LettersRead(n: nat)
    ensures LettersValue(Letters(n)) == n && forall i :: 0 <= i < |Letters(n)| ==> IsLetter(Letters(n)[i])
  {
    if n > 0 {
      var rest, c := Letters((n - 1) / 26), 'a' + ((n - 1) % 26) as char;
      LettersRead((n - 1) / 26);
      assert (rest + [c])[..|rest|] == rest;
    }
  }

  lemma {:induction false} LettersPrint(s: string)
    requires forall i :: 0 <= i < |s| ==> IsLetter(s[i])
    ensures Letters(LettersValue(s)) == s
  {
    if s != "" {
      var rest, c := s[..|s| - 1], s[|s| - 1];
      LettersPrint(rest);
      var v, d := LettersValue(rest), (c - 'a') as nat;
      assert (26 * v + d) / 26 == v && (26 * v + d) % 26 == d;
      assert s == rest + [c];
    }
  }

  lemma LettersNone()
    ensures Letters(0) == "" && UpperAll("") == "" && forall s: string :: s + "" == s
  {
  }

  lemma LettersNext(m: nat, low: string)
    ensures Letters(m + 1) + low == Letters(m / 26) + (['a' + (m % 26) as char] + low)
  {
  }

  lemma UpperNext(d: nat, low: string)
    requires d < 26
    ensures UpperAll(['a' + d as char] + low) == ['A' + d as char] + UpperAll(low)
  {
  }

  /** Prints n in letters from a base, a or A. */
  method ToAlphabetic(n: int, capital: bool) returns (r: string)
    ensures var text := if n <= 0 then "" else Letters(n); r == if capital then UpperAll(text) else text
  {
    hide Letters, UpperAll;
    var base := if capital then 'A' else 'a';
    ghost var low := "";
    r := "";
    var m := if n <= 0 then 0 else n;
    ghost var text := if n <= 0 then "" else Letters(n);
    LettersNone();
    while m > 0
      invariant m >= 0 && text == Letters(m) + low && r == if capital then UpperAll(low) else low
    {
      m := m - 1;
      LettersNext(m, low);
      UpperNext(m % 26, low);
      low := ['a' + (m % 26) as char] + low;
      r := [base + (m % 26) as char] + r;
      m := m / 26;
    }
    assert "" + low == low;
  }

  /** A value in 64 bits: it wraps around. */
  function Wrapped(x: int): (r: int)
    ensures -MAX_INT64 - 1 <= r <= MAX_INT64 && (-MAX_INT64 - 1 <= x <= MAX_INT64 ==> r == x)
  {
    (x + MAX_INT64 + 1) % MODULUS - MAX_INT64 - 1
  }

  /** The number of a text that is all lower-case letters, in 64 bits. */
  method FromAlphabetic(s: string) returns (r: Option<int>)
    ensures r.None? <==> exists i :: 0 <= i < |s| && !IsLetter(s[i])
    ensures r.Some? ==> r.value == Wrapped(LettersValue(s))
  {
    var result := 0;
    for i := 0 to |s|
      invariant forall k :: 0 <= k < i ==> IsLetter(s[k])
      invariant result == Wrapped(LettersValue(s[..i]))
    {
      if !IsLetter(s[i]) {
        return None;
      }
      assert s[..i + 1][..i] == s[..i];
      WrapTwice(LettersValue(s[..i]), (s[i] - 'a') as int + 1);
      result := Wrapped(result * 26 + (s[i] - 'a') as int + 1);
    }
    assert s[..|s|] == s;
    r := Some(result);
  }

  /** Wrapping in between does not show in the end. */
  lemma WrapTwice(x: int, d: int)
    ensures Wrapped(Wrapped(x) * 26 + d) == Wrapped(26 * x + d)
  {
    var k := (x + MAX_INT64 + 1) / MODULUS;
    assert Wrapped(x) == x - k * MODULUS;
    ModShift(26 * x + d + MAX_INT64 + 1, 26 * k);
  }

  lemma {:induction false} ModShift(a: int, k: int)
    ensures (a - k * MODULUS) % MODULUS == a % MODULUS
    decreases if k < 0 then -k else k
  {
    if k > 0 {
      ModShift(a, k - 1);
    } else if k < 0 {
      ModShift(a, k + 1);
    }
  }

  /** Letters are read back in either case, and printed back just when their number fits in 64 bits. */
  lemma LettersRoundTrip(n: nat, s: string)
    requires n <= MAX_INT64 && forall i :: 0 <= i < |s| ==> IsLetter(s[i])
    ensures LowerAll(UpperAll(Letters(n))) == Letters(n) == LowerAll(Letters(n))
            && Wrapped(LettersValue(Letters(n))) == n
    ensures var v := Wrapped(LettersValue(s)); (if v <= 0 then "" else Letters(v)) == s <==>
            LettersValue(s) <= MAX_INT64
  {
    LettersRead(n);
    assert LowerAll(UpperAll(Letters(n))) == Letters(n);
    assert LowerAll(Letters(n)) == Letters(n);
    var v := Wrapped(LettersValue(s));
    LettersPrint(s);
    if v > 0 {
      LettersRead(v);
    }
  }

  /** The number and the length of the letters a text begins with, in either case; a number that does
      not fit in 64 bits is the greatest that does. */
  method ParseAlphabetic(s: string) returns (r: Option<(int, nat)>)
    ensures r.None? <==> s == "" || !IsLetter(Lower(s[0]))
    ensures r.Some? ==>
              && 0 < r.value.1 <= |s| && (forall k :: 0 <= k < r.value.1 ==> IsLetter(Lower(s[k])))
              && (r.value.1 < |s| ==> !IsLetter(Lower(s[r.value.1])))
              && r.value.0 == Saturated(LettersValue(LowerAll(s[..r.value.1])))
  {
    var i, result := 0, 0;
    assert LowerAll(s[..0]) == "";
    while i < |s| && IsLetter(Lower(s[i]))
      invariant i <= |s| && (forall k :: 0 <= k < i ==> IsLetter(Lower(s[k])))
                && result == Saturated(LettersValue(LowerAll(s[..i])))
    {
      var digit := (Lower(s[i]) - 'a') as int + 1;
      ghost var low := LowerAll(s[..i + 1]);
      assert low[..i] == LowerAll(s[..i]) && low[i] == Lower(s[i]);
      if result > (MAX_INT64 - digit) / 26 {
        result := MAX_INT64;
      } else {
        result := result * 26 + digit;
      }
      i := i + 1;
    }
    r := if i == 0 then None else Some((result, i));
  }

  function Saturated(n: nat): nat {
    if n > MAX_INT64 then MAX_INT64 else n
  }
}
