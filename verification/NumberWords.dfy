/** Whole numbers in English words, cardinal or ordinal and in any case, and reading them back. */
module NumberWords {
  import opened Wrappers
  import opened Numerals

  const ONES: seq<string> :=
    ["", "one", "two", "three", "four", "five", "six", "seven", "eight", "nine", "ten", "eleven", "twelve", "thirteen",
     "fourteen",
     "fifteen", "sixteen", "seventeen", "eighteen", "nineteen"]

  const TENS: seq<string> := ["", "", "twenty", "thirty", "forty", "fifty", "sixty", "seventy", "eighty", "ninety"]

  function One(n: nat): string
    requires n < 20
  {
    ONES[n]
  }

  function Ten(n: nat): string
    requires n < 10
  {
    TENS[n]
  }

  /** Below a thousand. */
  function BelowThousand(n: nat): string
    requires n < 1000
  {
    if n == 0 then ""
    else if n < 20 then One(n)
    else if n < 100 then if n % 10 == 0 then Ten(n / 10) else Ten(n / 10) + "-" + One(n % 10)
    else if n % 100 == 0 then One(n / 100) + " hundred"
    else One(n / 100) + " hundred and " + BelowThousand(n % 100)
  }

  datatype Scale = Scale(name: string, value: nat)

  /** The greatest scale that is no more than a number. */
  function ScaleOf(n: nat): (s: Scale)
    requires n >= 1000
    ensures s.value <= n && s.value >= 1000 && s.value % 1000 == 0
    ensures n < 1_000_000_000_000_000 ==> n / s.value < 1000
  {
    if n >= 1_000_000_000_000 then Scale("trillion", 1_000_000_000_000)
    else if n >= 1_000_000_000 then Scale("billion", 1_000_000_000)
    else if n >= 1_000_000 then Scale("million", 1_000_000)
    else Scale("thousand", 1000)
  }

  function ToWords(n: nat): string {
    if n < 1000 then BelowThousand(n)
    else
      var s := ScaleOf(n);
      ScaleParts(n);
      var rem := n % s.value;
      ToWords(n / s.value) + " " + s.name +
      if rem == 0 then "" else (if rem < 100 then " and " else ", ") + ToWords(rem)
  }

  lemma ScaleParts(n: nat)
    requires n >= 1000
    ensures var s := ScaleOf(n); 0 < n / s.value < n && n % s.value < s.value <= n
  {
  }

  /** A number in words. */
  function IntToWords(n: int): string {
    if n == 0 then "zero" else if n < 0 then "minus " + ToWords(-n) else ToWords(n)
  }

  /** The value of a word. */
  function WordValue(w: string): Option<nat> {
    match w
    case "zero" => Some(0) case "one" => Some(1) case "two" => Some(2) case "three" => Some(3) case "four" => Some(4)
    case "five" => Some(5) case "six" => Some(6) case "seven" => Some(7) case "eight" => Some(8) case "nine" => Some(9)
    case "ten" => Some(10) case "eleven" => Some(11) case "twelve" => Some(12) case "thirteen" => Some(13)
    case "fourteen" => Some(14) case "fifteen" => Some(15) case "sixteen" => Some(16) case "seventeen" => Some(17)
    case "eighteen" => Some(18) case "nineteen" => Some(19) case "twenty" => Some(20) case "thirty" => Some(30)
    case "forty" => Some(40) case "fifty" => Some(50) case "sixty" => Some(60) case "seventy" => Some(70)
    case "eighty" => Some(80) case "ninety" => Some(90) case "hundred" => Some(100) case "thousand" => Some(1000)
    case "million" => Some(1_000_000) case "billion" => Some(1_000_000_000) case "trillion" => Some(1_000_000_000_000)
    case _ => None
  }

  /** Words are set apart by spaces, hyphens and commas. */
  predicate IsSeparator(c: char) {
    c == ' ' || c == '-' || c == ','
  }

  /** Small letters. */
  predicate IsWord(w: string) {
    w != "" && forall i :: 0 <= i < |w| ==> IsLetter(w[i])
  }

  /** The words of a text. */
  function Split(s: string): seq<string> {
    if s == "" then []
    else if IsSeparator(s[0]) then Split(s[1..])
    else
      var n := WordEnd(s, 1);
      [s[..n]] + Split(s[n..])
  }

  /** Where the word that goes on at i ends. */
  function WordEnd(s: string, i: nat): (n: nat)
    requires i <= |s|
    ensures i <= n <= |s| && (forall k :: i <= k < n ==> !IsSeparator(s[k])) && (n < |s| ==> IsSeparator(s[n]))
    decreases |s| - i
  {
    if i == |s| || IsSeparator(s[i]) then i else WordEnd(s, i + 1)
  }

  lemma {:induction false} SplitAt(a: string, sep: char, b: string)
    requires IsSeparator(sep)
    ensures Split(a + [sep] + b) == Split(a) + Split(b)
    decreases |a|
  {
    var s := a + [sep] + b;
    if a == "" {
      assert s[1..] == b;
    } else if IsSeparator(a[0]) {
      assert s[1..] == a[1..] + [sep] + b;
      SplitAt(a[1..], sep, b);
    } else {
      var n := WordEnd(a, 1);
      assert forall k :: 0 <= k < |a| ==> s[k] == a[k];
      assert s[|a|] == sep;
      WordEndIs(s, 1, n);
      assert s[..n] == a[..n] && s[n..] == a[n..] + [sep] + b;
      SplitAt(a[n..], sep, b);
    }
  }

  lemma {:induction false} WordEndIs(s: string, i: nat, n: nat)
    requires i <= n <= |s| && (forall k :: i <= k < n ==> !IsSeparator(s[k])) && (n < |s| ==> IsSeparator(s[n]))
    ensures WordEnd(s, i) == n
    decreases |s| - i
  {
    if i < n {
      WordEndIs(s, i + 1, n);
    }
  }

  lemma SplitWord(w: string)
    requires IsWord(w)
    ensures Split(w) == [w]
  {
    WordEndIs(w, 1, |w|);
    assert w[|w|..] == "" && w[..|w|] == w;
  }

  /** What has been read: a total of scales, and the number below the next. */
  datatype Heard = Heard(total: nat, current: nat)

  function Hear(h: Heard, v: nat): Heard {
    if v == 100 then Heard(h.total, (if h.current == 0 then 1 else h.current) * 100)
    else if v >= 1000 then
      if h.current == 0 then Heard((if h.total == 0 then 1 else h.total) * v, 0) else Heard(h.total + h.current * v, 0)
    else Heard(h.total, h.current + v)
  }

  function HearAll(words: seq<string>, h: Heard): Option<Heard> {
    if words == [] then Some(h)
    else if words[0] == "and" then HearAll(words[1..], h)
    else
      match WordValue(words[0])
      case None => None
      case Some(v) => HearAll(words[1..], Hear(h, v))
  }

  /** The number some words spell. */
  function Spoken(words: seq<string>): Option<nat> {
    match HearAll(words, Heard(0, 0))
    case None => None
    case Some(h) => Some(h.total + h.current)
  }

  lemma {:induction false} HearOn(a: seq<string>, b: seq<string>, h: Heard)
    ensures HearAll(a + b, h) == match HearAll(a, h) case None => None case Some(g) => HearAll(b, g)
  {
    if a == [] {
      assert a + b == b;
    } else {
      assert (a + b)[1..] == a[1..] + b;
      if a[0] == "and" {
        HearOn(a[1..], b, h);
      } else if WordValue(a[0]).Some? {
        HearOn(a[1..], b, Hear(h, WordValue(a[0]).value));
      }
    }
  }

  /** Reading a text in two parts. */
  lemma HearSplit(a: string, sep: char, b: string, h: Heard)
    requires IsSeparator(sep)
    ensures HearAll(Split(a + [sep] + b), h) ==
              match HearAll(Split(a), h) case None => None case Some(g) => HearAll(Split(b), g)
  {
    hide Split, HearAll;
    SplitAt(a, sep, b);
    HearOn(Split(a), Split(b), h);
  }

  lemma HearWord(w: string, h: Heard)
    requires IsWord(w)
    ensures w == "and" ==> HearAll(Split(w), h) == Some(h)
    ensures w != "and" && WordValue(w).Some? ==> HearAll(Split(w), h) == Some(Hear(h, WordValue(w).value))
  {
    hide Split, WordValue;
    SplitWord(w);
    assert [w][1..] == [];
  }

  lemma OnesWord(n: nat)
    requires 0 < n < 20
    ensures IsWord(One(n)) && One(n) != "and" && WordValue(One(n)) == Some(n)
  {
  }

  lemma TensWord(n: nat)
    requires 2 <= n < 10
    ensures IsWord(Ten(n)) && Ten(n) != "and" && WordValue(Ten(n)) == Some(10 * n)
  {
  }

  lemma OtherWords()
    ensures IsWord("and") && IsWord("hundred") && WordValue("hundred") == Some(100) && IsWord("zero")
            && WordValue("zero") == Some(0)
    ensures "hundred" != "and" && "zero" != "and"
  {
  }

  /** The words of a number below a hundred add it to what is current. */
  lemma SmallHeard(n: nat, h: Heard)
    requires 0 < n < 100
    ensures HearAll(Split(BelowThousand(n)), h) == Some(Heard(h.total, h.current + n))
  {
    hide Split, HearAll, WordValue, One, Ten, IsWord;
    if n < 20 {
      OnesWord(n);
      HearWord(One(n), h);
    } else {
      var tens, ones := n / 10, n % 10;
      TensWord(tens);
      HearWord(Ten(tens), h);
      if ones != 0 {
        OnesWord(ones);
        var g := Hear(h, 10 * tens);
        HearWord(One(ones), g);
        assert Ten(tens) + "-" + One(ones) == Ten(tens) + ['-'] + One(ones);
        HearSplit(Ten(tens), '-', One(ones), h);
      }
    }
  }

  lemma BelowHeard(n: nat, total: nat)
    requires 0 < n < 1000
    ensures HearAll(Split(BelowThousand(n)), Heard(total, 0)) == Some(Heard(total, n))
  {
    hide Split, HearAll, WordValue, One, Ten, IsWord;
    var h := Heard(total, 0);
    if n < 100 {
      SmallHeard(n, h);
    } else {
      var hundreds, rem := n / 100, n % 100;
      HundredHeard(hundreds, h);
      if rem != 0 {
        var a, b := One(hundreds) + " hundred", BelowThousand(rem);
        var g := Heard(total, hundreds * 100);
        SmallHeard(rem, g);
        OtherWords();
        HearWord("and", g);
        HearSplit(a, ' ', "and", h);
        HearSplit(a + [' '] + "and", ' ', b, h);
        assert BelowThousand(n) == (a + [' '] + "and") + [' '] + b;
      } else {
        assert BelowThousand(n) == One(hundreds) + " hundred";
      }
    }
  }

  lemma HundredHeard(n: nat, h: Heard)
    requires 0 < n < 10 && h.current == 0
    ensures HearAll(Split(One(n) + " hundred"), h) == Some(Heard(h.total, n * 100))
  {
    hide Split, HearAll, WordValue, One, IsWord;
    OnesWord(n);
    OtherWords();
    HearWord(One(n), h);
    HearWord("hundred", Heard(h.total, n));
    HearSplit(One(n), ' ', "hundred", h);
    assert One(n) + " hundred" == One(n) + [' '] + "hundred";
  }

  lemma ScaleWord(n: nat)
    requires n >= 1000
    ensures var s := ScaleOf(n); IsWord(s.name) && s.name != "and" && WordValue(s.name) == Some(s.value)
  {
  }

  /** What a number's words come to after a total, when it is below a thousand trillion. */
  lemma {:induction false} WordsHeard(n: nat, total: nat)
    requires 0 < n < 1_000_000_000_000_000
    ensures HearAll(Split(ToWords(n)), Heard(total, 0)) == Some(Heard(total + n - n % 1000, n % 1000))
  {
    hide Split, HearAll, WordValue, BelowThousand, IsWord;
    if n < 1000 {
      BelowHeard(n, total);
    } else {
      var s := ScaleOf(n);
      var q, rem := n / s.value, n % s.value;
      ScaleParts(n);
      ScaleDivides(n);
      WordsHeard(q, total);
      var text := ToWords(q) + [' '] + s.name;
      ScaleHeard(n, ToWords(q), Heard(total, 0), Heard(total, q));
      var g := Heard(total + q * s.value, 0);
      if rem == 0 {
        assert ToWords(n) == text;
      } else {
        WordsHeard(rem, g.total);
        RestHeard(text, ToWords(rem), rem < 100, Heard(total, 0), g);
        assert ToWords(n) == text + (if rem < 100 then " and " else ", ") + ToWords(rem);
      }
    }
  }

  lemma ScaleDivides(n: nat)
    requires n >= 1000
    ensures var s := ScaleOf(n); n == n / s.value * s.value + n % s.value && n % 1000 == n % s.value % 1000
  {
    hide ScaleOf;
    Divide(n, ScaleOf(n).value);
    ScaleThousands(n);
  }

  lemma Divide(n: nat, d: nat)
    requires d > 0
    ensures n == n / d * d + n % d
  {
  }

  lemma ScaleThousands(n: nat)
    requires n >= 1000
    ensures n % 1000 == n % ScaleOf(n).value % 1000
  {
    var v := ScaleOf(n).value;
    Divide(n, v);
    ThousandsAway(n / v, v / 1000, n % v);
  }

  lemma ThousandsAway(q: nat, k: nat, r: nat)
    ensures (q * (1000 * k) + r) % 1000 == r % 1000
  {
    assert q * (1000 * k) == 1000 * (q * k);
  }

  lemma ScaleHeard(n: nat, text: string, h: Heard, g: Heard)
    requires n >= 1000 && HearAll(Split(text), h) == Some(g)
    ensures HearAll(Split(text + [' '] + ScaleOf(n).name), h) == Some(Hear(g, ScaleOf(n).value))
  {
    hide Split, HearAll, WordValue, IsWord, ScaleOf;
    ScaleWord(n);
    HearWord(ScaleOf(n).name, g);
    HearSplit(text, ' ', ScaleOf(n).name, h);
  }

  /** The words after a scale follow an and, or a comma. */
  lemma RestHeard(text: string, rest: string, small: bool, h: Heard, g: Heard)
    requires HearAll(Split(text), h) == Some(g)
    ensures HearAll(Split(text + (if small then " and " else ", ") + rest), h) == HearAll(Split(rest), g)
  {
    hide Split, HearAll, WordValue, IsWord;
    if small {
      OtherWords();
      HearWord("and", g);
      HearSplit(text, ' ', "and", h);
      HearSplit(text + [' '] + "and", ' ', rest, h);
      assert text + " and " + rest == (text + [' '] + "and") + [' '] + rest;
    } else {
      HearSplit(text, ',', " " + rest, h);
      SplitSpace(rest);
      assert text + ", " + rest == text + [','] + (" " + rest);
    }
  }

  lemma SplitSpace(s: string)
    ensures Split(" " + s) == Split(s)
  {
    assert (" " + s)[1..] == s;
  }

  /** A number below a thousand trillion is read back from its words. */
  lemma WordsRoundTrip(n: nat)
    requires n < 1_000_000_000_000_000
    ensures Spoken(Split(IntToWords(n))) == Some(n)
  {
    hide Split, HearAll, WordValue, ToWords;
    if n == 0 {
      OtherWords();
      HearWord("zero", Heard(0, 0));
    } else {
      WordsHeard(n, 0);
    }
  }

  /** From there to 2 to the power 53, up to which the reader's sums are exact, one is read back just when
      its count of trillions is of whole thousands: a scale word multiplies only what was read since the last. */
  lemma WordsPastTrillions(n: nat)
    requires 1_000_000_000_000_000 <= n <= 0x20_0000_0000_0000
    ensures Spoken(Split(IntToWords(n))) == Some(n) <==> n / 1_000_000_000_000 % 1000 == 0
  {
    hide Split, HearAll, WordValue, BelowThousand, IsWord;
    var q, rem := n / 1_000_000_000_000, n % 1_000_000_000_000;
    assert ScaleOf(n) == Scale("trillion", 1_000_000_000_000);
    ScaleParts(n);
    WordsHeard(q, 0);
    var h, g := Heard(0, 0), Heard(q - q % 1000, q % 1000);
    ScaleHeard(n, ToWords(q), h, g);
    var after := Hear(g, 1_000_000_000_000);
    var text := ToWords(q) + [' '] + "trillion";
    if rem == 0 {
      assert ToWords(n) == text;
    } else {
      WordsHeard(rem, after.total);
      RestHeard(text, ToWords(rem), rem < 100, h, after);
      assert ToWords(n) == text + (if rem < 100 then " and " else ", ") + ToWords(rem);
    }
  }

  /** Where a text's last word begins, after a space or a hyphen. */
  function LastCut(s: string): (n: nat)
    ensures n <= |s|
  {
    if s == "" then 0
    else if s[|s| - 1] == ' ' || s[|s| - 1] == '-' then |s|
    else LastCut(s[..|s| - 1])
  }

  lemma {:induction false} LastCutAt(a: string, w: string)
    requires (a == "" || a[|a| - 1] == ' ' || a[|a| - 1] == '-') && IsWord(w)
    ensures LastCut(a + w) == |a|
    decreases |w|
  {
    var s, n := a + w, |w| - 1;
    assert s[|s| - 1] == w[n];
    assert s[..|s| - 1] == a + w[..n];
    if n > 0 {
      LastCutAt(a, w[..n]);
    } else {
      assert a + w[..0] == a;
    }
  }

  /** The ordinal of a word. */
  function OrdinalOf(w: string): string {
    match w
    case "one" => "first" case "two" => "second" case "three" => "third" case "four" => "fourth" case "five" => "fifth"
    case "six" => "sixth" case "seven" => "seventh" case "eight" => "eighth" case "nine" => "ninth"
    case "ten" => "tenth"
    case "eleven" => "eleventh" case "twelve" => "twelfth" case "thirteen" => "thirteenth"
    case "fourteen" => "fourteenth"
    case "fifteen" => "fifteenth" case "sixteen" => "sixteenth" case "seventeen" => "seventeenth"
    case "eighteen" => "eighteenth"
    case "nineteen" => "nineteenth" case "twenty" => "twentieth" case "thirty" => "thirtieth" case "forty" => "fortieth"
    case "fifty" => "fiftieth" case "sixty" => "sixtieth" case "seventy" => "seventieth" case "eighty" => "eightieth"
    case "ninety" => "ninetieth" case "hundred" => "hundredth" case "thousand" => "thousandth"
    case "million" => "millionth"
    case "billion" => "billionth" case "trillion" => "trillionth"
    case _ => if w != "" && w[|w| - 1] == 'y' then w[..|w| - 1] + "ieth" else w + "th"
  }

  /** The word an ordinal is of. */
  function CardinalOf(w: string): Option<string> {
    match w
    case "first" => Some("one") case "second" => Some("two") case "third" => Some("three") case "fourth" => Some("four")
    case "fifth" => Some("five") case "sixth" => Some("six") case "seventh" => Some("seven")
    case "eighth" => Some("eight")
    case "ninth" => Some("nine") case "tenth" => Some("ten") case "eleventh" => Some("eleven")
    case "twelfth" => Some("twelve")
    case "thirteenth" => Some("thirteen") case "fourteenth" => Some("fourteen") case "fifteenth" => Some("fifteen")
    case "sixteenth" => Some("sixteen") case "seventeenth" => Some("seventeen") case "eighteenth" => Some("eighteen")
    case "nineteenth" => Some("nineteen") case "twentieth" => Some("twenty") case "thirtieth" => Some("thirty")
    case "fortieth" => Some("forty") case "fiftieth" => Some("fifty") case "sixtieth" => Some("sixty")
    case "seventieth" => Some("seventy") case "eightieth" => Some("eighty") case "ninetieth" => Some("ninety")
    case "hundredth" => Some("hundred") case "thousandth" => Some("thousand") case "millionth" => Some("million")
    case "billionth" => Some("billion") case "trillionth" => Some("trillion") case "zeroth" => Some("zero")
    case _ => None
  }

  /** Makes a text's last word an ordinal. */
  function ApplyOrdinal(s: string): string {
    s[..LastCut(s)] + OrdinalOf(s[LastCut(s)..])
  }

  /** Makes a text's last word a cardinal, if it is an ordinal. */
  function DeOrdinalise(s: string): string {
    match CardinalOf(s[LastCut(s)..])
    case Some(w) => s[..LastCut(s)] + w
    case None => s
  }

  /** A word is read back from its ordinal, and is no ordinal itself. */
  ghost predicate ReadBack(w: string) {
    IsWord(w) && IsWord(OrdinalOf(w)) && CardinalOf(OrdinalOf(w)) == Some(w) && CardinalOf(w) == None
  }

  lemma Back(w: string, ordinal: string)
    requires OrdinalOf(w) == ordinal && CardinalOf(ordinal) == Some(w) && CardinalOf(w) == None && IsWord(w)
             && IsWord(ordinal)
    ensures ReadBack(w)
  {
  }

  lemma BackFromZero()
    ensures ReadBack("zero") && ReadBack("one")
  {
    hide ReadBack;
    Back("zero", "zeroth");
    Back("one", "first");
  }

  lemma BackFromTwo()
    ensures ReadBack("two") && ReadBack("three")
  {
    hide ReadBack;
    Back("two", "second");
    Back("three", "third");
  }

  lemma BackFromFour()
    ensures ReadBack("four") && ReadBack("five")
  {
    hide ReadBack;
    Back("four", "fourth");
    Back("five", "fifth");
  }

  lemma BackFromSix()
    ensures ReadBack("six") && ReadBack("seven")
  {
    hide ReadBack;
    Back("six", "sixth");
    Back("seven", "seventh");
  }

  lemma BackFromEight()
    ensures ReadBack("eight") && ReadBack("nine")
  {
    hide ReadBack;
    Back("eight", "eighth");
    Back("nine", "ninth");
  }

  lemma BackFromTen()
    ensures ReadBack("ten") && ReadBack("eleven")
  {
    hide ReadBack;
    Back("ten", "tenth");
    Back("eleven", "eleventh");
  }

  lemma BackFromTwelve()
    ensures ReadBack("twelve") && ReadBack("thirteen")
  {
    hide ReadBack;
    Back("twelve", "twelfth");
    Back("thirteen", "thirteenth");
  }

  lemma BackFromFourteen()
    ensures ReadBack("fourteen") && ReadBack("fifteen")
  {
    hide ReadBack;
    Back("fourteen", "fourteenth");
    Back("fifteen", "fifteenth");
  }

  lemma BackFromSixteen()
    ensures ReadBack("sixteen") && ReadBack("seventeen")
  {
    hide ReadBack;
    Back("sixteen", "sixteenth");
    Back("seventeen", "seventeenth");
  }

  lemma BackFromEighteen()
    ensures ReadBack("eighteen") && ReadBack("nineteen")
  {
    hide ReadBack;
    Back("eighteen", "eighteenth");
    Back("nineteen", "nineteenth");
  }

  lemma BackFromTwenty()
    ensures ReadBack("twenty") && ReadBack("thirty")
  {
    hide ReadBack;
    Back("twenty", "twentieth");
    Back("thirty", "thirtieth");
  }

  lemma BackFromForty()
    ensures ReadBack("forty") && ReadBack("fifty")
  {
    hide ReadBack;
    Back("forty", "fortieth");
    Back("fifty", "fiftieth");
  }

  lemma BackFromSixty()
    ensures ReadBack("sixty") && ReadBack("seventy")
  {
    hide ReadBack;
    Back("sixty", "sixtieth");
    Back("seventy", "seventieth");
  }

  lemma BackFromEighty()
    ensures ReadBack("eighty") && ReadBack("ninety")
  {
    hide ReadBack;
    Back("eighty", "eightieth");
    Back("ninety", "ninetieth");
  }

  lemma BackFromHundred()
    ensures ReadBack("hundred") && ReadBack("thousand")
  {
    hide ReadBack;
    Back("hundred", "hundredth");
    Back("thousand", "thousandth");
  }

  lemma BackFromMillion()
    ensures ReadBack("million") && ReadBack("billion")
  {
    hide ReadBack;
    Back("million", "millionth");
    Back("billion", "billionth");
  }

  lemma BackFromTrillion()
    ensures ReadBack("trillion")
  {
    hide ReadBack;
    Back("trillion", "trillionth");
  }

  /** Every word of the vocabulary is. */
  lemma OrdinalBack(w: string)
    requires WordValue(w).Some?
    ensures ReadBack(w)
  {
    hide ReadBack;
    BackFromZero();
    BackFromTwo();
    BackFromFour();
    BackFromSix();
    BackFromEight();
    BackFromTen();
    BackFromTwelve();
    BackFromFourteen();
    BackFromSixteen();
    BackFromEighteen();
    BackFromTwenty();
    BackFromForty();
    BackFromSixty();
    BackFromEighty();
    BackFromHundred();
    BackFromMillion();
    BackFromTrillion();
  }

  /** A text is p and then a word of the vocabulary. */
  ghost predicate EndsIn(s: string, p: string, w: string) {
    s == p + w && (p == "" || p[|p| - 1] == ' ' || p[|p| - 1] == '-') && WordValue(w).Some?
  }

  lemma EndsLater(a: string, s: string, p: string, w: string)
    requires EndsIn(s, p, w) && a != "" && a[|a| - 1] == ' '
    ensures EndsIn(a + s, a + p, w)
  {
    hide WordValue;
    assert a + s == (a + p) + w;
  }

  lemma BelowEnds(n: nat) returns (p: string, w: string)
    requires 0 < n < 1000
    ensures EndsIn(BelowThousand(n), p, w)
  {
    hide WordValue, One, Ten, IsWord;
    if n < 20 {
      OnesWord(n);
      p, w := "", One(n);
      assert "" + w == w;
    } else if n < 100 {
      TensWord(n / 10);
      if n % 10 == 0 {
        p, w := "", Ten(n / 10);
        assert "" + w == w;
      } else {
        OnesWord(n % 10);
        p, w := Ten(n / 10) + "-", One(n % 10);
      }
    } else if n % 100 == 0 {
      OtherWords();
      p, w := One(n / 100) + " ", "hundred";
      assert One(n / 100) + " hundred" == p + w;
    } else {
      p, w := BelowEnds(n % 100);
      EndsLater(One(n / 100) + " hundred and ", BelowThousand(n % 100), p, w);
      p := One(n / 100) + " hundred and " + p;
    }
  }

  lemma {:induction false} WordsEnd(n: nat) returns (p: string, w: string)
    requires n > 0
    ensures EndsIn(ToWords(n), p, w)
  {
    hide WordValue, BelowThousand, EndsIn, ScaleOf;
    if n < 1000 {
      p, w := BelowEnds(n);
    } else {
      var s := ScaleOf(n);
      ScaleParts(n);
      var q, rem := n / s.value, n % s.value;
      ScaleWord(n);
      if rem == 0 {
        p, w := ToWords(q) + " ", s.name;
        ScaleEnds(ToWords(q), s.name);
        assert ToWords(n) == ToWords(q) + " " + s.name;
      } else {
        p, w := WordsEnd(rem);
        var a := ToWords(q) + " " + s.name + if rem < 100 then " and " else ", ";
        EndsLater(a, ToWords(rem), p, w);
        p := a + p;
        assert ToWords(n) == a + ToWords(rem);
      }
    }
  }

  lemma ScaleEnds(a: string, name: string)
    requires WordValue(name).Some?
    ensures EndsIn(a + " " + name, a + " ", name)
  {
    hide WordValue;
  }

  /** The last word of a text in words made ordinal is made cardinal again, and a cardinal is left alone. */
  lemma OrdinalRoundTrip(s: string, p: string, w: string)
    requires EndsIn(s, p, w)
    ensures ApplyOrdinal(s) == p + OrdinalOf(w) && DeOrdinalise(ApplyOrdinal(s)) == s && DeOrdinalise(s) == s
  {
    hide WordValue, OrdinalOf, CardinalOf, IsWord;
    OrdinalBack(w);
    LastCutAt(p, w);
    LastCutAt(p, OrdinalOf(w));
    var o := p + OrdinalOf(w);
    assert s[..|p|] == p && s[|p|..] == w && o[..|p|] == p && o[|p|..] == OrdinalOf(w);
  }

  /** Small letters and separators. */
  ghost predicate IsSmall(s: string) {
    forall i :: 0 <= i < |s| ==> IsLetter(s[i]) || IsSeparator(s[i])
  }

  lemma SmallBelow(n: nat)
    requires n < 1000
    ensures IsSmall(BelowThousand(n))
  {
    hide One, Ten, WordValue;
    if n >= 100 {
      OnesWord(n / 100);
      if n % 100 != 0 {
        SmallBelow(n % 100);
      }
    } else if n >= 20 {
      TensWord(n / 10);
      if n % 10 != 0 {
        OnesWord(n % 10);
      }
    } else if n > 0 {
      OnesWord(n);
    }
  }

  lemma {:induction false} SmallWords(n: nat)
    ensures IsSmall(ToWords(n))
  {
    hide WordValue, BelowThousand, ScaleOf;
    if n < 1000 {
      SmallBelow(n);
    } else {
      var s := ScaleOf(n);
      ScaleParts(n);
      ScaleWord(n);
      SmallWords(n / s.value);
      SmallWords(n % s.value);
    }
  }

  /** How a text in words is printed. */
  datatype Style = Small | Capitals | Titled

  predicate IsParticle(w: string) {
    w == "and" || w == "or" || w == "of" || w == "the"
  }

  /** The letters a word begins with, up to a separator. */
  function TitleWord(w: string, capital: bool): string {
    var low := LowerAll(w);
    if low != "" && (capital || !IsParticle(low)) then UpperAll(low[..1]) + low[1..] else low
  }

  /** A text with its words capitalised, but for particles that neither begin it nor follow a hyphen. */
  function TitleCase(s: string, capital: bool): string {
    if s == "" then ""
    else if IsSeparator(s[0]) then [s[0]] + TitleCase(s[1..], s[0] == '-')
    else
      var n := WordEnd(s, 1);
      TitleWord(s[..n], capital) + TitleCase(s[n..], false)
  }

  function Styled(s: string, style: Style): string {
    match style
    case Small => s
    case Capitals => UpperAll(s)
    case Titled => TitleCase(s, true)
  }

  lemma SeparatorLowered(c: char)
    requires IsSeparator(c)
    ensures LowerAll([c]) == [c]
  {
  }

  lemma {:induction false} TitleLowered(s: string, capital: bool)
    requires IsSmall(s)
    ensures LowerAll(TitleCase(s, capital)) == s
    decreases |s|
  {
    hide IsParticle, TitleWord, UpperAll;
    if s == "" {
      assert LowerAll("") == "";
    } else if IsSeparator(s[0]) {
      SeparatorLowered(s[0]);
      hide LowerAll;
      TitleLowered(s[1..], s[0] == '-');
      LowerJoin([s[0]], TitleCase(s[1..], s[0] == '-'));
      assert [s[0]] + s[1..] == s;
    } else {
      hide LowerAll;
      var n := WordEnd(s, 1);
      TitleLowered(s[n..], false);
      WordLowered(s[..n], capital);
      LowerJoin(TitleWord(s[..n], capital), TitleCase(s[n..], false));
      assert s[..n] + s[n..] == s;
    }
  }

  lemma LowerJoin(a: string, b: string)
    ensures LowerAll(a + b) == LowerAll(a) + LowerAll(b)
  {
  }

  lemma WordLowered(w: string, capital: bool)
    requires IsSmall(w)
    ensures LowerAll(TitleWord(w, capital)) == w
  {
    hide IsParticle;
    assert LowerAll(w) == w;
    if w != "" {
      assert LowerAll(UpperAll(w[..1]) + w[1..]) == w;
    }
  }

  /** Whatever its style, a text in words is the same in small letters. */
  lemma StyledLowered(s: string, style: Style)
    requires IsSmall(s)
    ensures LowerAll(Styled(s, style)) == s
  {
    hide TitleCase;
    match style
    case Small => assert LowerAll(s) == s;
    case Capitals => assert LowerAll(UpperAll(s)) == s;
    case Titled => TitleLowered(s, true);
  }

  function FormatWords(n: nat, ordinal: bool, style: Style): string {
    Styled(if ordinal then ApplyOrdinal(IntToWords(n)) else IntToWords(n), style)
  }

  /** The number a text in words is read as. */
  function ReadWords(s: string): Option<nat> {
    Spoken(Split(DeOrdinalise(LowerAll(s))))
  }

  /** Every number below a thousand trillion is read back from its words, cardinal or ordinal, in any style. */
  lemma WordsReadBack(n: nat, ordinal: bool, style: Style)
    requires n < 1_000_000_000_000_000
    ensures ReadWords(FormatWords(n, ordinal, style)) == Some(n)
  {
    hide Styled, Split, WordValue, ToWords, OrdinalOf, Spoken, DeOrdinalise, ApplyOrdinal;
    var text := IntToWords(n);
    var p, w;
    if n == 0 {
      OtherWords();
      p, w := "", "zero";
      assert "" + "zero" == "zero";
      OrdinalBack("zero");
    } else {
      p, w := WordsEnd(n);
      SmallWords(n);
    }
    OrdinalRoundTrip(text, p, w);
    OrdinalSmall(text, p, w);
    StyledLowered(if ordinal then ApplyOrdinal(text) else text, style);
    WordsRoundTrip(n);
  }

  lemma OrdinalSmall(s: string, p: string, w: string)
    requires EndsIn(s, p, w) && IsSmall(s)
    ensures IsSmall(p + OrdinalOf(w))
  {
    hide WordValue, OrdinalOf, CardinalOf;
    OrdinalBack(w);
    assert forall i :: 0 <= i < |p| ==> p[i] == s[i];
  }

  /** Reads a text in words. */
  method WordsToNumber(s: string) returns (r: Option<nat>)
    ensures r == ReadWords(s)
  {
    hide Split, WordValue, LowerAll, DeOrdinalise;
    var words := Split(DeOrdinalise(LowerAll(s)));
    var total: nat, current: nat := 0, 0;
    assert words[0..] == words;
    for i := 0 to |words|
      invariant HearAll(words, Heard(0, 0)) == HearAll(words[i..], Heard(total, current))
    {
      assert words[i..][0] == words[i] && words[i..][1..] == words[i + 1..];
      if words[i] == "and" {
        continue;
      }
      var val := WordValue(words[i]);
      if val.None? {
        return None;
      }
      if val.value == 100 {
        if current == 0 {
          current := 1;
        }
        current := current * 100;
      } else if val.value >= 1000 {
        if current == 0 {
          if total == 0 {
            total := 1;
          }
          total := total * val.value;
        } else {
          total := total + current * val.value;
          current := 0;
        }
      } else {
        current := current + val.value;
      }
    }
    r := Some(total + current);
  }

  predicate StartsWord(s: string, i: nat)
    requires i < |s|
  {
    !IsSeparator(s[i]) && (i == 0 || IsSeparator(s[i - 1]))
  }

  /** A word is capitalised that begins the text, follows a hyphen or is no particle. */
  predicate IsCapital(s: string, i: nat)
    requires i < |s|
  {
    StartsWord(s, i) && (i == 0 || s[i - 1] == '-' || !IsParticle(LowerAll(s[i..WordEnd(s, i)])))
  }

  function TitleChar(s: string, i: nat): char
    requires i < |s|
  {
    if IsCapital(s, i) then Upper(s[i]) else Lower(s[i])
  }

  /** r is s from k to e with the letters that are capitalised large and all others small. */
  ghost predicate IsTitled(s: string, k: nat, e: nat, r: string)
    requires k <= e <= |s|
  {
    |r| == e - k && forall i :: 0 <= i < e - k ==> r[i] == TitleChar(s, k + i)
  }

  lemma TitledJoin(s: string, k: nat, e: nat, f: nat, a: string, b: string)
    requires k <= e <= f <= |s| && IsTitled(s, k, e, a) && IsTitled(s, e, f, b)
    ensures IsTitled(s, k, f, a + b)
  {
    forall i | 0 <= i < f - k
      ensures (a + b)[i] == TitleChar(s, k + i)
    {
      if i >= e - k {
        assert b[i - (e - k)] == TitleChar(s, e + (i - (e - k)));
      }
    }
  }

  lemma SeparatorTitled(s: string, k: nat)
    requires k < |s| && IsSeparator(s[k])
    ensures IsTitled(s, k, k + 1, [s[k]])
  {
  }

  lemma WordTitled(s: string, k: nat, e: nat)
    requires k < e <= |s| && (k == 0 || IsSeparator(s[k - 1])) && (e < |s| ==> IsSeparator(s[e]))
    requires forall i :: k <= i < e ==> !IsSeparator(s[i])
    ensures IsTitled(s, k, e, TitleWord(s[k..e], k == 0 || s[k - 1] == '-'))
  {
    hide IsParticle, IsSeparator, LowerAll, UpperAll;
    WordEndIs(s, k, e);
    var w, capital := s[k..e], k == 0 || s[k - 1] == '-';
    LettersOf(w, capital);
    assert IsCapital(s, k) == (capital || !IsParticle(LowerAll(w)));
    assert w[0] == s[k];
    forall i | 0 <= i < e - k
      ensures TitleWord(w, capital)[i] == TitleChar(s, k + i)
    {
      assert w[i] == s[k + i];
      assert i > 0 ==> !IsCapital(s, k + i);
    }
  }

  lemma LettersOf(w: string, capital: bool)
    requires w != ""
    ensures var r := TitleWord(w, capital);
            && |r| == |w| && (forall i :: 1 <= i < |w| ==> r[i] == Lower(w[i]))
            && r[0] == if capital || !IsParticle(LowerAll(w)) then Upper(w[0]) else Lower(w[0])
  {
    hide IsParticle;
    assert Upper(Lower(w[0])) == Upper(w[0]);
  }

  /** From a place that is not inside a word on. */
  lemma {:induction false} TitledFrom(s: string, k: nat)
    requires k <= |s| && (k == 0 || k == |s| || IsSeparator(s[k - 1]) || IsSeparator(s[k]))
    ensures IsTitled(s, k, |s|, TitleCase(s[k..], k == 0 || s[k - 1] == '-'))
    decreases |s| - k
  {
    hide IsTitled, TitleWord, IsSeparator, TitleChar;
    if k == |s| {
      NothingTitled(s);
    } else if IsSeparator(s[k]) {
      assert s[k..][1..] == s[k + 1..];
      TitledFrom(s, k + 1);
      SeparatorTitled(s, k);
      TitledJoin(s, k, k + 1, |s|, [s[k]], TitleCase(s[k + 1..], s[k] == '-'));
    } else {
      var e := FirstWord(s, k, k == 0 || s[k - 1] == '-');
      NoHyphen(s[e - 1]);
      WordTitled(s, k, e);
      TitledFrom(s, e);
      TitledJoin(s, k, e, |s|, TitleWord(s[k..e], k == 0 || s[k - 1] == '-'), TitleCase(s[e..], false));
    }
  }

  /** The word that begins at k. */
  lemma FirstWord(s: string, k: nat, capital: bool) returns (e: nat)
    requires k < |s| && !IsSeparator(s[k])
    ensures k < e <= |s| && (forall i :: k <= i < e ==> !IsSeparator(s[i])) && (e < |s| ==> IsSeparator(s[e]))
    ensures TitleCase(s[k..], capital) == TitleWord(s[k..e], capital) + TitleCase(s[e..], false)
  {
    hide TitleWord, IsSeparator;
    var n := WordEnd(s[k..], 1);
    e := k + n;
    assert s[k..][..n] == s[k..e] && s[k..][n..] == s[e..];
    assert forall i :: k < i < e ==> s[i] == s[k..][i - k];
    assert e < |s| ==> s[e] == s[k..][n];
  }

  lemma NoHyphen(c: char)
    requires !IsSeparator(c)
    ensures c != '-'
  {
  }

  lemma NothingTitled(s: string)
    ensures s[|s|..] == "" && IsTitled(s, |s|, |s|, "")
  {
  }

  /** Capitalises the words of a text. */
  method ToTitleCase(s: string) returns (r: string)
    ensures IsTitled(s, 0, |s|, r) && r == TitleCase(s, true)
  {
    hide TitleWord, TitleCase, IsSeparator, IsTitled;
    var capitalizeNext, word := true, "";
    r := "";
    assert s[0..] == s && "" + s == s;
    for i := 0 to |s|
      invariant forall k :: 0 <= k < |word| ==> !IsSeparator(word[k])
      invariant TitleCase(s, true) == r + TitleCase(word + s[i..], capitalizeNext)
    {
      var c, rest := s[i], s[i + 1..];
      assert word + s[i..] == word + [c] + rest;
      if IsSeparator(c) {
        TitleFlush(word, c, rest, capitalizeNext);
        Appended(r, if word == "" then "" else TitleWord(word, capitalizeNext), [c], TitleCase(rest, c == '-'));
        if word != "" {
          r := r + TitleWord(word, capitalizeNext);
        }
        r := r + [c];
        capitalizeNext := c == '-';
        word := "";
        assert "" + rest == rest;
      } else {
        word := word + [c];
      }
    }
    assert word + s[|s|..] == word;
    TitleEnd(word, capitalizeNext);
    if word != "" {
      r := r + TitleWord(word, capitalizeNext);
    } else {
      assert r + "" == r;
    }
    TitledFrom(s, 0);
  }

  lemma Appended(r: string, a: string, b: string, c: string)
    ensures r + (a + b + c) == r + a + b + c && r + "" == r
  {
  }

  lemma TitleFlush(word: string, sep: char, rest: string, capital: bool)
    requires IsSeparator(sep) && forall k :: 0 <= k < |word| ==> !IsSeparator(word[k])
    ensures TitleCase(word + [sep] + rest, capital) ==
            (if word == "" then "" else TitleWord(word, capital)) + [sep] + TitleCase(rest, sep == '-')
  {
    hide TitleWord;
    var s := word + [sep] + rest;
    var tail := [sep] + rest;
    assert tail[1..] == rest;
    assert TitleCase(tail, false) == [sep] + TitleCase(rest, sep == '-');
    if word == "" {
      assert s == tail;
    } else {
      WordEndIs(s, 1, |word|);
      assert s[..|word|] == word && s[|word|..] == tail;
    }
  }

  lemma TitleEnd(word: string, capital: bool)
    requires forall k :: 0 <= k < |word| ==> !IsSeparator(word[k])
    ensures TitleCase(word, capital) == if word == "" then "" else TitleWord(word, capital)
  {
    hide TitleWord;
    if word != "" {
      WordEndIs(word, 1, |word|);
      assert word[..|word|] == word && word[|word|..] == "";
    }
  }
}
