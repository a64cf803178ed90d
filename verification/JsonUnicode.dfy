/** Reading the escapes of a string undoes writing them: the characters of a text, each as itself, as a two-character
    escape, or as \u escapes of its UTF-16 units, are decoded to that text. */
module JsonUnicode {
  import opened Wrappers
  import opened JsonSyntax
  import opened JsonParse
  import opened JsonTree
  import opened Trees

  /** A Unicode scalar value. */
  predicate IsScalar(r: nat) {
    r < 0xD800 || 0xE000 <= r < 0x11_0000
  }

  /** A character in UTF-16. */
  function Units(r: nat): seq<nat>
    requires IsScalar(r)
  {
    if r < 0x1_0000 then [r] else [0xD800 + (r - 0x1_0000) / 0x400, 0xDC00 + (r - 0x1_0000) % 0x400]
  }

  /** Reading a surrogate pair undoes writing it. */
  lemma PairRead(r: nat)
    requires 0x1_0000 <= r < 0x11_0000
    ensures DecodeSurrogates(0xD800 + (r - 0x1_0000) / 0x400, 0xDC00 + (r - 0x1_0000) % 0x400) == r != RUNE_ERROR
  {
    var n := r - 0x1_0000;
    assert n / 0x400 < 0x400 && n == n / 0x400 * 0x400 + n % 0x400;
  }

  function HexChar(d: nat, upper: bool): char
    requires d < 16
  {
    if d < 10 then ('0' as nat + d) as char else ((if upper then 'A' else 'a') as nat + d - 10) as char
  }

  /** The n-th unit of a character in four digits, the letters of which may be capital. */
  function HexOf(u: nat, n: nat, upper: (nat, nat) -> bool): Text
    requires u < 0x1_0000
  {
    [HexChar(u / 0x1000, upper(n, 0)), HexChar(u / 0x100 % 0x10, upper(n, 1)), HexChar(u / 0x10 % 0x10, upper(n, 2)),
     HexChar(u % 0x10, upper(n, 3))]
  }

  lemma HexRead(d: nat, upper: bool)
    requires d < 16
    ensures IsHex(HexChar(d, upper)) && HexDigit(HexChar(d, upper)) == d
  {
  }

  lemma Hex4Read(u: nat, n: nat, upper: (nat, nat) -> bool)
    requires u < 0x1_0000
    ensures |HexOf(u, n, upper)| == 4 && Hex4(HexOf(u, n, upper)) == u
    ensures forall i :: 0 <= i < 4 ==> IsHex(HexOf(u, n, upper)[i])
  {
    hide HexChar, HexDigit, IsHex;
    HexRead(u / 0x1000, upper(n, 0));
    HexRead(u / 0x100 % 0x10, upper(n, 1));
    HexRead(u / 0x10 % 0x10, upper(n, 2));
    HexRead(u % 0x10, upper(n, 3));
    assert u / 0x100 == u / 0x1000 * 0x10 + u / 0x100 % 0x10;
    assert u / 0x10 == u / 0x100 * 0x10 + u / 0x10 % 0x10;
  }

  /** How a character is written. */
  datatype Style = Itself | Short(letter: char) | Hex(upper: (nat, nat) -> bool)

  /** The two-character escapes. */
  predicate IsShort(r: nat, letter: char) {
    || (r == 0x22 && letter == '"') || (r == 0x5C && letter == '\\') || (r == 0x2F && letter == '/')
    || (r == 8 && letter == 'b') || (r == 12 && letter == 'f') || (r == 10 && letter == 'n')
    || (r == 13 && letter == 'r') || (r == 9 && letter == 't')
  }

  /** A character can be written so: as itself if it is ASCII and needs no escape. */
  predicate CanWrite(r: nat, style: Style) {
    && IsScalar(r)
    && match style
       case Itself => 0x20 <= r < 0x80 && r != 0x22 && r != 0x5C
       case Short(letter) => IsShort(r, letter)
       case Hex(_) => true
  }

  /** The text of a character, written so. */
  function WriteOne(r: nat, style: Style): Text
    requires CanWrite(r, style)
  {
    match style
    case Itself => [r as char]
    case Short(letter) => ['\\', letter]
    case Hex(upper) =>
      var units := Units(r);
      "\\u" + HexOf(units[0], 0, upper) + if |units| == 1 then "" else "\\u" + HexOf(units[1], 1, upper)
  }

  predicate CanWriteAll(rs: seq<nat>, styles: seq<Style>) {
    |rs| == |styles| && forall i :: 0 <= i < |rs| ==> CanWrite(rs[i], styles[i])
  }

  function WriteAll(rs: seq<nat>, styles: seq<Style>): Text
    requires CanWriteAll(rs, styles)
  {
    if rs == [] then "" else WriteOne(rs[0], styles[0]) + WriteAll(rs[1..], styles[1..])
  }

  /** The characters in UTF-8. */
  function Utf8(rs: seq<nat>): Text {
    if rs == [] then "" else EncodeRune(rs[0]) + Utf8(rs[1..])
  }

  /** The parts a character is written as. */
  function PartsOfOne(r: nat, style: Style): seq<Part>
    requires CanWrite(r, style)
  {
    match style
    case Itself => [Plain([r as char])]
    case Short(letter) => [Escape(letter)]
    case Hex(upper) =>
      var units := Units(r);
      [Unicode(HexOf(units[0], 0, upper))]
      + if |units| == 1 then [] else [Unicode(HexOf(units[1], 1, upper))]
  }

  function PartsOfAll(rs: seq<nat>, styles: seq<Style>): seq<Part>
    requires CanWriteAll(rs, styles)
  {
    if rs == [] then [] else PartsOfOne(rs[0], styles[0]) + PartsOfAll(rs[1..], styles[1..])
  }

  lemma {:induction false} PartsTextJoin(a: seq<Part>, b: seq<Part>)
    ensures PartsText(a + b) == PartsText(a) + PartsText(b)
  {
    if a == [] {
      assert a + b == b;
    } else {
      assert (a + b)[1..] == a[1..] + b;
      PartsTextJoin(a[1..], b);
    }
  }

  lemma OneText(r: nat, style: Style)
    requires CanWrite(r, style)
    ensures PartsText(PartsOfOne(r, style)) == WriteOne(r, style) && ValidParts(PartsOfOne(r, style))
  {
    var parts := PartsOfOne(r, style);
    assert PartsText([]) == "";
    assert PartsText(parts) == parts[0].Text() + PartsText(parts[1..]);
    match style
    case Itself => assert parts[1..] == [];
    case Short(letter) => assert parts[1..] == [];
    case Hex(upper) =>
      hide HexOf;
      var units := Units(r);
      Hex4Read(units[0], 0, upper);
      if |units| == 2 {
        Hex4Read(units[1], 1, upper);
        assert parts[1..] == [parts[1]] && parts[1..][1..] == [];
        assert PartsText(parts[1..]) == parts[1].Text() + PartsText([]);
      } else {
        assert parts[1..] == [];
      }
  }

  lemma {:induction false} AllText(rs: seq<nat>, styles: seq<Style>)
    requires CanWriteAll(rs, styles)
    ensures PartsText(PartsOfAll(rs, styles)) == WriteAll(rs, styles) && ValidParts(PartsOfAll(rs, styles))
  {
    if rs != [] {
      hide CanWrite;
      OneText(rs[0], styles[0]);
      AllText(rs[1..], styles[1..]);
      PartsTextJoin(PartsOfOne(rs[0], styles[0]), PartsOfAll(rs[1..], styles[1..]));
    }
  }

  lemma UnitValue(r: nat, upper: (nat, nat) -> bool, rest: seq<Part>)
    requires IsScalar(r) && r < 0x1_0000
    ensures PartsValue([Unicode(HexOf(r, 0, upper))] + rest) == EncodeRune(r) + PartsValue(rest)
  {
    Hex4Read(r, 0, upper);
    hide HexOf, EncodeRune, Hex4;
    LoneValue(HexOf(r, 0, upper), rest);
  }

  lemma PairOfValue(r: nat, upper: (nat, nat) -> bool, rest: seq<Part>)
    requires 0x1_0000 <= r < 0x11_0000
    ensures var high, low := HexOf(Units(r)[0], 0, upper), HexOf(Units(r)[1], 1, upper);
            PartsValue([Unicode(high)] + ([Unicode(low)] + rest)) == EncodeRune(r) + PartsValue(rest)
  {
    Hex4Read(Units(r)[0], 0, upper);
    Hex4Read(Units(r)[1], 1, upper);
    PairRead(r);
    hide HexOf, EncodeRune, Hex4, PartsValue, DecodeSurrogates;
    PairValue(HexOf(Units(r)[0], 0, upper), HexOf(Units(r)[1], 1, upper), rest);
  }

  lemma LetterValue(r: nat, style: Style, rest: seq<Part>)
    requires CanWrite(r, style) && !style.Hex?
    ensures PartsValue(PartsOfOne(r, style) + rest) == EncodeRune(r) + PartsValue(rest)
  {
    assert (PartsOfOne(r, style) + rest)[1..] == rest;
  }

  lemma HexParts(r: nat, upper: (nat, nat) -> bool, rest: seq<Part>)
    requires IsScalar(r)
    ensures var units := Units(r); var first := Unicode(HexOf(units[0], 0, upper));
            PartsOfOne(r, Hex(upper)) + rest ==
            [first] + if |units| == 1 then rest else [Unicode(HexOf(units[1], 1, upper))] + rest
  {
    hide HexOf;
  }

  lemma OneValue(r: nat, style: Style, rest: seq<Part>)
    requires CanWrite(r, style)
    ensures PartsValue(PartsOfOne(r, style) + rest) == EncodeRune(r) + PartsValue(rest)
  {
    hide HexOf, EncodeRune, PartsValue, PartsOfOne;
    if style.Hex? {
      HexParts(r, style.upper, rest);
      if r < 0x1_0000 {
        UnitValue(r, style.upper, rest);
      } else {
        PairOfValue(r, style.upper, rest);
      }
    } else {
      LetterValue(r, style, rest);
    }
  }

  lemma {:induction false} AllValue(rs: seq<nat>, styles: seq<Style>)
    requires CanWriteAll(rs, styles)
    ensures PartsValue(PartsOfAll(rs, styles)) == Utf8(rs)
  {
    if rs != [] {
      hide CanWrite, PartsOfOne;
      OneValue(rs[0], styles[0], PartsOfAll(rs[1..], styles[1..]));
      AllValue(rs[1..], styles[1..]);
    }
  }

  /** The characters between quotes. */
  function Quoted(rs: seq<nat>, styles: seq<Style>): Text
    requires CanWriteAll(rs, styles)
  {
    "\"" + WriteAll(rs, styles) + "\""
  }

  /** The written characters between quotes spell a string that means them. */
  lemma WrittenMeans(rs: seq<nat>, styles: seq<Style>)
    requires CanWriteAll(rs, styles)
    ensures var d := Document("", Str(PartsOfAll(rs, styles)), "");
            Spells(d, Quoted(rs, styles)) && Meaning(d.value) == StrTree(Utf8(rs)) && Nesting(d.value) == 0
  {
    AllText(rs, styles);
    AllValue(rs, styles);
  }
}
