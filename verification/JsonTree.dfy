/** Decoded JSON values: what a syntax tree means, how a value is printed, and
    that reading a printed value gives it back. */
module JsonTree {
  import opened Wrappers
  import opened JsonSyntax
  import opened JsonParse
  import opened Trees

  /** The UTF-8 form of a character; one that has none becomes U+FFFD, as utf8.AppendRune writes it. */
  function EncodeRune(r: nat): Text {
    if r < 0x80 then [r as char]
    else if r < 0x800 then [(0xC0 + r / 0x40) as char, (0x80 + r % 0x40) as char]
    else if 0xD800 <= r < 0xE000 || r > 0x10_FFFF then REPLACEMENT
    else if r < 0x1_0000 then [(0xE0 + r / 0x1000) as char, (0x80 + r / 0x40 % 0x40) as char, (0x80 + r % 0x40) as char]
    else [(0xF0 + r / 0x4_0000) as char, (0x80 + r / 0x1000 % 0x40) as char, (0x80 + r / 0x40 % 0x40) as char,
          (0x80 + r % 0x40) as char]
  }

  const REPLACEMENT: Text := [0xEF as char, 0xBF as char, 0xBD as char]

  lemma EncodeTwo(r: nat, a: nat, b: nat)
    requires 0xC2 <= a < 0xE0 && 0x80 <= b < 0xC0 && r == (a - 0xC0) * 0x40 + (b - 0x80)
    ensures EncodeRune(r) == [a as char, b as char]
  {
    assert r / 0x40 == a - 0xC0 && r % 0x40 == b - 0x80;
  }

  lemma EncodeThree(r: nat, a: nat, b: nat, c: nat)
    requires 0xE0 <= a < 0xF0 && 0x80 <= b < 0xC0 && 0x80 <= c < 0xC0
    requires (a == 0xE0 ==> b >= 0xA0) && (a == 0xED ==> b < 0xA0)
    requires r == (a - 0xE0) * 0x1000 + (b - 0x80) * 0x40 + (c - 0x80)
    ensures EncodeRune(r) == [a as char, b as char, c as char]
  {
    assert r / 0x1000 == a - 0xE0 && r / 0x40 == (a - 0xE0) * 0x40 + (b - 0x80) && r % 0x40 == c - 0x80;
    assert r / 0x40 % 0x40 == b - 0x80;
  }

  lemma EncodeFour(r: nat, a: nat, b: nat, c: nat, d: nat)
    requires 0xF0 <= a < 0xF5 && 0x80 <= b < 0xC0 && 0x80 <= c < 0xC0 && 0x80 <= d < 0xC0
    requires (a == 0xF0 ==> b >= 0x90) && (a == 0xF4 ==> b < 0x90)
    requires r == (a - 0xF0) * 0x4_0000 + (b - 0x80) * 0x1000 + (c - 0x80) * 0x40 + (d - 0x80)
    ensures EncodeRune(r) == [a as char, b as char, c as char, d as char]
  {
    assert r / 0x4_0000 == a - 0xF0 && r % 0x40 == d - 0x80;
    assert r / 0x1000 == (a - 0xF0) * 0x40 + (b - 0x80);
    assert r / 0x40 == ((a - 0xF0) * 0x40 + (b - 0x80)) * 0x40 + (c - 0x80);
    assert r / 0x1000 % 0x40 == b - 0x80 && r / 0x40 % 0x40 == c - 0x80;
  }

  /** A character that decodes is written back as the bytes it was read from. */
  lemma EncodeDecoded(s: Text, i: nat)
    requires i < |s|
    requires DecodeRune(s, i) != (RUNE_ERROR, 1)
    ensures EncodeRune(DecodeRune(s, i).0) == s[i..i + DecodeRune(s, i).1]
  {
    var (r, size) := DecodeRune(s, i);
    if size == 1 {
      assert s[i..i + 1] == [s[i]];
    } else if size == 2 {
      EncodeTwo(r, s[i] as int, s[i + 1] as int);
      assert s[i..i + 2] == [s[i], s[i + 1]];
    } else if size == 3 {
      EncodeThree(r, s[i] as int, s[i + 1] as int, s[i + 2] as int);
      assert s[i..i + 3] == [s[i], s[i + 1], s[i + 2]];
    } else {
      EncodeFour(r, s[i] as int, s[i + 1] as int, s[i + 2] as int, s[i + 3] as int);
      assert s[i..i + 4] == [s[i], s[i + 1], s[i + 2], s[i + 3]];
    }
  }

  function HexDigit(c: char): nat {
    if IsDigit(c) then c as int - '0' as int
    else if 'a' <= c <= 'f' then c as int - 'a' as int + 10
    else if 'A' <= c <= 'F' then c as int - 'A' as int + 10
    else 0
  }

  function Hex4(hex: Text): nat
    requires |hex| == 4
  {
    ((HexDigit(hex[0]) * 16 + HexDigit(hex[1])) * 16 + HexDigit(hex[2])) * 16 + HexDigit(hex[3])
  }

  predicate IsSurrogate(r: nat) {
    0xD800 <= r < 0xE000
  }

  /** The character a pair of surrogates stands for, as utf16.DecodeRune reports it. */
  function DecodeSurrogates(high: nat, low: nat): nat {
    if 0xD800 <= high < 0xDC00 && 0xDC00 <= low < 0xE000 then (high - 0xD800) * 0x400 + (low - 0xDC00) + 0x1_0000
    else RUNE_ERROR
  }

  /** The character a two-character escape stands for. */
  function Unescape(letter: char): char {
    match letter
    case 'b' => '\U{8}'
    case 'f' => '\U{c}'
    case 'n' => '\n'
    case 'r' => '\r'
    case 't' => '\t'
    case c => c
  }

  /** The string some parts stand for: a surrogate not followed by its pair becomes U+FFFD. */
  function PartsValue(parts: seq<Part>): Text
    decreases |parts|
  {
    if parts == [] then ""
    else match parts[0]
      case Plain(bytes) => bytes + PartsValue(parts[1..])
      case Escape(letter) => [Unescape(letter)] + PartsValue(parts[1..])
      case Unicode(hex) =>
        if |hex| != 4 then PartsValue(parts[1..])
        else if !IsSurrogate(Hex4(hex)) then EncodeRune(Hex4(hex)) + PartsValue(parts[1..])
        else if Paired(parts) then EncodeRune(DecodeSurrogates(Hex4(hex), Hex4(parts[1].hex))) + PartsValue(parts[2..])
        else EncodeRune(RUNE_ERROR) + PartsValue(parts[1..])
  }

  /** The first part is a high surrogate, and the second its low one. */
  predicate Paired(parts: seq<Part>) {
    |parts| > 1 && parts[0].Unicode? && parts[1].Unicode? && |parts[0].hex| == 4 && |parts[1].hex| == 4
    && DecodeSurrogates(Hex4(parts[0].hex), Hex4(parts[1].hex)) != RUNE_ERROR
  }

  lemma LoneValue(hex: Text, rest: seq<Part>)
    requires |hex| == 4 && !Paired([Unicode(hex)] + rest)
    ensures PartsValue([Unicode(hex)] + rest) ==
            EncodeRune(if IsSurrogate(Hex4(hex)) then RUNE_ERROR else Hex4(hex)) + PartsValue(rest)
  {
    assert ([Unicode(hex)] + rest)[1..] == rest;
  }

  lemma PairValue(high: Text, low: Text, rest: seq<Part>)
    requires |high| == 4 && |low| == 4 && DecodeSurrogates(Hex4(high), Hex4(low)) != RUNE_ERROR
    ensures PartsValue([Unicode(high)] + ([Unicode(low)] + rest)) ==
            EncodeRune(DecodeSurrogates(Hex4(high), Hex4(low))) + PartsValue(rest)
  {
    var parts := [Unicode(high)] + ([Unicode(low)] + rest);
    assert parts[1] == Unicode(low) && parts[2..] == rest;
  }

  /** The value of a syntax tree. */
  function Meaning(v: Json): Tree {
    match v
    case True => BoolTree(true)
    case False => BoolTree(false)
    case Nil => NullTree
    case Number(numeral) => NumTree(numeral.Text())
    case Str(parts) => StrTree(PartsValue(parts))
    case Arr(_, items) => ArrTree(ItemsMeaning(items))
    case Obj(_, members) => ObjTree(Gather(MembersMeaning(members), []))
  }

  function ItemsMeaning(items: seq<Item>): seq<Tree> {
    if items == [] then [] else [Meaning(items[0].value)] + ItemsMeaning(items[1..])
  }

  function MembersMeaning(members: seq<Member>): seq<Field> {
    if members == [] then []
    else [Field(PartsValue(members[0].key.parts), Meaning(members[0].value))] + MembersMeaning(members[1..])
  }

  /** An object holding fields, set one after another into those of an object. */
  function Gather(fields: seq<Field>, into: seq<Field>): seq<Field> {
    if fields == [] then into else Gather(fields[1..], SetField(into, fields[0].key, fields[0].value))
  }

  /** How deeply arrays and objects nest. */
  function Nesting(v: Json): nat {
    match v
    case Arr(_, items) => 1 + ItemsNesting(items)
    case Obj(_, members) => 1 + MembersNesting(members)
    case _ => 0
  }

  function Max(a: nat, b: nat): nat {
    if a < b then b else a
  }

  function ItemsNesting(items: seq<Item>): nat {
    if items == [] then 0 else Max(Nesting(items[0].value), ItemsNesting(items[1..]))
  }

  function MembersNesting(members: seq<Member>): nat {
    if members == [] then 0 else Max(Nesting(members[0].value), MembersNesting(members[1..]))
  }

  const HEX_DIGITS: Text := "0123456789abcdef"

  /** The escape of an ASCII character that does not stand for itself. */
  function EscapeOf(c: char): Text
    requires c as int < 0x80
  {
    if c == '"' || c == '\\' then ['\\', c]
    else if c == '\U{8}' then "\\b"
    else if c == '\U{c}' then "\\f"
    else if c == '\n' then "\\n"
    else if c == '\r' then "\\r"
    else if c == '\t' then "\\t"
    else ['\\', 'u', '0', '0', HEX_DIGITS[c as int / 16], HEX_DIGITS[c as int % 16]]
  }

  predicate StandsForItself(c: char) {
    0x20 <= c as int < 0x80 && c != '"' && c != '\\'
  }

  /** The character of s at i, as it is printed inside quotes. */
  function EscapedRune(s: Text, i: nat): Text
    requires i < |s|
  {
    if StandsForItself(s[i]) then [s[i]]
    else if s[i] as int < 0x80 then EscapeOf(s[i])
    else
      var (r, size) := DecodeRune(s, i);
      if r == RUNE_ERROR && size == 1 then REPLACEMENT
      else if r == 0x2028 || r == 0x2029 then "\\u202" + [HEX_DIGITS[r % 16]]
      else s[i..i + size]
  }

  /** The characters of s from i on, as they are printed inside quotes. */
  function Escaped(s: Text, i: nat): Text
    requires i <= |s|
    decreases |s| - i
  {
    if i == |s| then "" else EscapedRune(s, i) + Escaped(s, i + DecodeRune(s, i).1)
  }

  function PrintString(s: Text): Text {
    "\"" + Escaped(s, 0) + "\""
  }

  predicate PlainNumber(literal: Text) {
    literal != "" && ParseNumber(literal, 0).Some? && ParseNumber(literal, 0).value.end == |literal|
  }

  /** Every number of v has a literal that can be printed. */
  predicate Printable(v: Tree) {
    match v
    case NumTree(literal) => literal == "" || PlainNumber(literal)
    case ArrTree(items) => PrintableItems(items)
    case ObjTree(fields) => PrintableFields(fields)
    case _ => true
  }

  predicate PrintableItems(items: seq<Tree>) {
    items != [] ==> Printable(items[0]) && PrintableItems(items[1..])
  }

  predicate PrintableFields(fields: seq<Field>) {
    fields != [] ==> Printable(fields[0].value) && PrintableFields(fields[1..])
  }

  function PrintScalar(v: Tree): Text
    requires !v.ArrTree? && !v.ObjTree?
  {
    match v
    case NullTree => "null"
    case BoolTree(b) => if b then "true" else "false"
    case NumTree(literal) => if literal == "" then "0" else literal
    case StrTree(s) => PrintString(s)
  }

  function Print(v: Tree): Text {
    match v
    case ArrTree(items) => "[" + PrintItems(items) + "]"
    case ObjTree(fields) => "{" + PrintFields(fields) + "}"
    case _ => PrintScalar(v)
  }

  function PrintItems(items: seq<Tree>): Text {
    if items == [] then "" else Print(items[0]) + PrintMoreItems(items[1..])
  }

  function PrintMoreItems(items: seq<Tree>): Text {
    if items == [] then "" else "," + Print(items[0]) + PrintMoreItems(items[1..])
  }

  function PrintField(field: Field): Text {
    PrintString(field.key) + ":" + Print(field.value)
  }

  function PrintFields(fields: seq<Field>): Text {
    if fields == [] then "" else PrintField(fields[0]) + PrintMoreFields(fields[1..])
  }

  function PrintMoreFields(fields: seq<Field>): Text {
    if fields == [] then "" else "," + PrintField(fields[0]) + PrintMoreFields(fields[1..])
  }

  /** The part that prints the character of s at i. */
  function PartOf(s: Text, i: nat): Part
    requires i < |s|
  {
    if StandsForItself(s[i]) then Plain([s[i]])
    else if s[i] as int < 0x80 then EscapePart(s[i])
    else
      var (r, size) := DecodeRune(s, i);
      if r == RUNE_ERROR && size == 1 then Plain(REPLACEMENT)
      else if r == 0x2028 || r == 0x2029 then Unicode("202" + [HEX_DIGITS[r % 16]])
      else Plain(s[i..i + size])
  }

  function PartsOf(s: Text, i: nat): seq<Part>
    requires i <= |s|
    decreases |s| - i
  {
    if i == |s| then [] else [PartOf(s, i)] + PartsOf(s, i + DecodeRune(s, i).1)
  }

  function EscapePart(c: char): Part
    requires c as int < 0x80
  {
    var text := EscapeOf(c);
    if |text| == 2 then Escape(text[1]) else Unicode(text[2..])
  }

  lemma EscapePartText(c: char)
    requires c as int < 0x80 && !StandsForItself(c)
    ensures EscapePart(c).Valid() && EscapePart(c).Text() == EscapeOf(c)
  {
    var text := EscapeOf(c);
    if |text| == 6 {
      assert text == "\\u" + text[2..];
      assert IsHex(text[2]) && IsHex(text[3]);
      HexDigits(c as int / 16);
      HexDigits(c as int % 16);
    } else {
      assert text == ['\\', text[1]];
    }
  }

  lemma HexDigits(n: nat)
    requires n < 16
    ensures IsHex(HEX_DIGITS[n]) && HexDigit(HEX_DIGITS[n]) == n
  {
    assert n == 0 || n == 1 || n == 2 || n == 3 || n == 4 || n == 5 || n == 6 || n == 7
        || n == 8 || n == 9 || n == 10 || n == 11 || n == 12 || n == 13 || n == 14 || n == 15;
  }

  lemma EscapePartValue(c: char, rest: seq<Part>)
    requires c as int < 0x80 && !StandsForItself(c)
    ensures PartsValue([EscapePart(c)] + rest) == [c] + PartsValue(rest)
  {
    var text := EscapeOf(c);
    assert ([EscapePart(c)] + rest)[1..] == rest;
    if |text| == 6 {
      HexDigits(c as int / 16);
      HexDigits(c as int % 16);
      HexValue(text[2..], c as int);
    }
  }

  lemma HexValue(hex: Text, n: nat)
    requires n < 0x80 && |hex| == 4 && hex[..2] == "00"
    requires hex[2] == HEX_DIGITS[n / 16] && hex[3] == HEX_DIGITS[n % 16]
    ensures Hex4(hex) == n
  {
    HexDigits(n / 16);
    HexDigits(n % 16);
    assert hex[0] == hex[..2][0] == '0' && hex[1] == hex[..2][1] == '0';
  }

  lemma SeparatorPartText(r: nat)
    requires r == 0x2028 || r == 0x2029
    ensures var hex := "202" + [HEX_DIGITS[r % 16]];
            Unicode(hex).Valid() && Unicode(hex).Text() == "\\u202" + [HEX_DIGITS[r % 16]] && Hex4(hex) == r
  {
    var hex := "202" + [HEX_DIGITS[r % 16]];
    assert hex[0] == '2' && hex[1] == '0' && hex[2] == '2' && hex[3] == HEX_DIGITS[r % 16];
    HexDigits(r % 16);
    assert Unicode(hex).Text() == "\\u" + hex == "\\u202" + [HEX_DIGITS[r % 16]];
  }

  lemma RunePartValid(s: Text, i: nat)
    requires i < |s| && s[i] as int >= 0x80 && DecodeRune(s, i) != (RUNE_ERROR, 1)
    ensures Plain(s[i..i + DecodeRune(s, i).1]).Valid()
  {
    var size := DecodeRune(s, i).1;
    assert DecodeRune(s[i..i + size], 0) == DecodeRune(s, i);
  }

  lemma PartOfText(s: Text, i: nat)
    requires i < |s|
    ensures PartOf(s, i).Valid() && PartOf(s, i).Text() == EscapedRune(s, i)
  {
    if StandsForItself(s[i]) {
      assert Plain([s[i]]).Valid();
    } else if s[i] as int < 0x80 {
      EscapePartText(s[i]);
    } else if DecodeRune(s, i) == (RUNE_ERROR, 1) {
      assert Plain(REPLACEMENT).Valid();
    } else {
      var r := DecodeRune(s, i).0;
      if r == 0x2028 || r == 0x2029 {
        SeparatorPartText(r);
      } else {
        RunePartValid(s, i);
      }
    }
  }

  lemma TextCons(part: Part, rest: seq<Part>)
    requires part.Valid() && ValidParts(rest)
    ensures ValidParts([part] + rest) && PartsText([part] + rest) == part.Text() + PartsText(rest)
  {
    assert ([part] + rest)[1..] == rest;
  }

  /** Whatever the bytes of a string, it prints as the text of well-formed parts. */
  lemma {:induction false} PartsOfText(s: Text, i: nat)
    requires i <= |s|
    ensures ValidParts(PartsOf(s, i)) && PartsText(PartsOf(s, i)) == Escaped(s, i)
    decreases |s| - i
  {
    hide DecodeRune, PartOf, EscapedRune;
    if i < |s| {
      var rest := PartsOf(s, i + DecodeRune(s, i).1);
      PartOfText(s, i);
      PartsOfText(s, i + DecodeRune(s, i).1);
      TextCons(PartOf(s, i), rest);
    }
  }

  /** s is valid UTF-8 from i on. */
  predicate ValidUtf8(s: Text, i: nat)
    requires i <= |s|
    decreases |s| - i
  {
    i < |s| ==> DecodeRune(s, i) != (RUNE_ERROR, 1) && ValidUtf8(s, i + DecodeRune(s, i).1)
  }

  lemma ValueCons(bytes: Text, rest: seq<Part>)
    ensures PartsValue([Plain(bytes)] + rest) == bytes + PartsValue(rest)
  {
    assert ([Plain(bytes)] + rest)[1..] == rest;
  }

  lemma SeparatorPartValue(s: Text, i: nat, rest: seq<Part>)
    requires i < |s| && (DecodeRune(s, i).0 == 0x2028 || DecodeRune(s, i).0 == 0x2029)
    ensures PartsValue([Unicode("202" + [HEX_DIGITS[DecodeRune(s, i).0 % 16]])] + rest) ==
            s[i..i + DecodeRune(s, i).1] + PartsValue(rest)
  {
    var parts := [Unicode("202" + [HEX_DIGITS[DecodeRune(s, i).0 % 16]])] + rest;
    SeparatorPartText(DecodeRune(s, i).0);
    EncodeDecoded(s, i);
    assert parts[1..] == rest;
  }

  /** A character's part stands for its bytes. */
  lemma PartOfValue(s: Text, i: nat, rest: seq<Part>)
    requires i < |s| && ValidUtf8(s, i)
    ensures PartsValue([PartOf(s, i)] + rest) == s[i..i + DecodeRune(s, i).1] + PartsValue(rest)
  {
    var (r, size) := DecodeRune(s, i);
    if s[i] as int < 0x80 {
      assert s[i..i + size] == [s[i]];
    }
    hide PartsValue;
    if StandsForItself(s[i]) {
      ValueCons([s[i]], rest);
    } else if s[i] as int < 0x80 {
      EscapePartValue(s[i], rest);
    } else if r == 0x2028 || r == 0x2029 {
      SeparatorPartValue(s, i, rest);
    } else {
      ValueCons(s[i..i + size], rest);
    }
  }

  lemma SplitOff(s: Text, i: nat, j: nat)
    requires i <= j <= |s|
    ensures s[i..] == s[i..j] + s[j..]
  {
  }

  /** A valid string prints as parts that stand for it. */
  lemma {:induction false} PartsOfValue(s: Text, i: nat)
    requires i <= |s| && ValidUtf8(s, i)
    ensures PartsValue(PartsOf(s, i)) == s[i..]
    decreases |s| - i
  {
    if i < |s| {
      var next := i + DecodeRune(s, i).1;
      PartsOfValue(s, next);
      PartOfValue(s, i, PartsOf(s, next));
      hide PartsValue, DecodeRune, PartOf, ValidUtf8;
      assert PartsOf(s, i) == [PartOf(s, i)] + PartsOf(s, next);
      SplitOff(s, i, next);
    }
  }

  /** The syntax tree a value prints as. */
  function SyntaxOf(v: Tree): Json
    requires Printable(v)
  {
    match v
    case NullTree => Nil
    case BoolTree(b) => if b then True else False
    case NumTree(literal) =>
      if literal == "" then Number(Numeral(false, "0", None, None)) else Number(ParseNumber(literal, 0).value.value)
    case StrTree(s) => Str(PartsOf(s, 0))
    case ArrTree(items) => Arr("", ItemsOf(items))
    case ObjTree(fields) => Obj("", MembersOf(fields))
  }

  function ItemsOf(items: seq<Tree>): seq<Item>
    requires PrintableItems(items)
  {
    if items == [] then [] else [Item("", SyntaxOf(items[0]), "")] + ItemsOf(items[1..])
  }

  function MembersOf(fields: seq<Field>): seq<Member>
    requires PrintableFields(fields)
  {
    if fields == [] then []
    else [Member("", Key(PartsOf(fields[0].key, 0), "", ""), SyntaxOf(fields[0].value), "")] + MembersOf(fields[1..])
  }

  lemma MemberIsText(key: Text, v: Json, value: Tree)
    requires ValueText(v) == Print(value)
    ensures ValidKey(Key(PartsOf(key, 0), "", ""))
    ensures MemberText(Member("", Key(PartsOf(key, 0), "", ""), v, "")) == PrintField(Field(key, value))
  {
    hide Print, ValueText, PartsOf, ValidKey, KeyText, PrintString;
    KeyIsText(key);
  }

  lemma KeyIsText(key: Text)
    ensures ValidKey(Key(PartsOf(key, 0), "", "")) && KeyText(Key(PartsOf(key, 0), "", "")) == PrintString(key) + ":"
  {
    hide PartsOf, ValidParts, PartsText, Escaped;
    PartsOfText(key, 0);
  }

  lemma NumberText(literal: Text)
    requires PlainNumber(literal)
    ensures var n := ParseNumber(literal, 0).value.value; n.Valid() && n.Text() == literal
  {
    NumberSound(literal, 0);
    assert literal[0..|literal|] == literal;
  }

  ghost predicate IsTextOf(n: Numeral, literal: Text) {
    n.Valid() && n.Text() == literal
  }

  /** A number can be printed exactly when its literal is one the grammar spells. */
  lemma PlainExactly(literal: Text)
    ensures PlainNumber(literal) <==> exists n :: IsTextOf(n, literal)
  {
    if PlainNumber(literal) {
      NumberText(literal);
      assert IsTextOf(ParseNumber(literal, 0).value.value, literal);
    }
    if n :| IsTextOf(n, literal) {
      assert literal[0..|literal|] == literal;
      NumberComplete(literal, 0, |literal|, n);
    }
  }

  lemma ScalarText(v: Tree)
    requires Printable(v) && !v.ArrTree? && !v.ObjTree?
    ensures ValidValue(SyntaxOf(v)) && ValueText(SyntaxOf(v)) == Print(v)
  {
    match v
    case NumTree(literal) =>
      if literal != "" {
        NumberText(literal);
      }
    case StrTree(s) =>
      PartsOfText(s, 0);
    case _ =>
  }

  /** What is printed is the text of a well-formed syntax tree. */
  lemma {:induction false} PrintIsText(v: Tree)
    requires Printable(v)
    ensures ValidValue(SyntaxOf(v)) && ValueText(SyntaxOf(v)) == Print(v)
    decreases v
  {
    match v
    case ArrTree(items) => ArrayText(items);
    case ObjTree(fields) => ObjectText(fields);
    case _ => ScalarText(v);
  }

  lemma {:induction false} ArrayText(items: seq<Tree>)
    requires Printable(ArrTree(items))
    ensures ValidValue(SyntaxOf(ArrTree(items))) && ValueText(SyntaxOf(ArrTree(items))) == Print(ArrTree(items))
    decreases items, 1
  {
    hide ItemsText, PrintMoreItems, ValidItems;
    PrintIsItemsText(items);
  }

  lemma {:induction false} ObjectText(fields: seq<Field>)
    requires Printable(ObjTree(fields))
    ensures ValidValue(SyntaxOf(ObjTree(fields))) && ValueText(SyntaxOf(ObjTree(fields))) == Print(ObjTree(fields))
    decreases fields, 1
  {
    hide MembersText, PrintMoreFields, ValidMembers;
    PrintIsMembersText(fields);
  }

  lemma {:induction false} PrintIsItemsText(items: seq<Tree>)
    requires PrintableItems(items)
    ensures ValidItems(ItemsOf(items)) && (ItemsOf(items) == [] <==> items == [])
    ensures items != [] ==> ItemsText(ItemsOf(items)) == PrintItems(items) + "]"
    ensures items != [] ==> "," + ItemsText(ItemsOf(items)) == PrintMoreItems(items) + "]"
    decreases items, 0
  {
    if items != [] {
      PrintIsText(items[0]);
      PrintIsItemsText(items[1..]);
      var item := Item("", SyntaxOf(items[0]), "");
      assert ItemsOf(items)[1..] == ItemsOf(items[1..]);
      JoinItems(item, ItemsOf(items[1..]), items[0], items[1..]);
      CommaFirst(Print(items[0]), PrintMoreItems(items[1..]), "]");
      hide Print, SyntaxOf, ItemsText, ValueText;
    }
  }

  lemma JoinItems(item: Item, rest: seq<Item>, v: Tree, items: seq<Tree>)
    requires item.before == "" && item.after == "" && ValueText(item.value) == Print(v) && (rest == [] <==> items == [])
    requires rest != [] ==> "," + ItemsText(rest) == PrintMoreItems(items) + "]"
    ensures ItemsText([item] + rest) == Print(v) + PrintMoreItems(items) + "]"
  {
    hide Print, ValueText;
    assert ([item] + rest)[1..] == rest;
    assert ItemText(item) == Print(v);
    if rest != [] {
      assert Print(v) + (PrintMoreItems(items) + "]") == Print(v) + PrintMoreItems(items) + "]";
    }
  }

  lemma CommaFirst(x: Text, y: Text, z: Text)
    ensures "," + (x + y + z) == "," + x + y + z
  {
  }

  lemma JoinMembers(m: Member, rest: seq<Member>, field: Field, fields: seq<Field>)
    requires MemberText(m) == PrintField(field) && (rest == [] <==> fields == [])
    requires rest != [] ==> "," + MembersText(rest) == PrintMoreFields(fields) + "}"
    ensures MembersText([m] + rest) == PrintField(field) + PrintMoreFields(fields) + "}"
  {
    assert ([m] + rest)[1..] == rest;
    if rest != [] {
      assert PrintField(field) + (PrintMoreFields(fields) + "}") == PrintField(field) + PrintMoreFields(fields) + "}";
    }
  }

  lemma {:induction false} PrintIsMembersText(fields: seq<Field>)
    requires PrintableFields(fields)
    ensures ValidMembers(MembersOf(fields)) && (MembersOf(fields) == [] <==> fields == [])
    ensures fields != [] ==> MembersText(MembersOf(fields)) == PrintFields(fields) + "}"
    ensures fields != [] ==> "," + MembersText(MembersOf(fields)) == PrintMoreFields(fields) + "}"
    decreases fields, 0
  {
    if fields != [] {
      PrintIsText(fields[0].value);
      PrintIsMembersText(fields[1..]);
      MemberIsText(fields[0].key, SyntaxOf(fields[0].value), fields[0].value);
      var m := Member("", Key(PartsOf(fields[0].key, 0), "", ""), SyntaxOf(fields[0].value), "");
      JoinMembers(m, MembersOf(fields[1..]), fields[0], fields[1..]);
      CommaFirst(PrintField(fields[0]), PrintMoreFields(fields[1..]), "}");
    }
  }

  /** Values that printing keeps: valid strings, distinct keys and plain numbers. */
  predicate Clean(v: Tree) {
    match v
    case NumTree(literal) => PlainNumber(literal)
    case StrTree(s) => ValidUtf8(s, 0)
    case ArrTree(items) => CleanItems(items)
    case ObjTree(fields) => CleanFields(fields)
    case _ => true
  }

  predicate CleanItems(items: seq<Tree>) {
    items != [] ==> Clean(items[0]) && CleanItems(items[1..])
  }

  predicate CleanFields(fields: seq<Field>) {
    fields != [] ==>
      ValidUtf8(fields[0].key, 0) && !HasKey(fields[1..], fields[0].key) && Clean(fields[0].value)
          && CleanFields(fields[1..])
  }

  predicate HasKey(fields: seq<Field>, key: Text) {
    exists i :: 0 <= i < |fields| && fields[i].key == key
  }

  lemma {:induction false} CleanPrints(v: Tree)
    requires Clean(v)
    ensures Printable(v)
    decreases v
  {
    match v
    case ArrTree(items) => CleanItemsPrint(items);
    case ObjTree(fields) => CleanFieldsPrint(fields);
    case _ =>
  }

  lemma {:induction false} CleanItemsPrint(items: seq<Tree>)
    requires CleanItems(items)
    ensures PrintableItems(items)
    decreases items
  {
    if items != [] {
      CleanPrints(items[0]);
      CleanItemsPrint(items[1..]);
    }
  }

  lemma {:induction false} CleanFieldsPrint(fields: seq<Field>)
    requires CleanFields(fields)
    ensures PrintableFields(fields)
    decreases fields
  {
    if fields != [] {
      CleanPrints(fields[0].value);
      CleanFieldsPrint(fields[1..]);
    }
  }

  lemma {:induction false} SetNewField(fields: seq<Field>, key: Text, value: Tree)
    requires !HasKey(fields, key)
    ensures SetField(fields, key, value) == fields + [Field(key, value)]
  {
    if fields != [] {
      assert fields[0].key != key;
      assert !HasKey(fields[1..], key) by {
        assert forall i :: 0 <= i < |fields[1..]| ==> fields[1..][i] == fields[i + 1];
      }
      SetNewField(fields[1..], key, value);
    }
  }

  /** Setting fields with distinct new keys adds them in order. */
  lemma {:induction false} GatherDistinct(fields: seq<Field>, into: seq<Field>)
    requires CleanFields(fields)
    requires forall i :: 0 <= i < |fields| ==> !HasKey(into, fields[i].key)
    ensures Gather(fields, into) == into + fields
    decreases |fields|
  {
    if fields != [] {
      SetNewField(into, fields[0].key, fields[0].value);
      var next := into + [fields[0]];
      assert SetField(into, fields[0].key, fields[0].value) == next;
      forall i | 0 <= i < |fields[1..]|
        ensures !HasKey(next, fields[1..][i].key)
      {
        assert fields[1..][i] == fields[i + 1];
      }
      GatherDistinct(fields[1..], next);
      assert next + fields[1..] == into + fields;
    }
  }

  /** The syntax tree a clean value prints as means that value. */
  lemma {:induction false} SyntaxMeaning(v: Tree)
    requires Clean(v) && Printable(v)
    ensures Meaning(SyntaxOf(v)) == v
    decreases v
  {
    match v
    case NumTree(literal) =>
      NumberText(literal);
    case StrTree(s) =>
      hide PartsOf, PartsValue;
      PartsOfValue(s, 0);
      assert s[0..] == s;
    case ArrTree(items) =>
      hide ItemsOf, ItemsMeaning, Gather;
      ItemsSyntaxMeaning(items);
    case ObjTree(fields) =>
      FieldsSyntaxMeaning(fields);
      GatherDistinct(fields, []);
      assert [] + fields == fields;
    case _ =>
  }

  lemma {:induction false} ItemsSyntaxMeaning(items: seq<Tree>)
    requires CleanItems(items) && PrintableItems(items)
    ensures ItemsMeaning(ItemsOf(items)) == items
    decreases items
  {
    if items != [] {
      SyntaxMeaning(items[0]);
      ItemsSyntaxMeaning(items[1..]);
      assert ItemsOf(items)[1..] == ItemsOf(items[1..]);
    }
  }

  lemma {:induction false} FieldsSyntaxMeaning(fields: seq<Field>)
    requires CleanFields(fields) && PrintableFields(fields)
    ensures MembersMeaning(MembersOf(fields)) == fields
    decreases fields
  {
    if fields != [] {
      SyntaxMeaning(fields[0].value);
      FieldsSyntaxMeaning(fields[1..]);
      PartsOfValue(fields[0].key, 0);
      assert fields[0].key[0..] == fields[0].key;
      assert MembersOf(fields)[1..] == MembersOf(fields[1..]);
    }
  }

  /** How deeply the arrays and objects of a value nest. */
  function Depth(v: Tree): nat {
    match v
    case ArrTree(items) => 1 + ItemsDepth(items)
    case ObjTree(fields) => 1 + FieldsDepth(fields)
    case _ => 0
  }

  function ItemsDepth(items: seq<Tree>): nat {
    if items == [] then 0 else Max(Depth(items[0]), ItemsDepth(items[1..]))
  }

  function FieldsDepth(fields: seq<Field>): nat {
    if fields == [] then 0 else Max(Depth(fields[0].value), FieldsDepth(fields[1..]))
  }

  lemma {:induction false} SyntaxNesting(v: Tree)
    requires Printable(v)
    ensures Nesting(SyntaxOf(v)) == Depth(v)
    decreases v
  {
    match v
    case ArrTree(items) => ItemsSyntaxNesting(items);
    case ObjTree(fields) => FieldsSyntaxNesting(fields);
    case _ =>
  }

  lemma {:induction false} ItemsSyntaxNesting(items: seq<Tree>)
    requires PrintableItems(items)
    ensures ItemsNesting(ItemsOf(items)) == ItemsDepth(items)
    decreases items
  {
    if items != [] {
      SyntaxNesting(items[0]);
      ItemsSyntaxNesting(items[1..]);
      assert ItemsOf(items)[1..] == ItemsOf(items[1..]);
    }
  }

  lemma {:induction false} FieldsSyntaxNesting(fields: seq<Field>)
    requires PrintableFields(fields)
    ensures MembersNesting(MembersOf(fields)) == FieldsDepth(fields)
    decreases fields
  {
    if fields != [] {
      SyntaxNesting(fields[0].value);
      FieldsSyntaxNesting(fields[1..]);
      assert MembersOf(fields)[1..] == MembersOf(fields[1..]);
    }
  }

  /** Whatever a printable value's strings hold, its text is valid JSON. */
  lemma PrintedIsJson(v: Tree)
    requires Printable(v)
    ensures IsJson(Print(v)) && ParseValue(Print(v), 0) == Some(Parsed(SyntaxOf(v), |Print(v)|))
  {
    PrintIsText(v);
    var d := Document("", SyntaxOf(v), "");
    assert Spells(d, Print(v));
    ValueComplete(Print(v), 0, |Print(v)|, SyntaxOf(v));
  }
}
