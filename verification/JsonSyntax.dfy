/** JSON text as sections 2 to 7 of RFC 8259 define it: syntax trees that keep
    every byte, and the text of a tree. A text is a string of bytes, one char each. */
module JsonSyntax {
  import opened Wrappers

  type Text = string

  /** ws of section 2. */
  predicate IsSpace(c: char) {
    c == ' ' || c == '\t' || c == '\n' || c == '\r'
  }

  ghost predicate Spaces(t: Text) {
    forall i :: 0 <= i < |t| ==> IsSpace(t[i])
  }

  predicate IsDigit(c: char) {
    '0' <= c <= '9'
  }

  ghost predicate Digits(t: Text) {
    t != [] && forall i :: 0 <= i < |t| ==> IsDigit(t[i])
  }

  predicate IsHex(c: char) {
    IsDigit(c) || 'a' <= c <= 'f' || 'A' <= c <= 'F'
  }

  /** exp of section 6: its letter, its sign and its digits. */
  datatype Exponent = Exponent(letter: char, sign: Text, digits: Text)

  /** number of section 6. */
  datatype Numeral = Numeral(minus: bool, whole: Text, fraction: Option<Text>, exponent: Option<Exponent>) {
    ghost predicate Valid() {
      && Digits(whole) && (whole[0] == '0' ==> |whole| == 1)
      && (fraction.Some? ==> Digits(fraction.value))
      && (exponent.Some? ==>
            && exponent.value.letter in "eE"
            && (exponent.value.sign == "" || exponent.value.sign == "+" || exponent.value.sign == "-")
            && Digits(exponent.value.digits))
    }

    function Text(): Text {
      (if minus then "-" else "") + whole + FractionText(fraction) + ExponentText(exponent)
    }
  }

  function FractionText(fraction: Option<Text>): Text {
    if fraction.None? then "" else "." + fraction.value
  }

  function ExponentText(exponent: Option<Exponent>): Text {
    if exponent.None? then "" else [exponent.value.letter] + exponent.value.sign + exponent.value.digits
  }

  /** char of section 7: the bytes of one unescaped character, a two-character escape, or \uXXXX. */
  datatype Part = Plain(bytes: Text) | Escape(letter: char) | Unicode(hex: Text) {
    ghost predicate Valid() {
      match this
      case Plain(bytes) => IsUnescaped(bytes)
      case Escape(letter) => letter in "\"\\/bfnrt"
      case Unicode(hex) => |hex| == 4 && forall i :: 0 <= i < 4 ==> IsHex(hex[i])
    }

    function Text(): Text {
      match this
      case Plain(bytes) => bytes
      case Escape(letter) => ['\\', letter]
      case Unicode(hex) => "\\u" + hex
    }
  }

  const RUNE_ERROR: nat := 0xFFFD

  predicate IsContinuation(c: char) {
    0x80 <= c as int < 0xC0
  }

  /** The character whose UTF-8 form starts at s[i], with its length in bytes: (RUNE_ERROR, 1) for
      a byte that starts none, as utf8.DecodeRune reports it. */
  function DecodeRune(s: Text, i: nat): (r: (nat, nat))
    requires i < |s|
    ensures 1 <= r.1 <= 4 && i + r.1 <= |s|
    ensures r.1 == 1 ==> r.0 == s[i] as int < 0x80 || (s[i] as int >= 0x80 && r.0 == RUNE_ERROR)
    ensures r.1 > 1 ==> s[i] as int >= 0xC2
  {
    var n := |s| - i;
    var b0 := s[i] as int;
    if b0 < 0x80 then (b0, 1)
    else if 0xC2 <= b0 < 0xE0 && n >= 2 && IsContinuation(s[i + 1]) then
      ((b0 - 0xC0) * 0x40 + (s[i + 1] as int - 0x80), 2)
    else if 0xE0 <= b0 < 0xF0 && n >= 3 && IsContinuation(s[i + 1]) && IsContinuation(s[i + 2])
            && (b0 == 0xE0 ==> s[i + 1] as int >= 0xA0) && (b0 == 0xED ==> (s[i + 1] as int) < 0xA0) then
      ((b0 - 0xE0) * 0x1000 + (s[i + 1] as int - 0x80) * 0x40 + (s[i + 2] as int - 0x80), 3)
    else if 0xF0 <= b0 < 0xF5 && n >= 4 && IsContinuation(s[i + 1]) && IsContinuation(s[i + 2])
        && IsContinuation(s[i + 3])
            && (b0 == 0xF0 ==> s[i + 1] as int >= 0x90) && (b0 == 0xF4 ==> (s[i + 1] as int) < 0x90) then
      ((b0 - 0xF0) * 0x4_0000 + (s[i + 1] as int - 0x80) * 0x1000 + (s[i + 2] as int - 0x80) * 0x40
       + (s[i + 3] as int - 0x80), 4)
    else (RUNE_ERROR, 1)
  }

  /** One character that section 7 lets stand for itself, in UTF-8. */
  predicate IsUnescaped(bytes: Text) {
    && bytes != []
    && bytes[0] as int >= 0x20 && bytes[0] != '"' && bytes[0] != '\\'
    && (var (rune, size) := DecodeRune(bytes, 0); size == |bytes| && (size == 1 ==> bytes[0] as int < 0x80))
  }

  /** value, object and array of sections 3 to 5. An array or object without items holds only its space. */
  datatype Json =
    | True
    | False
    | Nil
    | Number(numeral: Numeral)
    | Str(parts: seq<Part>)
    | Arr(space: Text, items: seq<Item>)
    | Obj(space: Text, members: seq<Member>)

  datatype Item = Item(before: Text, value: Json, after: Text)

  datatype Member = Member(before: Text, key: Key, value: Json, after: Text)

  /** A member's name with the ':' after it and the space around that. */
  datatype Key = Key(parts: seq<Part>, before: Text, after: Text)

  datatype Document = Document(before: Text, value: Json, after: Text)

  ghost predicate ValidParts(parts: seq<Part>) {
    forall i :: 0 <= i < |parts| ==> parts[i].Valid()
  }

  ghost predicate ValidValue(v: Json) {
    match v
    case True => true
    case False => true
    case Nil => true
    case Number(numeral) => numeral.Valid()
    case Str(parts) => ValidParts(parts)
    case Arr(space, items) => Spaces(space) && (items != [] ==> space == []) && ValidItems(items)
    case Obj(space, members) => Spaces(space) && (members != [] ==> space == []) && ValidMembers(members)
  }

  ghost predicate ValidItems(items: seq<Item>) {
    items != [] ==>
      Spaces(items[0].before) && ValidValue(items[0].value) && Spaces(items[0].after) && ValidItems(items[1..])
  }

  ghost predicate ValidKey(key: Key) {
    ValidParts(key.parts) && Spaces(key.before) && Spaces(key.after)
  }

  ghost predicate ValidMembers(members: seq<Member>) {
    members != [] ==>
      var m := members[0];
      Spaces(m.before) && ValidKey(m.key) && ValidValue(m.value) && Spaces(m.after) && ValidMembers(members[1..])
  }

  function PartsText(parts: seq<Part>): Text {
    if parts == [] then "" else parts[0].Text() + PartsText(parts[1..])
  }

  function StringText(parts: seq<Part>): Text {
    "\"" + PartsText(parts) + "\""
  }

  function ValueText(v: Json): Text {
    match v
    case True => "true"
    case False => "false"
    case Nil => "null"
    case Number(numeral) => numeral.Text()
    case Str(parts) => StringText(parts)
    case Arr(space, items) => "[" + space + (if items == [] then "]" else ItemsText(items))
    case Obj(space, members) => "{" + space + (if members == [] then "}" else MembersText(members))
  }

  function ItemText(item: Item): Text {
    item.before + ValueText(item.value) + item.after
  }

  /** The items, separated, and the bracket that closes them. */
  function ItemsText(items: seq<Item>): Text
    requires items != []
  {
    ItemText(items[0]) + if |items| == 1 then "]" else "," + ItemsText(items[1..])
  }

  function KeyText(key: Key): Text {
    StringText(key.parts) + key.before + ":" + key.after
  }

  function MemberText(m: Member): Text {
    m.before + KeyText(m.key) + ValueText(m.value) + m.after
  }

  function MembersText(members: seq<Member>): Text
    requires members != []
  {
    MemberText(members[0]) + if |members| == 1 then "}" else "," + MembersText(members[1..])
  }

  function DocumentText(d: Document): Text {
    d.before + ValueText(d.value) + d.after
  }

  /** d is a valid document whose text is s. */
  ghost predicate Spells(d: Document, s: Text) {
    Spaces(d.before) && ValidValue(d.value) && Spaces(d.after) && DocumentText(d) == s
  }

  /** s is one JSON value with optional whitespace around it. */
  ghost predicate IsJson(s: Text) {
    exists d: Document :: Spells(d, s)
  }
}
