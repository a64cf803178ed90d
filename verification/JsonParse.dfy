/** Recursive-descent parsing of JSON text into the syntax trees of JsonSyntax,
    with the proof that it finds exactly the tree whose text is there. */
module JsonParse {
  import opened Wrappers
  import opened JsonSyntax

  /** A part of the text read as value, ending before end. */
  datatype Parsed<+T> = Parsed(value: T, end: nat)

  function SkipSpace(s: Text, i: nat): (end: nat)
    requires i <= |s|
    ensures i <= end <= |s| && Spaces(s[i..end])
    ensures end < |s| ==> !IsSpace(s[end])
    decreases |s| - i
  {
    if i < |s| && IsSpace(s[i]) then SkipSpace(s, i + 1) else i
  }

  function SkipDigits(s: Text, i: nat): (end: nat)
    requires i <= |s|
    ensures i <= end <= |s| && (forall j :: i <= j < end ==> IsDigit(s[j]))
    ensures end < |s| ==> !IsDigit(s[end])
    decreases |s| - i
  {
    if i < |s| && IsDigit(s[i]) then SkipDigits(s, i + 1) else i
  }

  function ParseFraction(s: Text, i: nat): (r: Option<Parsed<Option<Text>>>)
    requires i <= |s|
    ensures r.Some? ==> i <= r.value.end <= |s|
  {
    if i < |s| && s[i] == '.' then
      var end := SkipDigits(s, i + 1);
      if end == i + 1 then None else Some(Parsed(Some(s[i + 1..end]), end))
    else Some(Parsed(None, i))
  }

  function ParseExponent(s: Text, i: nat): (r: Option<Parsed<Option<Exponent>>>)
    requires i <= |s|
    ensures r.Some? ==> i <= r.value.end <= |s|
  {
    if i < |s| && (s[i] == 'e' || s[i] == 'E') then
      var from := if i + 1 < |s| && (s[i + 1] == '+' || s[i + 1] == '-') then i + 2 else i + 1;
      var end := SkipDigits(s, from);
      if end == from then None else Some(Parsed(Some(Exponent(s[i], s[i + 1..from], s[from..end])), end))
    else Some(Parsed(None, i))
  }

  function ParseNumber(s: Text, i: nat): (r: Option<Parsed<Numeral>>)
    requires i < |s|
    ensures r.Some? ==> i < r.value.end <= |s|
  {
    var minus := s[i] == '-';
    var from := if minus then i + 1 else i;
    if from == |s| || !IsDigit(s[from]) then None
    else
      var end := if s[from] == '0' then from + 1 else SkipDigits(s, from);
      match ParseFraction(s, end)
      case None => None
      case Some(fraction) =>
        match ParseExponent(s, fraction.end)
        case None => None
        case Some(exponent) => Some(Parsed(Numeral(minus, s[from..end], fraction.value, exponent.value), exponent.end))
  }

  function ParsePart(s: Text, i: nat): (r: Option<Parsed<Part>>)
    requires i < |s|
    ensures r.Some? ==> i < r.value.end <= |s|
  {
    if s[i] as int < 0x20 || s[i] == '"' then None
    else if s[i] == '\\' then
      if i + 1 == |s| then None
      else if s[i + 1] in "\"\\/bfnrt" then Some(Parsed(Escape(s[i + 1]), i + 2))
      else if s[i + 1] == 'u' && i + 6 <= |s| && (forall j :: i + 2 <= j < i + 6 ==> IsHex(s[j])) then
        Some(Parsed(Unicode(s[i + 2..i + 6]), i + 6))
      else None
    else
      var (rune, size) := DecodeRune(s, i);
      if rune == RUNE_ERROR && size == 1 then None else Some(Parsed(Plain(s[i..i + size]), i + size))
  }

  /** The parts of a string from i on, up to its closing quote. */
  function ParseParts(s: Text, i: nat): (r: Option<Parsed<seq<Part>>>)
    requires i <= |s|
    ensures r.Some? ==> i < r.value.end <= |s|
    decreases |s| - i
  {
    if i == |s| then None
    else if s[i] == '"' then Some(Parsed([], i + 1))
    else
      match ParsePart(s, i)
      case None => None
      case Some(part) =>
        match ParseParts(s, part.end)
        case None => None
        case Some(rest) => Some(Parsed([part.value] + rest.value, rest.end))
  }

  function ParseString(s: Text, i: nat): (r: Option<Parsed<seq<Part>>>)
    requires i <= |s|
    ensures r.Some? ==> i < r.value.end <= |s|
  {
    if i == |s| || s[i] != '"' then None else ParseParts(s, i + 1)
  }

  function ParseLiteral(s: Text, i: nat, text: Text, v: Json): (r: Option<Parsed<Json>>)
    requires i <= |s| && text != []
    ensures r.Some? ==> i < r.value.end <= |s|
  {
    if i + |text| <= |s| && s[i..i + |text|] == text then Some(Parsed(v, i + |text|)) else None
  }

  function ParseScalar(s: Text, i: nat): (r: Option<Parsed<Json>>)
    requires i < |s|
    ensures r.Some? ==> i < r.value.end <= |s|
  {
    var c := s[i];
    if c == '"' then
      match ParseString(s, i)
      case None => None
      case Some(quoted) => Some(Parsed(Str(quoted.value), quoted.end))
    else if c == 't' then ParseLiteral(s, i, "true", True)
    else if c == 'f' then ParseLiteral(s, i, "false", False)
    else if c == 'n' then ParseLiteral(s, i, "null", Nil)
    else if c == '-' || IsDigit(c) then
      match ParseNumber(s, i)
      case None => None
      case Some(number) => Some(Parsed(Number(number.value), number.end))
    else None
  }

  function ParseValue(s: Text, i: nat): (r: Option<Parsed<Json>>)
    requires i <= |s|
    ensures r.Some? ==> i < r.value.end <= |s|
    decreases |s| - i, 0
  {
    if i == |s| then None
    else if s[i] == '{' || s[i] == '[' then
      var close := SkipSpace(s, i + 1);
      if s[i] == '{' then
        if close < |s| && s[close] == '}' then Some(Parsed(Obj(s[i + 1..close], []), close + 1))
        else
          match ParseMembers(s, i + 1)
          case None => None
          case Some(members) => Some(Parsed(Obj("", members.value), members.end))
      else
        if close < |s| && s[close] == ']' then Some(Parsed(Arr(s[i + 1..close], []), close + 1))
        else
          match ParseItems(s, i + 1)
          case None => None
          case Some(items) => Some(Parsed(Arr("", items.value), items.end))
    else ParseScalar(s, i)
  }

  /** An item at i with the space around it. */
  function ParseItem(s: Text, i: nat): (r: Option<Parsed<Item>>)
    requires i <= |s|
    ensures r.Some? ==> i < r.value.end <= |s|
    decreases |s| - i, 1
  {
    var from := SkipSpace(s, i);
    match ParseValue(s, from)
    case None => None
    case Some(v) =>
      var end := SkipSpace(s, v.end);
      Some(Parsed(Item(s[i..from], v.value, s[v.end..end]), end))
  }

  /** The items of an array from i on, and the bracket that closes it. */
  function ParseItems(s: Text, i: nat): (r: Option<Parsed<seq<Item>>>)
    requires i <= |s|
    ensures r.Some? ==> i < r.value.end <= |s| && r.value.value != []
    decreases |s| - i, 2
  {
    match ParseItem(s, i)
    case None => None
    case Some(item) =>
      if item.end < |s| && s[item.end] == ']' then Some(Parsed([item.value], item.end + 1))
      else if item.end < |s| && s[item.end] == ',' then
        match ParseItems(s, item.end + 1)
        case None => None
        case Some(rest) => Some(Parsed([item.value] + rest.value, rest.end))
      else None
  }

  /** An object key at i, the ':' after it, and where the value starts. */
  function ParseKey(s: Text, i: nat): (r: Option<Parsed<Key>>)
    requires i <= |s|
    ensures r.Some? ==> i < r.value.end <= |s|
  {
    match ParseString(s, i)
    case None => None
    case Some(name) =>
      var colon := SkipSpace(s, name.end);
      if colon == |s| || s[colon] != ':' then None
      else
        var from := SkipSpace(s, colon + 1);
        Some(Parsed(Key(name.value, s[name.end..colon], s[colon + 1..from]), from))
  }

  /** A member at i with the space around it. */
  function ParseMember(s: Text, i: nat): (r: Option<Parsed<Member>>)
    requires i <= |s|
    ensures r.Some? ==> i < r.value.end <= |s|
    decreases |s| - i, 1
  {
    var from := SkipSpace(s, i);
    match ParseKey(s, from)
    case None => None
    case Some(key) =>
      match ParseValue(s, key.end)
      case None => None
      case Some(v) =>
        var end := SkipSpace(s, v.end);
        Some(Parsed(Member(s[i..from], key.value, v.value, s[v.end..end]), end))
  }

  /** The members of an object from i on, and the brace that closes it. */
  function ParseMembers(s: Text, i: nat): (r: Option<Parsed<seq<Member>>>)
    requires i <= |s|
    ensures r.Some? ==> i < r.value.end <= |s| && r.value.value != []
    decreases |s| - i, 2
  {
    match ParseMember(s, i)
    case None => None
    case Some(member) =>
      if member.end < |s| && s[member.end] == '}' then Some(Parsed([member.value], member.end + 1))
      else if member.end < |s| && s[member.end] == ',' then
        match ParseMembers(s, member.end + 1)
        case None => None
        case Some(rest) => Some(Parsed([member.value] + rest.value, rest.end))
      else None
  }

  lemma Join(s: Text, i: nat, j: nat, k: nat)
    requires i <= j <= k <= |s|
    ensures s[i..j] + s[j..k] == s[i..k]
  {
  }

  lemma OneChar(s: Text, i: nat)
    requires i < |s|
    ensures s[i..i + 1] == [s[i]]
  {
  }

  lemma FractionSound(s: Text, i: nat)
    requires i <= |s| && ParseFraction(s, i).Some?
    ensures var p := ParseFraction(s, i).value;
            FractionText(p.value) == s[i..p.end] && (p.value.Some? ==> Digits(p.value.value))
  {
    var p := ParseFraction(s, i).value;
    if p.value.Some? {
      Join(s, i, i + 1, p.end);
      OneChar(s, i);
    }
  }

  lemma JoinThree(s: Text, i: nat, j: nat, k: nat, l: nat)
    requires i <= j <= k <= l <= |s|
    ensures s[i..j] + s[j..k] + s[k..l] == s[i..l]
  {
    Join(s, i, j, k);
    Join(s, i, k, l);
  }

  lemma ExponentSound(s: Text, i: nat)
    requires i <= |s| && ParseExponent(s, i).Some?
    ensures var p := ParseExponent(s, i).value;
            ExponentText(p.value) == s[i..p.end] && Numeral(false, "0", None, p.value).Valid()
  {
    var p := ParseExponent(s, i).value;
    if p.value.Some? {
      var e, from := p.value.value, i + 1 + |p.value.value.sign|;
      assert e.letter == s[i] && e.sign == s[i + 1..from] && e.digits == s[from..p.end] && Digits(e.digits);
      assert e.sign == "" || e.sign == [s[i + 1]];
      hide ParseExponent, SkipDigits, Digits;
      JoinThree(s, i, i + 1, from, p.end);
      OneChar(s, i);
    }
  }

  lemma JoinFour(s: Text, i: nat, j: nat, k: nat, l: nat, m: nat)
    requires i <= j <= k <= l <= m <= |s|
    ensures s[i..j] + s[j..k] + s[k..l] + s[l..m] == s[i..m]
  {
    Join(s, i, j, k);
    Join(s, i, k, l);
    Join(s, i, l, m);
  }

  lemma WholeSound(s: Text, from: nat)
    requires from < |s| && IsDigit(s[from])
    ensures var end := if s[from] == '0' then from + 1 else SkipDigits(s, from);
            from < end <= |s| && Digits(s[from..end]) && (s[from..end][0] == '0' ==> |s[from..end]| == 1)
  {
  }

  /** What the parser reads is there: the tree is well formed, and its text ends where reading ends. */
  lemma {:induction false} NumberSound(s: Text, i: nat)
    requires i < |s| && ParseNumber(s, i).Some?
    ensures var p := ParseNumber(s, i).value; p.value.Valid() && p.value.Text() == s[i..p.end]
  {
    var from := if s[i] == '-' then i + 1 else i;
    var whole := if s[from] == '0' then from + 1 else SkipDigits(s, from);
    var fraction := ParseFraction(s, whole).value;
    var exponent := ParseExponent(s, fraction.end).value;
    WholeSound(s, from);
    FractionSound(s, whole);
    ExponentSound(s, fraction.end);
    assert s[i..from] == if s[i] == '-' then "-" else "";
    JoinFour(s, i, from, whole, fraction.end, exponent.end);
  }

  lemma PartSound(s: Text, i: nat)
    requires i < |s| && ParsePart(s, i).Some?
    ensures var p := ParsePart(s, i).value; p.value.Valid() && p.value.Text() == s[i..p.end]
  {
    var p := ParsePart(s, i).value;
    match p.value
    case Escape(_) =>
    case Unicode(_) => Join(s, i, i + 2, i + 6);
    case Plain(bytes) => assert DecodeRune(bytes, 0) == DecodeRune(s, i);
  }

  lemma Glue(s: Text, i: nat, j: nat, k: nat, a: Text, b: Text, c: Text)
    requires i <= j <= k <= |s| && s[i..j] == a && s[j..k] == b + c
    ensures (a + b) + c == s[i..k]
  {
  }

  lemma {:induction false} PartsSound(s: Text, i: nat)
    requires i <= |s| && ParseParts(s, i).Some?
    ensures var p := ParseParts(s, i).value; ValidParts(p.value) && PartsText(p.value) + "\"" == s[i..p.end]
    decreases |s| - i
  {
    var p := ParseParts(s, i).value;
    if s[i] != '"' {
      var part := ParsePart(s, i).value;
      hide ParsePart;
      PartSound(s, i);
      PartsSound(s, part.end);
      var rest := ParseParts(s, part.end).value.value;
      assert p.value[0] == part.value && p.value[1..] == rest;
      assert PartsText(p.value) == part.value.Text() + PartsText(rest);
      hide PartsText, ParseParts;
      Glue(s, i, part.end, p.end, part.value.Text(), PartsText(rest), "\"");
    }
  }

  lemma StringSound(s: Text, i: nat)
    requires i <= |s| && ParseString(s, i).Some?
    ensures var p := ParseString(s, i).value; ValidParts(p.value) && StringText(p.value) == s[i..p.end]
  {
    var p := ParseString(s, i).value;
    PartsSound(s, i + 1);
    Join(s, i, i + 1, p.end);
    assert StringText(p.value) == "\"" + (PartsText(p.value) + "\"");
  }

  lemma KeySound(s: Text, i: nat, p: Parsed<Key>)
    requires i <= |s| && ParseKey(s, i) == Some(p)
    ensures ValidKey(p.value) && KeyText(p.value) == s[i..p.end]
  {
    var name := ParseString(s, i).value;
    var colon := SkipSpace(s, name.end);
    StringSound(s, i);
    OneChar(s, colon);
    JoinFour(s, i, name.end, colon, colon + 1, p.end);
  }

  /** An array whose items are sound, or an empty one. */
  lemma ArraySound(s: Text, i: nat)
    requires i < |s| && s[i] == '[' && ParseValue(s, i).Some?
    requires var items := ParseItems(s, i + 1);
             items.Some? ==> ValidItems(items.value.value) && ItemsText(items.value.value) == s[i + 1..items.value.end]
    ensures var p := ParseValue(s, i).value; ValidValue(p.value) && ValueText(p.value) == s[i..p.end]
  {
    var close := SkipSpace(s, i + 1);
    var end := ParseValue(s, i).value.end;
    OneChar(s, i);
    if close < |s| && s[close] == ']' {
      OneChar(s, close);
      Join(s, i, i + 1, close);
      Join(s, i, close, end);
    } else {
      Join(s, i, i + 1, end);
      assert "[" + "" == "[";
    }
  }

  lemma ObjectSound(s: Text, i: nat)
    requires i < |s| && s[i] == '{' && ParseValue(s, i).Some?
    requires var members := ParseMembers(s, i + 1);
             members.Some? ==>
               && ValidMembers(members.value.value)
               && MembersText(members.value.value) == s[i + 1..members.value.end]
    ensures var p := ParseValue(s, i).value; ValidValue(p.value) && ValueText(p.value) == s[i..p.end]
  {
    var close := SkipSpace(s, i + 1);
    var end := ParseValue(s, i).value.end;
    OneChar(s, i);
    if close < |s| && s[close] == '}' {
      OneChar(s, close);
      Join(s, i, i + 1, close);
      Join(s, i, close, end);
    } else {
      Join(s, i, i + 1, end);
      assert "{" + "" == "{";
    }
  }

  lemma ScalarSound(s: Text, i: nat)
    requires i < |s| && ParseScalar(s, i).Some?
    ensures var p := ParseScalar(s, i).value; ValidValue(p.value) && ValueText(p.value) == s[i..p.end]
  {
    if s[i] == '"' {
      StringSound(s, i);
    } else if s[i] == '-' || IsDigit(s[i]) {
      NumberSound(s, i);
    }
  }

  lemma {:induction false} ValueSound(s: Text, i: nat, p: Parsed<Json>)
    requires i <= |s| && ParseValue(s, i) == Some(p)
    ensures ValidValue(p.value) && ValueText(p.value) == s[i..p.end]
    decreases |s| - i, 0
  {
    if s[i] == '{' {
      var members := ParseMembers(s, i + 1);
      if members.Some? {
        MembersSound(s, i + 1, members.value);
      }
      ObjectSound(s, i);
    } else if s[i] == '[' {
      var items := ParseItems(s, i + 1);
      if items.Some? {
        ItemsSound(s, i + 1, items.value);
      }
      ArraySound(s, i);
    } else {
      ScalarSound(s, i);
    }
  }

  /** A separator and what follows it. */
  lemma AfterComma(s: Text, end: nat, last: nat, rest: Text)
    requires end + 1 <= last <= |s| && s[end] == ',' && rest == s[end + 1..last]
    ensures "," + rest == s[end..last]
  {
    Join(s, end, end + 1, last);
    OneChar(s, end);
  }

  lemma {:induction false} ItemSound(s: Text, i: nat, p: Parsed<Item>)
    requires i <= |s| && ParseItem(s, i) == Some(p)
    ensures Spaces(p.value.before) && ValidValue(p.value.value) && Spaces(p.value.after)
            && ItemText(p.value) == s[i..p.end]
    decreases |s| - i, 1
  {
    var from := SkipSpace(s, i);
    var v := ParseValue(s, from).value;
    ValueSound(s, from, v);
    Join(s, i, from, v.end);
    Join(s, i, v.end, p.end);
  }

  lemma {:induction false} MemberSound(s: Text, i: nat, p: Parsed<Member>)
    requires i <= |s| && ParseMember(s, i) == Some(p)
    ensures var m := p.value;
            Spaces(m.before) && ValidKey(m.key) && ValidValue(m.value) && Spaces(m.after)
                && MemberText(m) == s[i..p.end]
    decreases |s| - i, 1
  {
    var from := SkipSpace(s, i);
    var key := ParseKey(s, from).value;
    var v := ParseValue(s, key.end).value;
    KeySound(s, from, key);
    ValueSound(s, key.end, v);
    JoinFour(s, i, from, key.end, v.end, p.end);
  }

  /** What reading items found, one item deep: after a ',' tail is the items after it. */
  lemma ItemsParts(s: Text, i: nat, p: Parsed<seq<Item>>) returns (item: Parsed<Item>, tail: Parsed<seq<Item>>)
    requires i <= |s| && ParseItems(s, i) == Some(p)
    ensures ParseItem(s, i) == Some(item) && i < item.end < p.end <= |s|
            && p == Parsed([item.value] + tail.value, tail.end)
    ensures s[item.end] != ',' ==> s[item.end] == ']' && tail == Parsed([], item.end + 1)
    ensures s[item.end] == ',' ==> ParseItems(s, item.end + 1) == Some(tail) && tail.value != []
  {
    item := ParseItem(s, i).value;
    assert [item.value] + [] == [item.value];
    tail := if s[item.end] == ',' then ParseItems(s, item.end + 1).value else Parsed([], item.end + 1);
  }

  lemma {:induction false} ItemsSound(s: Text, i: nat, p: Parsed<seq<Item>>)
    requires i <= |s| && ParseItems(s, i) == Some(p)
    ensures ValidItems(p.value) && ItemsText(p.value) == s[i..p.end]
    decreases |s| - i, 2
  {
    hide ParseItem, ParseItems, ItemText, ValidValue;
    var item, tail := ItemsParts(s, i, p);
    ItemSound(s, i, item);
    Join(s, i, item.end, tail.end);
    if s[item.end] == ',' {
      ItemsSound(s, item.end + 1, tail);
      AfterComma(s, item.end, tail.end, ItemsText(tail.value));
    } else {
      OneChar(s, item.end);
    }
    assert ([item.value] + tail.value)[1..] == tail.value;
  }

  lemma MembersParts(s: Text, i: nat, p: Parsed<seq<Member>>)
    returns (member: Parsed<Member>, tail: Parsed<seq<Member>>)
    requires i <= |s| && ParseMembers(s, i) == Some(p)
    ensures ParseMember(s, i) == Some(member) && i < member.end < p.end <= |s|
            && p == Parsed([member.value] + tail.value, tail.end)
    ensures s[member.end] != ',' ==> s[member.end] == '}' && tail == Parsed([], member.end + 1)
    ensures s[member.end] == ',' ==> ParseMembers(s, member.end + 1) == Some(tail) && tail.value != []
  {
    member := ParseMember(s, i).value;
    assert [member.value] + [] == [member.value];
    tail := if s[member.end] == ',' then ParseMembers(s, member.end + 1).value else Parsed([], member.end + 1);
  }

  lemma {:induction false} MembersSound(s: Text, i: nat, p: Parsed<seq<Member>>)
    requires i <= |s| && ParseMembers(s, i) == Some(p)
    ensures ValidMembers(p.value) && MembersText(p.value) == s[i..p.end]
    decreases |s| - i, 2
  {
    hide ParseMember, ParseMembers, MemberText, ValidKey, ValidValue;
    var member, tail := MembersParts(s, i, p);
    MemberSound(s, i, member);
    Join(s, i, member.end, tail.end);
    if s[member.end] == ',' {
      MembersSound(s, member.end + 1, tail);
      AfterComma(s, member.end, tail.end, MembersText(tail.value));
    } else {
      OneChar(s, member.end);
    }
    assert ([member.value] + tail.value)[1..] == tail.value;
  }

  lemma Split(s: Text, i: nat, j: nat, x: Text, y: Text)
    requires i <= j <= |s| && s[i..j] == x + y
    ensures i + |x| <= j && s[i..i + |x|] == x && s[i + |x|..j] == y
  {
    assert s[i..i + |x|] == s[i..j][..|x|] == x;
    assert s[i + |x|..j] == s[i..j][|x|..] == y;
  }

  lemma SplitFour(s: Text, i: nat, j: nat, x: Text, y: Text, z: Text, w: Text)
    requires i <= j <= |s| && s[i..j] == x + y + z + w
    ensures var k, l, m := i + |x|, i + |x| + |y|, i + |x| + |y| + |z|;
            k <= l <= m <= j && s[i..k] == x && s[k..l] == y && s[l..m] == z && s[m..j] == w
  {
    Split(s, i, j, x + y + z, w);
    Split(s, i, i + |x + y + z|, x + y, z);
    Split(s, i, i + |x + y|, x, y);
  }

  /** What may come after a value: the end of the text, whitespace, or a separator or closing character. */
  predicate Follows(s: Text, j: nat)
    requires j <= |s|
  {
    j == |s| || IsSpace(s[j]) || s[j] in ",]}"
  }

  lemma {:induction false} SpaceComplete(s: Text, i: nat, j: nat)
    requires i <= j <= |s| && Spaces(s[i..j]) && (j == |s| || !IsSpace(s[j]))
    ensures SkipSpace(s, i) == j
    decreases j - i
  {
    if i < j {
      assert s[i] == s[i..j][0];
      assert s[i + 1..j] == s[i..j][1..];
      SpaceComplete(s, i + 1, j);
    }
  }

  lemma {:induction false} DigitsComplete(s: Text, i: nat, j: nat)
    requires i <= j <= |s| && (forall k :: i <= k < j ==> IsDigit(s[k])) && (j == |s| || !IsDigit(s[j]))
    ensures SkipDigits(s, i) == j
    decreases j - i
  {
    if i < j {
      DigitsComplete(s, i + 1, j);
    }
  }

  lemma DigitsAt(s: Text, i: nat, j: nat)
    requires i <= j <= |s| && Digits(s[i..j])
    ensures i < j && forall k :: i <= k < j ==> IsDigit(s[k])
  {
    forall k | i <= k < j
      ensures IsDigit(s[k])
    {
      assert s[k] == s[i..j][k - i];
    }
  }

  lemma ExponentComplete(s: Text, i: nat, j: nat, exponent: Option<Exponent>)
    requires i <= j <= |s| && Follows(s, j) && s[i..j] == ExponentText(exponent)
    requires Numeral(false, "0", None, exponent).Valid()
    ensures ParseExponent(s, i) == Some(Parsed(exponent, j))
  {
    if exponent.Some? {
      var e := exponent.value;
      Split(s, i, j, [e.letter] + e.sign, e.digits);
      Split(s, i, i + 1 + |e.sign|, [e.letter], e.sign);
      var from := i + 1 + |e.sign|;
      assert s[i] == s[i..i + 1][0] == e.letter;
      DigitsAt(s, from, j);
      if e.sign != "" {
        assert s[i + 1] == s[i + 1..from][0];
      }
      DigitsComplete(s, from, j);
    }
  }

  lemma FractionComplete(s: Text, i: nat, j: nat, fraction: Option<Text>)
    requires i <= j <= |s| && s[i..j] == FractionText(fraction)
    requires j == |s| || !(IsDigit(s[j]) || s[j] == '.')
    requires fraction.Some? ==> Digits(fraction.value)
    ensures ParseFraction(s, i) == Some(Parsed(fraction, j))
  {
    if fraction.Some? {
      Split(s, i, j, ".", fraction.value);
      assert s[i] == s[i..i + 1][0] == '.';
      DigitsAt(s, i + 1, j);
      DigitsComplete(s, i + 1, j);
    }
  }

  lemma WholeComplete(s: Text, from: nat, j: nat, whole: Text)
    requires from <= j <= |s| && s[from..j] == whole && (j == |s| || !IsDigit(s[j]))
    requires Digits(whole) && (whole[0] == '0' ==> |whole| == 1)
    ensures from < j && IsDigit(s[from]) && (if s[from] == '0' then from + 1 else SkipDigits(s, from)) == j
  {
    DigitsAt(s, from, j);
    assert s[from] == s[from..j][0];
    DigitsComplete(s, from, j);
  }

  lemma FirstChar(s: Text, i: nat, j: nat, t: Text)
    requires i < j <= |s| && s[i..j] == t
    ensures s[i] == t[0]
  {
    assert s[i] == s[i..j][0];
  }

  lemma NumberFrom(s: Text, i: nat, minus: bool, from: nat, whole: nat, fraction: Parsed<Option<Text>>,
                   exponent: Parsed<Option<Exponent>>)
    requires i < |s| && from == (if minus then i + 1 else i) && (s[i] == '-') == minus
    requires from < whole <= |s| && IsDigit(s[from])
             && (if s[from] == '0' then from + 1 else SkipDigits(s, from)) == whole
    requires ParseFraction(s, whole) == Some(fraction) && ParseExponent(s, fraction.end) == Some(exponent)
    ensures ParseNumber(s, i) ==
              Some(Parsed(Numeral(minus, s[from..whole], fraction.value, exponent.value), exponent.end))
  {
  }

  /** The fraction and exponent of a numeral, after its whole digits. */
  lemma TailComplete(s: Text, whole: nat, fraction: nat, j: nat, n: Numeral)
    requires whole <= fraction <= j <= |s| && Follows(s, j) && n.Valid()
    requires s[whole..fraction] == FractionText(n.fraction) && s[fraction..j] == ExponentText(n.exponent)
    ensures ParseFraction(s, whole) == Some(Parsed(n.fraction, fraction))
    ensures ParseExponent(s, fraction) == Some(Parsed(n.exponent, j))
    ensures whole == |s| || !IsDigit(s[whole])
  {
    ExponentComplete(s, fraction, j, n.exponent);
    if n.exponent.Some? {
      FirstChar(s, fraction, j, ExponentText(n.exponent));
    }
    FractionComplete(s, whole, fraction, n.fraction);
    if n.fraction.Some? {
      FirstChar(s, whole, fraction, FractionText(n.fraction));
    }
  }

  /** A well-formed tree's text is read back as that tree, wherever it stands. */
  lemma NumberComplete(s: Text, i: nat, j: nat, n: Numeral)
    requires i <= j <= |s| && Follows(s, j) && n.Valid() && s[i..j] == n.Text()
    ensures i < j && ParseNumber(s, i) == Some(Parsed(n, j)) && (s[i] == '-' || IsDigit(s[i]))
  {
    hide FractionText, ExponentText, ParseFraction, ParseExponent, SkipDigits, ParseNumber, Follows;
    var sign := if n.minus then "-" else "";
    SplitFour(s, i, j, sign, n.whole, FractionText(n.fraction), ExponentText(n.exponent));
    var from := i + |sign|;
    var whole := from + |n.whole|;
    var fraction := whole + |FractionText(n.fraction)|;
    TailComplete(s, whole, fraction, j, n);
    WholeComplete(s, from, whole, n.whole);
    if n.minus {
      FirstChar(s, i, from, sign);
    }
    NumberFrom(s, i, n.minus, from, whole, Parsed(n.fraction, fraction), Parsed(n.exponent, j));
  }

  lemma PartComplete(s: Text, i: nat, j: nat, part: Part)
    requires i <= j <= |s| && part.Valid() && s[i..j] == part.Text()
    ensures i < j && s[i] != '"' && ParsePart(s, i) == Some(Parsed(part, j))
  {
    match part
    case Plain(bytes) =>
      assert forall k :: 0 <= k < |bytes| ==> s[i + k] == bytes[k];
      SameRune(s, i, bytes);
    case Escape(letter) =>
      assert s[i] == s[i..j][0] && s[i + 1] == s[i..j][1];
    case Unicode(hex) =>
      Split(s, i, j, "\\u", hex);
      assert s[i] == s[i..j][0] && s[i + 1] == s[i..j][1];
      assert forall k :: i + 2 <= k < j ==> s[k] == hex[k - i - 2];
  }

  /** A character decodes the same whatever follows it. */
  lemma SameRune(s: Text, i: nat, bytes: Text)
    requires IsUnescaped(bytes) && i + |bytes| <= |s|
    requires forall k :: 0 <= k < |bytes| ==> s[i + k] == bytes[k]
    ensures DecodeRune(s, i) == DecodeRune(bytes, 0)
  {
    var n := |bytes|;
    assert s[i + 0] == bytes[0];
    if n >= 2 { assert s[i + 1] == bytes[1]; }
    if n >= 3 { assert s[i + 2] == bytes[2]; }
    if n >= 4 { assert s[i + 3] == bytes[3]; }
  }

  lemma PartsFrom(s: Text, i: nat, part: Parsed<Part>, rest: Parsed<seq<Part>>)
    requires i < |s| && s[i] != '"' && ParsePart(s, i) == Some(part) && ParseParts(s, part.end) == Some(rest)
    ensures ParseParts(s, i) == Some(Parsed([part.value] + rest.value, rest.end))
  {
  }

  lemma PartsHead(s: Text, i: nat, j: nat, parts: seq<Part>) returns (k: nat)
    requires i <= j <= |s| && parts != [] && ValidParts(parts) && s[i..j] == PartsText(parts) + "\""
    ensures i < k <= j && s[i] != '"' && ParsePart(s, i) == Some(Parsed(parts[0], k))
    ensures s[k..j] == PartsText(parts[1..]) + "\""
  {
    var first, rest := parts[0].Text(), PartsText(parts[1..]) + "\"";
    assert PartsText(parts) + "\"" == first + rest;
    Split(s, i, j, first, rest);
    k := i + |first|;
    PartComplete(s, i, k, parts[0]);
  }

  lemma {:induction false} PartsComplete(s: Text, i: nat, j: nat, parts: seq<Part>)
    requires i <= j <= |s| && ValidParts(parts) && s[i..j] == PartsText(parts) + "\""
    ensures ParseParts(s, i) == Some(Parsed(parts, j))
    decreases |parts|
  {
    if parts == [] {
      FirstChar(s, i, j, "\"");
    } else {
      var k := PartsHead(s, i, j, parts);
      PartsComplete(s, k, j, parts[1..]);
      PartsFrom(s, i, Parsed(parts[0], k), Parsed(parts[1..], j));
      assert parts == [parts[0]] + parts[1..];
    }
  }

  lemma StringComplete(s: Text, i: nat, j: nat, parts: seq<Part>)
    requires i <= j <= |s| && ValidParts(parts) && s[i..j] == StringText(parts)
    ensures i < j && s[i] == '"' && ParseString(s, i) == Some(Parsed(parts, j))
  {
    assert StringText(parts) == "\"" + (PartsText(parts) + "\"");
    Split(s, i, j, "\"", PartsText(parts) + "\"");
    assert s[i] == s[i..i + 1][0];
    PartsComplete(s, i + 1, j, parts);
  }

  /** Where a value starts: never whitespace, a separator or a closing character. */
  lemma ValueStarts(v: Json)
    requires ValidValue(v)
    ensures var t := ValueText(v); t != [] && !IsSpace(t[0]) && t[0] !in ",]}:"
  {
    match v
    case Number(n) =>
      assert n.Text()[0] == if n.minus then '-' else n.whole[0];
    case Str(parts) =>
      assert StringText(parts)[0] == '"';
    case _ =>
  }

  lemma KeyComplete(s: Text, i: nat, j: nat, key: Key)
    requires i <= j <= |s| && ValidKey(key) && s[i..j] == KeyText(key) && (j == |s| || !IsSpace(s[j]))
    ensures i < j && s[i] == '"' && ParseKey(s, i) == Some(Parsed(key, j))
  {
    hide StringText, ParseString;
    SplitFour(s, i, j, StringText(key.parts), key.before, ":", key.after);
    var name := i + |StringText(key.parts)|;
    var colon := name + |key.before|;
    StringComplete(s, i, name, key.parts);
    assert s[colon] == s[colon..colon + 1][0];
    SpaceComplete(s, name, colon);
    SpaceComplete(s, colon + 1, j);
  }

  lemma LiteralComplete(s: Text, i: nat, j: nat, v: Json)
    requires i <= j <= |s| && (v.True? || v.False? || v.Nil?) && s[i..j] == ValueText(v)
    ensures i < j && s[i] in "tfn" && ParseScalar(s, i) == Some(Parsed(v, j))
  {
    FirstChar(s, i, j, ValueText(v));
  }

  lemma NumberValueComplete(s: Text, i: nat, j: nat, n: Numeral)
    requires i <= j <= |s| && Follows(s, j) && n.Valid() && s[i..j] == n.Text()
    ensures i < j && s[i] != '{' && s[i] != '[' && ParseScalar(s, i) == Some(Parsed(Number(n), j))
  {
    NumberComplete(s, i, j, n);
  }

  lemma StringValueComplete(s: Text, i: nat, j: nat, parts: seq<Part>)
    requires i <= j <= |s| && ValidParts(parts) && s[i..j] == StringText(parts)
    ensures i < j && s[i] == '"' && ParseScalar(s, i) == Some(Parsed(Str(parts), j))
  {
    StringComplete(s, i, j, parts);
  }

  lemma ScalarComplete(s: Text, i: nat, j: nat, v: Json)
    requires i <= j <= |s| && Follows(s, j) && ValidValue(v) && !v.Arr? && !v.Obj? && s[i..j] == ValueText(v)
    ensures i < j && s[i] != '{' && s[i] != '[' && ParseScalar(s, i) == Some(Parsed(v, j))
  {
    match v
    case Number(n) => NumberValueComplete(s, i, j, n);
    case Str(parts) => StringValueComplete(s, i, j, parts);
    case _ => LiteralComplete(s, i, j, v);
  }

  /** An array or object without items: the bracket, its space and the closing bracket. */
  lemma EmptyComplete(s: Text, i: nat, j: nat, open: Text, space: Text, close: Text)
    requires i <= j <= |s| && Spaces(space) && s[i..j] == open + space + close
    requires |open| == 1 && |close| == 1 && !IsSpace(close[0])
    ensures i + 1 < j && s[i] == open[0] && SkipSpace(s, i + 1) == j - 1 && s[j - 1] == close[0]
            && s[i + 1..j - 1] == space
  {
    hide SkipSpace, Spaces, IsSpace;
    Split(s, i, j, open + space, close);
    Split(s, i, j - 1, open, space);
    FirstChar(s, i, i + 1, open);
    FirstChar(s, j - 1, j, close);
    SpaceComplete(s, i + 1, j - 1);
  }

  /** A bracket before items: what follows it, after space, does not close it. */
  lemma OpenComplete(s: Text, i: nat, j: nat, open: Text, space: Text, first: Text, rest: Text)
    requires i <= j <= |s| && |open| == 1 && Spaces(space) && first != [] && !IsSpace(first[0])
    requires s[i..j] == open + (space + first + rest)
    ensures i + 1 < j && s[i] == open[0] && s[i + 1..j] == space + first + rest
    ensures SkipSpace(s, i + 1) == i + 1 + |space| < |s| && s[i + 1 + |space|] == first[0]
  {
    Split(s, i, j, open, space + first + rest);
    FirstChar(s, i, i + 1, open);
    Split(s, i + 1, j, space + first, rest);
    Split(s, i + 1, i + 1 + |space + first|, space, first);
    FirstChar(s, i + 1 + |space|, i + 1 + |space + first|, first);
    SpaceComplete(s, i + 1, i + 1 + |space|);
  }

  lemma ArrayOpens(s: Text, i: nat, j: nat, items: seq<Item>)
    requires i <= j <= |s| && items != [] && ValidItems(items) && s[i..j] == "[" + ItemsText(items)
    ensures i + 1 < j && s[i] == '[' && s[i + 1..j] == ItemsText(items)
    ensures SkipSpace(s, i + 1) == |s| || s[SkipSpace(s, i + 1)] != ']'
  {
    ValueStarts(items[0].value);
    var rest := items[0].after + if |items| == 1 then "]" else "," + ItemsText(items[1..]);
    assert ItemsText(items) == items[0].before + ValueText(items[0].value) + rest;
    OpenComplete(s, i, j, "[", items[0].before, ValueText(items[0].value), rest);
  }

  lemma ObjectOpens(s: Text, i: nat, j: nat, members: seq<Member>)
    requires i <= j <= |s| && members != [] && ValidMembers(members) && s[i..j] == "{" + MembersText(members)
    ensures i + 1 < j && s[i] == '{' && s[i + 1..j] == MembersText(members)
    ensures SkipSpace(s, i + 1) == |s| || s[SkipSpace(s, i + 1)] != '}'
  {
    var m := members[0];
    assert KeyText(m.key)[0] == '"';
    var rest := ValueText(m.value) + m.after + if |members| == 1 then "}" else "," + MembersText(members[1..]);
    assert MembersText(members) == m.before + KeyText(m.key) + rest;
    OpenComplete(s, i, j, "{", m.before, KeyText(m.key), rest);
  }

  lemma {:induction false} ValueComplete(s: Text, i: nat, j: nat, v: Json)
    requires i <= j <= |s| && Follows(s, j) && ValidValue(v) && s[i..j] == ValueText(v)
    ensures ParseValue(s, i) == Some(Parsed(v, j))
    decreases v, 1
  {
    match v
    case Arr(_, _) => ArrayComplete(s, i, j, v);
    case Obj(_, _) => ObjectComplete(s, i, j, v);
    case _ => ScalarComplete(s, i, j, v);
  }

  lemma {:induction false} ArrayComplete(s: Text, i: nat, j: nat, v: Json)
    requires i <= j <= |s| && v.Arr? && ValidValue(v) && s[i..j] == ValueText(v)
    ensures ParseValue(s, i) == Some(Parsed(v, j))
    decreases v, 0
  {
    hide ParseItems, ItemsText, ValidItems;
    if v.items == [] {
      EmptyComplete(s, i, j, "[", v.space, "]");
    } else {
      assert ValueText(v) == "[" + ItemsText(v.items);
      ArrayOpens(s, i, j, v.items);
      ItemsComplete(s, i + 1, j, v.items);
    }
  }

  lemma {:induction false} ObjectComplete(s: Text, i: nat, j: nat, v: Json)
    requires i <= j <= |s| && v.Obj? && ValidValue(v) && s[i..j] == ValueText(v)
    ensures ParseValue(s, i) == Some(Parsed(v, j))
    decreases v, 0
  {
    hide ParseMembers, MembersText, ValidMembers;
    if v.members == [] {
      EmptyComplete(s, i, j, "{", v.space, "}");
    } else {
      assert ValueText(v) == "{" + MembersText(v.members);
      ObjectOpens(s, i, j, v.members);
      MembersComplete(s, i + 1, j, v.members);
    }
  }

  /** Space up to a closing character is skipped. */
  lemma SpaceSkipped(s: Text, i: nat, j: nat, space: Text)
    requires i <= j < |s| && s[j] in ",]}" && s[i..j] == space && Spaces(space)
    ensures SkipSpace(s, i) == j && Follows(s, i)
  {
    SpaceComplete(s, i, j);
    if space != [] {
      FirstChar(s, i, j, space);
    }
  }

  lemma ItemSplit(s: Text, i: nat, j: nat, item: Item)
    requires i <= j <= |s| && s[i..j] == ItemText(item)
    ensures var from := i + |item.before|; var after := from + |ValueText(item.value)|;
            && from <= after <= j
            && s[i..from] == item.before && s[from..after] == ValueText(item.value) && s[after..j] == item.after
  {
    hide ValueText;
    var after := i + |item.before| + |ValueText(item.value)|;
    Split(s, i, j, item.before + ValueText(item.value), item.after);
    Split(s, i, after, item.before, ValueText(item.value));
  }

  /** The space around a value inside a container is read back exactly. */
  lemma ItemSpaces(s: Text, i: nat, j: nat, item: Item)
    requires i <= j < |s| && s[j] in ",]}" && s[i..j] == ItemText(item)
    requires Spaces(item.before) && ValidValue(item.value) && Spaces(item.after)
    ensures var from := i + |item.before|; var after := from + |ValueText(item.value)|;
            && from < after <= j && SkipSpace(s, i) == from && SkipSpace(s, after) == j
            && s[i..from] == item.before && s[from..after] == ValueText(item.value) && s[after..j] == item.after
            && Follows(s, after)
  {
    hide ItemText, ValueText, SkipSpace, ValidValue, Follows;
    ValueStarts(item.value);
    ItemSplit(s, i, j, item);
    var from := i + |item.before|;
    var after := from + |ValueText(item.value)|;
    FirstChar(s, from, after, ValueText(item.value));
    SpaceComplete(s, i, from);
    SpaceSkipped(s, after, j, item.after);
  }

  lemma ItemFrom(s: Text, i: nat, v: Parsed<Json>, j: nat)
    requires i <= |s| && ParseValue(s, SkipSpace(s, i)) == Some(v) && SkipSpace(s, v.end) == j
    ensures ParseItem(s, i) == Some(Parsed(Item(s[i..SkipSpace(s, i)], v.value, s[v.end..j]), j))
  {
  }

  lemma {:induction false} ItemComplete(s: Text, i: nat, j: nat, item: Item)
    requires i <= j < |s| && s[j] in ",]}" && s[i..j] == ItemText(item)
    requires Spaces(item.before) && ValidValue(item.value) && Spaces(item.after)
    ensures ParseItem(s, i) == Some(Parsed(item, j))
    decreases item
  {
    hide ItemText, ValueText, ValidValue, SkipSpace, ParseItem, ParseValue, Follows, Spaces;
    ItemSpaces(s, i, j, item);
    var from := i + |item.before|;
    var after := from + |ValueText(item.value)|;
    ValueComplete(s, from, after, item.value);
    ItemFrom(s, i, Parsed(item.value, after), j);
  }

  /** What follows the first item. */
  function AfterFirst(items: seq<Item>): Text
    requires items != []
  {
    if |items| == 1 then "]" else "," + ItemsText(items[1..])
  }

  lemma ItemsFirst(items: seq<Item>)
    requires items != []
    ensures ItemsText(items) == ItemText(items[0]) + AfterFirst(items)
  {
    hide ItemText;
  }

  lemma AfterFirstRead(s: Text, k: nat, j: nat, items: seq<Item>)
    requires items != [] && k <= j <= |s| && s[k..j] == AfterFirst(items)
    ensures k < j && s[k] == if |items| == 1 then ']' else ','
    ensures if |items| == 1 then k + 1 == j else s[k + 1..j] == ItemsText(items[1..])
  {
    hide ItemsText;
    FirstChar(s, k, j, AfterFirst(items));
    if |items| > 1 {
      Split(s, k, j, ",", ItemsText(items[1..]));
    }
  }

  /** An item, and what comes after it. */
  lemma ItemsHead(s: Text, i: nat, j: nat, items: seq<Item>) returns (k: nat)
    requires i <= j <= |s| && items != [] && s[i..j] == ItemsText(items)
    ensures i <= k < j && s[i..k] == ItemText(items[0]) && s[k] in ",]}"
    ensures |items| == 1 ==> s[k] == ']' && k + 1 == j
    ensures |items| > 1 ==> s[k] == ',' && s[k + 1..j] == ItemsText(items[1..])
  {
    hide ItemText, ItemsText, AfterFirst;
    ItemsFirst(items);
    Split(s, i, j, ItemText(items[0]), AfterFirst(items));
    k := i + |ItemText(items[0])|;
    AfterFirstRead(s, k, j, items);
  }

  lemma ItemsFrom(s: Text, i: nat, item: Parsed<Item>, rest: Parsed<seq<Item>>)
    requires i <= |s| && ParseItem(s, i) == Some(item) && item.end < |s| && s[item.end] == ','
    requires ParseItems(s, item.end + 1) == Some(rest)
    ensures ParseItems(s, i) == Some(Parsed([item.value] + rest.value, rest.end))
  {
    hide ParseItem;
  }

  lemma {:induction false} ItemsComplete(s: Text, i: nat, j: nat, items: seq<Item>)
    requires i <= j <= |s| && items != [] && ValidItems(items) && s[i..j] == ItemsText(items)
    ensures ParseItems(s, i) == Some(Parsed(items, j))
    decreases items
  {
    hide ItemText, ItemsText;
    var k := ItemsHead(s, i, j, items);
    ItemComplete(s, i, k, items[0]);
    if |items| > 1 {
      ItemsComplete(s, k + 1, j, items[1..]);
      ItemsFrom(s, i, Parsed(items[0], k), Parsed(items[1..], j));
      assert items == [items[0]] + items[1..];
    } else {
      assert items == [items[0]];
    }
  }

  lemma MemberSplit(s: Text, i: nat, j: nat, m: Member)
    requires i <= j <= |s| && s[i..j] == MemberText(m)
    ensures var from := i + |m.before|; var value := from + |KeyText(m.key)|; var after := value + |ValueText(m.value)|;
            && from <= value <= after <= j
            && s[i..from] == m.before && s[from..value] == KeyText(m.key)
            && s[value..after] == ValueText(m.value) && s[after..j] == m.after
  {
    hide ValueText, KeyText;
    SplitFour(s, i, j, m.before, KeyText(m.key), ValueText(m.value), m.after);
  }

  lemma MemberSpaces(s: Text, i: nat, j: nat, m: Member)
    requires i <= j < |s| && s[j] in ",]}" && s[i..j] == MemberText(m)
    requires Spaces(m.before) && ValidKey(m.key) && ValidValue(m.value) && Spaces(m.after)
    ensures var from := i + |m.before|; var value := from + |KeyText(m.key)|; var after := value + |ValueText(m.value)|;
            && from < value < after <= j && SkipSpace(s, i) == from && SkipSpace(s, after) == j
            && s[i..from] == m.before && s[from..value] == KeyText(m.key)
            && s[value..after] == ValueText(m.value) && s[after..j] == m.after
            && ParseKey(s, from) == Some(Parsed(m.key, value)) && Follows(s, after)
  {
    hide MemberText, ParseKey, ValueText, KeyText, ValidValue, ValidKey, SkipSpace, Follows;
    ValueStarts(m.value);
    MemberSplit(s, i, j, m);
    var from := i + |m.before|;
    var value := from + |KeyText(m.key)|;
    var after := value + |ValueText(m.value)|;
    FirstChar(s, value, after, ValueText(m.value));
    KeyComplete(s, from, value, m.key);
    SpaceComplete(s, i, from);
    SpaceSkipped(s, after, j, m.after);
  }

  lemma MemberFrom(s: Text, i: nat, key: Parsed<Key>, v: Parsed<Json>, j: nat)
    requires i <= |s| && ParseKey(s, SkipSpace(s, i)) == Some(key) && ParseValue(s, key.end) == Some(v)
             && SkipSpace(s, v.end) == j
    ensures ParseMember(s, i) == Some(Parsed(Member(s[i..SkipSpace(s, i)], key.value, v.value, s[v.end..j]), j))
  {
  }

  lemma {:induction false} MemberComplete(s: Text, i: nat, j: nat, m: Member)
    requires i <= j < |s| && s[j] in ",]}" && s[i..j] == MemberText(m)
    requires Spaces(m.before) && ValidKey(m.key) && ValidValue(m.value) && Spaces(m.after)
    ensures ParseMember(s, i) == Some(Parsed(m, j))
    decreases m
  {
    hide MemberText, KeyText, ValueText, ValidKey, ValidValue, SkipSpace, ParseKey, ParseMember, ParseValue, Follows,
      Spaces;
    MemberSpaces(s, i, j, m);
    var value := i + |m.before| + |KeyText(m.key)|;
    var after := value + |ValueText(m.value)|;
    ValueComplete(s, value, after, m.value);
    MemberFrom(s, i, Parsed(m.key, value), Parsed(m.value, after), j);
  }

  function AfterFirstMember(members: seq<Member>): Text
    requires members != []
  {
    if |members| == 1 then "}" else "," + MembersText(members[1..])
  }

  lemma MembersFirst(members: seq<Member>)
    requires members != []
    ensures MembersText(members) == MemberText(members[0]) + AfterFirstMember(members)
  {
    hide MemberText;
  }

  lemma AfterFirstMemberRead(s: Text, k: nat, j: nat, members: seq<Member>)
    requires members != [] && k <= j <= |s| && s[k..j] == AfterFirstMember(members)
    ensures k < j && s[k] == if |members| == 1 then '}' else ','
    ensures if |members| == 1 then k + 1 == j else s[k + 1..j] == MembersText(members[1..])
  {
    hide MembersText;
    FirstChar(s, k, j, AfterFirstMember(members));
    if |members| > 1 {
      Split(s, k, j, ",", MembersText(members[1..]));
    }
  }

  lemma MembersHead(s: Text, i: nat, j: nat, members: seq<Member>) returns (k: nat)
    requires i <= j <= |s| && members != [] && s[i..j] == MembersText(members)
    ensures i <= k < j && s[i..k] == MemberText(members[0]) && s[k] in ",]}"
    ensures |members| == 1 ==> s[k] == '}' && k + 1 == j
    ensures |members| > 1 ==> s[k] == ',' && s[k + 1..j] == MembersText(members[1..])
  {
    hide MemberText, MembersText, AfterFirstMember;
    MembersFirst(members);
    Split(s, i, j, MemberText(members[0]), AfterFirstMember(members));
    k := i + |MemberText(members[0])|;
    AfterFirstMemberRead(s, k, j, members);
  }

  lemma MembersFrom(s: Text, i: nat, member: Parsed<Member>, rest: Parsed<seq<Member>>)
    requires i <= |s| && ParseMember(s, i) == Some(member) && member.end < |s| && s[member.end] == ','
    requires ParseMembers(s, member.end + 1) == Some(rest)
    ensures ParseMembers(s, i) == Some(Parsed([member.value] + rest.value, rest.end))
  {
    hide ParseMember;
  }

  lemma MembersLast(s: Text, i: nat, member: Parsed<Member>)
    requires i <= |s| && ParseMember(s, i) == Some(member) && member.end < |s| && s[member.end] == '}'
    ensures ParseMembers(s, i) == Some(Parsed([member.value], member.end + 1))
  {
    hide ParseMember;
  }

  lemma {:induction false} MembersComplete(s: Text, i: nat, j: nat, members: seq<Member>)
    requires i <= j <= |s| && members != [] && ValidMembers(members) && s[i..j] == MembersText(members)
    ensures ParseMembers(s, i) == Some(Parsed(members, j))
    decreases members
  {
    hide ParseMembers, MemberText, MembersText;
    var k := MembersHead(s, i, j, members);
    MemberComplete(s, i, k, members[0]);
    if |members| > 1 {
      MembersComplete(s, k + 1, j, members[1..]);
      MembersFrom(s, i, Parsed(members[0], k), Parsed(members[1..], j));
      assert members == [members[0]] + members[1..];
    } else {
      MembersLast(s, i, Parsed(members[0], k));
      assert members == [members[0]];
    }
  }

  /** The whole text is one value with space around it. */
  predicate ParsesWhole(s: Text) {
    var r := ParseValue(s, SkipSpace(s, 0));
    r.Some? && SkipSpace(s, r.value.end) == |s|
  }

  /** The parser accepts exactly the JSON texts. */
  lemma ParsesWholeIffJson(s: Text)
    ensures ParsesWhole(s) <==> IsJson(s)
  {
    hide ParseValue, ValueText, ValidValue;
    if ParsesWhole(s) {
      var from := SkipSpace(s, 0);
      var p := ParseValue(s, from).value;
      ValueSound(s, from, p);
      Join(s, 0, from, p.end);
      Join(s, 0, p.end, |s|);
      assert s[0..|s|] == s;
      var d := Document(s[0..from], p.value, s[p.end..|s|]);
      assert Spells(d, s);
    }
    forall d: Document | Spells(d, s)
      ensures ParsesWhole(s)
    {
      DocumentComplete(s, d);
    }
  }

  lemma DocumentComplete(s: Text, d: Document)
    requires Spells(d, s)
    ensures ParseValue(s, SkipSpace(s, 0)) == Some(Parsed(d.value, |d.before| + |ValueText(d.value)|))
    ensures ParsesWhole(s)
  {
    var from := |d.before|;
    var after := from + |ValueText(d.value)|;
    assert s[0..|s|] == s;
    Split(s, 0, |s|, d.before + ValueText(d.value), d.after);
    Split(s, 0, after, d.before, ValueText(d.value));
    ValueStarts(d.value);
    FirstChar(s, from, after, ValueText(d.value));
    SpaceComplete(s, 0, from);
    SpaceComplete(s, after, |s|);
    if d.after != [] {
      FirstChar(s, after, |s|, d.after);
    }
    ValueComplete(s, from, after, d.value);
  }
}
