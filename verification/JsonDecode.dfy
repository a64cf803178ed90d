/** The single-pass JSON decoder. On text the grammar accepts it returns the
    meaning of the syntax tree there, unless that nests too deeply. */
module JsonDecode {
  import opened Wrappers
  import opened JsonSyntax
  import opened JsonParse
  import opened JsonTree
  import opened JsonUnicode
  import opened Trees
  import opened JsonValidate

  const MAX_DECODE_DEPTH: nat := 10000

  /** The rest of a string from i on: what it stands for, and where it ends. */
  function StringFrom(s: Text, i: nat): (r: Option<Parsed<Text>>)
    requires i <= |s|
    ensures r.Some? ==> i < r.value.end <= |s|
  {
    match ParseParts(s, i)
    case None => None
    case Some(p) => Some(Parsed(PartsValue(p.value), p.end))
  }

  /** Having read the string from i as far as next, with the value so far extended from before to after. */
  ghost predicate Advances(s: Text, i: nat, next: nat, before: Text, after: Text)
    requires i <= |s|
  {
    StringFrom(s, i).Some? ==>
      && i <= next <= |s| && StringFrom(s, next).Some?
      && StringFrom(s, next).value.end == StringFrom(s, i).value.end
      && before + StringFrom(s, i).value.value == after + StringFrom(s, next).value.value
  }

  lemma AppendStep<T>(before: seq<T>, text: seq<T>, rest: seq<T>)
    ensures before + (text + rest) == before + text + rest
  {
  }

  /** Where a string ends, and where it cannot go on. */
  lemma StringEnds(s: Text, i: nat)
    requires i <= |s|
    ensures i == |s| || s[i] as int < 0x20 ==> StringFrom(s, i).None?
    ensures i < |s| && s[i] == '"' ==> StringFrom(s, i) == Some(Parsed("", i + 1))
  {
  }

  /** Reading one part that is not half of a surrogate pair appends its value. */
  lemma PartAdvances(s: Text, i: nat, before: Text, text: Text)
    requires i < |s| && s[i] != '"'
    requires ParsePart(s, i).Some? ==>
               var part := ParsePart(s, i).value.value;
               (part.Plain? && text == part.bytes) || (part.Escape? && text == [Unescape(part.letter)])
    ensures ParsePart(s, i).Some? ==> Advances(s, i, ParsePart(s, i).value.end, before, before + text)
    ensures ParsePart(s, i).None? ==> StringFrom(s, i).None?
  {
    if StringFrom(s, i).Some? {
      var part := ParsePart(s, i).value;
      var rest := ParseParts(s, part.end).value;
      assert ([part.value] + rest.value)[1..] == rest.value;
      AppendStep(before, text, PartsValue(rest.value));
    }
  }

  method ParseHex4(s: Text, i: nat) returns (r: nat, ok: bool)
    requires i <= |s|
    ensures ok <==> i + 4 <= |s| && forall j :: i <= j < i + 4 ==> IsHex(s[j])
    ensures ok ==> r == Hex4(s[i..i + 4])
  {
    if i + 4 > |s| {
      return 0, false;
    }
    r := 0;
    for j := 0 to 4
      invariant forall k :: i <= k < i + j ==> IsHex(s[k])
      invariant j == 1 ==> r == HexDigit(s[i])
      invariant j == 2 ==> r == HexDigit(s[i]) * 16 + HexDigit(s[i + 1])
      invariant j == 3 ==> r == (HexDigit(s[i]) * 16 + HexDigit(s[i + 1])) * 16 + HexDigit(s[i + 2])
      invariant j == 4 ==> r == Hex4(s[i..i + 4])
      invariant j == 0 ==> r == 0
    {
      var c := s[i + j];
      if c >= '0' && c <= '9' {
        r := r * 16 + (c as int - '0' as int);
      } else if c >= 'a' && c <= 'f' {
        r := r * 16 + (c as int - 'a' as int + 10);
      } else if c >= 'A' && c <= 'F' {
        r := r * 16 + (c as int - 'A' as int + 10);
      } else {
        return 0, false;
      }
    }
    ok := true;
  }

  /** A \uXXXX escape stands at i. */
  predicate UnicodeAt(s: Text, i: nat) {
    i + 6 <= |s| && s[i] == '\\' && s[i + 1] == 'u' && forall j :: i + 2 <= j < i + 6 ==> IsHex(s[j])
  }

  function UnicodeValue(s: Text, i: nat): nat
    requires UnicodeAt(s, i)
  {
    Hex4(s[i + 2..i + 6])
  }

  lemma UnicodePart(s: Text, i: nat)
    requires UnicodeAt(s, i) && ParseParts(s, i).Some?
    ensures ParseParts(s, i + 6).Some? && ParseParts(s, i + 6).value.end == ParseParts(s, i).value.end
    ensures ParseParts(s, i).value.value == [Unicode(s[i + 2..i + 6])] + ParseParts(s, i + 6).value.value
  {
  }

  /** A \uXXXX escape that is not half of a pair. */
  lemma UnicodeAdvances(s: Text, i: nat, before: Text, r: nat)
    requires UnicodeAt(s, i)
    requires StringFrom(s, i).Some? ==> !Paired(ParseParts(s, i).value.value)
    requires r == if IsSurrogate(UnicodeValue(s, i)) then RUNE_ERROR else UnicodeValue(s, i)
    ensures Advances(s, i, i + 6, before, before + EncodeRune(r))
  {
    if StringFrom(s, i).Some? {
      UnicodePart(s, i);
      var rest := ParseParts(s, i + 6).value.value;
      LoneValue(s[i + 2..i + 6], rest);
      AppendStep(before, EncodeRune(r), PartsValue(rest));
    }
  }

  /** Two \uXXXX escapes that form a surrogate pair. */
  lemma PairAdvances(s: Text, i: nat, before: Text)
    requires UnicodeAt(s, i) && UnicodeAt(s, i + 6)
    requires DecodeSurrogates(UnicodeValue(s, i), UnicodeValue(s, i + 6)) != RUNE_ERROR
    ensures Advances(s, i, i + 12, before, before
                     + EncodeRune(DecodeSurrogates(UnicodeValue(s, i), UnicodeValue(s, i + 6))))
  {
    if StringFrom(s, i).Some? {
      UnicodePart(s, i);
      UnicodePart(s, i + 6);
      var rest := ParseParts(s, i + 12).value.value;
      PairValue(s[i + 2..i + 6], s[i + 8..i + 12], rest);
      AppendStep(before, EncodeRune(DecodeSurrogates(UnicodeValue(s, i), UnicodeValue(s, i + 6))), PartsValue(rest));
    }
  }

  /** A pair in the parts of a string is two escapes in its text. */
  lemma NotPaired(s: Text, i: nat)
    requires UnicodeAt(s, i)
    ensures StringFrom(s, i).Some? && Paired(ParseParts(s, i).value.value) ==>
              UnicodeAt(s, i + 6) && DecodeSurrogates(UnicodeValue(s, i), UnicodeValue(s, i + 6)) != RUNE_ERROR
  {
    if StringFrom(s, i).Some? && Paired(ParseParts(s, i).value.value) {
      UnicodePart(s, i);
      var tail := ParseParts(s, i + 6).value.value;
      assert ParsePart(s, i + 6).value.value == tail[0] == ParseParts(s, i).value.value[1];
    }
  }

  /** What a \uXXXX escape at i stands for, with the low surrogate after it, and where that ends. */
  function UnicodeRune(s: Text, i: nat): (r: (nat, nat))
    requires UnicodeAt(s, i)
    ensures i < r.1 <= |s|
  {
    var r := UnicodeValue(s, i);
    if !IsSurrogate(r) then (r, i + 6)
    else if UnicodeAt(s, i + 6) && DecodeSurrogates(r, UnicodeValue(s, i + 6)) != RUNE_ERROR then
      (DecodeSurrogates(r, UnicodeValue(s, i + 6)), i + 12)
    else (RUNE_ERROR, i + 6)
  }

  lemma UnicodeRuneAdvances(s: Text, i: nat, before: Text)
    requires UnicodeAt(s, i)
    ensures Advances(s, i, UnicodeRune(s, i).1, before, before + EncodeRune(UnicodeRune(s, i).0))
  {
    if IsSurrogate(UnicodeValue(s, i)) && UnicodeAt(s, i + 6) &&
       DecodeSurrogates(UnicodeValue(s, i), UnicodeValue(s, i + 6)) != RUNE_ERROR {
      PairAdvances(s, i, before);
    } else {
      if StringFrom(s, i).Some? && Paired(ParseParts(s, i).value.value) {
        NotPaired(s, i);
        UnicodePart(s, i);
      }
      UnicodeAdvances(s, i, before, UnicodeRune(s, i).0);
    }
  }

  /** Decodes a \uXXXX escape whose 'u' is at i, with the low surrogate after it. */
  method ReadUnicode(s: Text, i: nat) returns (r: nat, next: nat, ok: bool)
    requires 0 < i < |s| && s[i - 1] == '\\' && s[i] == 'u'
    ensures ok <==> UnicodeAt(s, i - 1)
    ensures ok ==> (r, next) == UnicodeRune(s, i - 1)
  {
    r, ok := ParseHex4(s, i + 1);
    if !ok {
      return r, i, false;
    }
    next := i + 5;
    if IsSurrogate(r) {
      var r2 := RUNE_ERROR;
      if next + 1 < |s| && s[next] == '\\' && s[next + 1] == 'u' {
        var lo, loOK := ParseHex4(s, next + 2);
        if loOK {
          var dec := DecodeSurrogates(r, lo);
          if dec != RUNE_ERROR {
            r2 := dec;
            next := next + 6;
          }
        }
      }
      r := r2;
    }
  }

  /** Decodes the escape whose letter is at i, just past the backslash. */
  method AppendEscape(buf: Text, s: Text, i: nat) returns (out: Text, next: nat, ok: bool)
    requires 0 < i <= |s| && s[i - 1] == '\\'
    ensures ok ==> i < next <= |s|
    ensures Advances(s, i - 1, next, buf, out) && (StringFrom(s, i - 1).Some? ==> ok)
  {
    if i >= |s| {
      return buf, i, false;
    }
    if s[i] == 'u' {
      var r, end, valid := ReadUnicode(s, i);
      if !valid {
        return buf, i, false;
      }
      UnicodeRuneAdvances(s, i - 1, buf);
      return buf + EncodeRune(r), end, true;
    }
    PartAdvances(s, i - 1, buf, [Unescape(s[i])]);
    var c := s[i];
    if c == '"' || c == '\\' || c == '/' {
      return buf + [c], i + 1, true;
    } else if c == 'b' {
      return buf + ['\U{8}'], i + 1, true;
    } else if c == 'f' {
      return buf + ['\U{c}'], i + 1, true;
    } else if c == 'n' {
      return buf + ['\n'], i + 1, true;
    } else if c == 'r' {
      return buf + ['\r'], i + 1, true;
    } else if c == 't' {
      return buf + ['\t'], i + 1, true;
    }
    return buf, i, false;
  }

  /** What the decoder returns for the value at i, when the text there is valid: its
      meaning and its end, unless it nests deeper than the decoder goes. */
  ghost predicate Decodes(s: Text, i: nat, depth: nat, v: Tree, end: nat, ok: bool)
    requires i <= |s|
  {
    var p := ParseValue(s, i);
    p.Some? ==>
      && (ok <==> depth + Nesting(p.value.value) <= MAX_DECODE_DEPTH)
      && (ok ==> v == Meaning(p.value.value) && end == p.value.end)
  }

  /** What the rest of a container holds: its values, how deeply they nest, and where it ends. */
  datatype Rest<T> = Rest(values: seq<T>, nesting: nat, end: nat) {
    /** Having read values, r is the rest; and nesting too deep is nesting too deep in the rest. */
    ghost predicate After(values: seq<T>, r: Option<Rest<T>>, depth: nat) {
      && r.Some? && this.values == values + r.value.values && end == r.value.end
      && (depth + nesting <= MAX_DECODE_DEPTH <==> depth + r.value.nesting <= MAX_DECODE_DEPTH)
    }
  }

  ghost function ItemsRest(s: Text, i: nat): Option<Rest<Tree>>
    requires i <= |s|
  {
    match ParseItems(s, i)
    case None => None
    case Some(p) => Some(Rest(ItemsMeaning(p.value), ItemsNesting(p.value), p.end))
  }

  ghost function MembersRest(s: Text, i: nat): Option<Rest<Field>>
    requires i <= |s|
  {
    match ParseMembers(s, i)
    case None => None
    case Some(p) => Some(Rest(MembersMeaning(p.value), MembersNesting(p.value), p.end))
  }

  /** What follows an item that ends at i: the items after a ',', or none before the bracket. */
  ghost function AfterItem(s: Text, i: nat): Option<Rest<Tree>> {
    if i < |s| && s[i] == ',' then ItemsRest(s, i + 1)
    else if i < |s| && s[i] == ']' then Some(Rest([], 0, i + 1))
    else None
  }

  ghost function AfterMember(s: Text, i: nat): Option<Rest<Field>> {
    if i < |s| && s[i] == ',' then MembersRest(s, i + 1)
    else if i < |s| && s[i] == '}' then Some(Rest([], 0, i + 1))
    else None
  }

  /** Reading in two steps. */
  lemma AfterBoth<T>(all: Rest<T>, values: seq<T>, rest: Option<Rest<T>>, item: T, tail: Option<Rest<T>>, depth: nat)
    requires all.After(values, rest, depth) && rest.value.After([item], tail, depth)
    ensures all.After(values + [item], tail, depth)
  {
    AppendStep(values, [item], tail.value.values);
  }

  /** The rest of an array is its next item and what follows that. */
  lemma ItemsRestStep(s: Text, i: nat) returns (v: Parsed<Json>, tail: Rest<Tree>)
    requires i <= |s| && ItemsRest(s, i).Some?
    ensures ParseValue(s, SkipSpace(s, i)) == Some(v) && AfterItem(s, SkipSpace(s, v.end)) == Some(tail)
    ensures ItemsRest(s, i) ==
              Some(Rest([Meaning(v.value)] + tail.values, Max(Nesting(v.value), tail.nesting), tail.end))
  {
    var p := ParseItems(s, i).value;
    var item, more := ItemsParts(s, i, p);
    assert p.value[1..] == more.value;
    v := ParseValue(s, SkipSpace(s, i)).value;
    tail := Rest(ItemsMeaning(more.value), ItemsNesting(more.value), more.end);
  }

  /** The rest of an object, as ItemsRestStep says of an array. */
  lemma MembersRestStep(s: Text, i: nat) returns (key: Parsed<Key>, v: Parsed<Json>, tail: Rest<Field>)
    requires i <= |s| && MembersRest(s, i).Some?
    ensures ParseKey(s, SkipSpace(s, i)) == Some(key) && ParseValue(s, key.end) == Some(v)
    ensures AfterMember(s, SkipSpace(s, v.end)) == Some(tail)
    ensures MembersRest(s, i) == Some(Rest([Field(PartsValue(key.value.parts), Meaning(v.value))] + tail.values,
                                           Max(Nesting(v.value), tail.nesting), tail.end))
  {
    hide ParseMembers, ParseKey, ParseValue, SkipSpace;
    var p := ParseMembers(s, i).value;
    var member, more := MembersParts(s, i, p);
    assert p.value[1..] == more.value;
    key := ParseKey(s, SkipSpace(s, i)).value;
    v := ParseValue(s, key.end).value;
    tail := Rest(MembersMeaning(more.value), MembersNesting(more.value), more.end);
  }

  /** An array's values are those of its items; it nests one deeper. */
  lemma ArrayMeaning(s: Text, i: nat)
    requires i < |s| && s[i] == '['
    requires SkipSpace(s, i + 1) == |s| || s[SkipSpace(s, i + 1)] != ']'
    ensures ParseValue(s, i).Some? <==> ItemsRest(s, i + 1).Some?
    ensures ParseValue(s, i).Some? ==>
              var p, rest := ParseValue(s, i).value, ItemsRest(s, i + 1).value;
              Meaning(p.value) == ArrTree(rest.values) && Nesting(p.value) == 1 + rest.nesting && p.end == rest.end
  {
  }

  lemma ObjectMeaning(s: Text, i: nat)
    requires i < |s| && s[i] == '{'
    requires SkipSpace(s, i + 1) == |s| || s[SkipSpace(s, i + 1)] != '}'
    ensures ParseValue(s, i).Some? <==> MembersRest(s, i + 1).Some?
    ensures ParseValue(s, i).Some? ==>
              var p, rest := ParseValue(s, i).value, MembersRest(s, i + 1).value;
              Meaning(p.value) == ObjTree(Gather(rest.values, [])) && Nesting(p.value) == 1 + rest.nesting
                  && p.end == rest.end
  {
  }

  /** The object holding the pairs, each set in turn. */
  method NewMap(pairs: seq<Field>) returns (fields: seq<Field>)
    ensures fields == Gather(pairs, [])
  {
    fields := [];
    for i := 0 to |pairs|
      invariant Gather(pairs, []) == Gather(pairs[i..], fields)
    {
      assert pairs[i..][1..] == pairs[i + 1..];
      fields := SetField(fields, pairs[i].key, pairs[i].value);
    }
  }

  class FastDecoder {
    const src: Text
    var pos: nat
    var pairs: seq<Field>
    var scratch: Text

    constructor (src: Text)
      ensures this.src == src && pos == 0 && pairs == []
    {
      this.src := src;
      pos, pairs, scratch := 0, [], "";
    }

    method SkipWS()
      requires pos <= |src|
      modifies this`pos
      ensures pos == SkipSpace(src, old(pos))
    {
      while pos < |src|
        invariant old(pos) <= pos <= |src| && SkipSpace(src, pos) == SkipSpace(src, old(pos))
      {
        if src[pos] == ' ' || src[pos] == '\t' || src[pos] == '\n' || src[pos] == '\r' {
          pos := pos + 1;
        } else {
          return;
        }
      }
    }

    method Lit(text: Text) returns (ok: bool)
      requires pos <= |src|
      modifies this`pos
      ensures ok <==> old(pos) + |text| <= |src| && src[old(pos)..old(pos) + |text|] == text
      ensures pos == if ok then old(pos) + |text| else old(pos)
    {
      if |src| - pos < |text| || src[pos..pos + |text|] != text {
        return false;
      }
      pos := pos + |text|;
      return true;
    }

    /** Decodes the string at pos, as far as it is plain ASCII. */
    method Str() returns (v: Text, ok: bool)
      requires pos < |src| && src[pos] == '"'
      modifies this`pos, this`scratch
      ensures pos <= |src| && (ok ==> old(pos) < pos)
      ensures var p := StringFrom(src, old(pos) + 1); p.Some? ==> ok && v == p.value.value && pos == p.value.end
    {
      hide StringFrom;
      var start := pos + 1;
      var i := start;
      while i < |src|
        invariant start <= i <= |src| && pos == old(pos)
        invariant Advances(src, start, i, "", src[start..i])
      {
        var c := src[i];
        StringEnds(src, i);
        if c == '"' {
          pos := i + 1;
          assert src[start..i] + "" == src[start..i];
          return src[start..i], true;
        }
        if c == '\\' || c as int < 0x20 || c as int >= 0x80 {
          break;
        }
        PartAdvances(src, i, src[start..i], [c]);
        assert src[start..i + 1] == src[start..i] + [c];
        i := i + 1;
      }
      v, ok := StrSlow(start, i);
    }

    /** Decodes a string with escapes or non-ASCII characters, from i on. */
    method StrSlow(start: nat, from: nat) returns (v: Text, ok: bool)
      requires 0 < start <= from <= |src| && pos < start
      requires Advances(src, start, from, "", src[start..from])
      modifies this`pos, this`scratch
      ensures pos <= |src| && (ok ==> start <= pos)
      ensures var p := StringFrom(src, start); p.Some? ==> ok && v == p.value.value && pos == p.value.end
    {
      hide StringFrom, EncodeRune;
      var i := from;
      var buf := src[start..from];
      while i < |src|
        invariant from <= i <= |src| && pos == old(pos)
        invariant Advances(src, start, i, "", buf)
      {
        var c := src[i];
        StringEnds(src, i);
        if c == '"' {
          pos := i + 1;
          scratch := buf;
          assert buf + "" == buf;
          return buf, true;
        } else if c as int < 0x20 {
          return "", false;
        } else if c == '\\' {
          var valid;
          buf, i, valid := AppendEscape(buf, src, i + 1);
          if !valid {
            return "", false;
          }
        } else if c as int < 0x80 {
          PartAdvances(src, i, buf, [c]);
          buf := buf + [c];
          i := i + 1;
        } else {
          var (r, size) := DecodeRune(src, i);
          if DecodeRune(src, i) != (RUNE_ERROR, 1) {
            EncodeDecoded(src, i);
          }
          PartAdvances(src, i, buf, EncodeRune(r));
          buf := buf + EncodeRune(r);
          i := i + size;
        }
      }
      StringEnds(src, i);
      return "", false;
    }

    /** Decodes a number, which is the grammar's. */
    method Numeral() returns (v: Tree, ok: bool)
      requires pos < |src|
      modifies this`pos
      ensures pos <= |src| && (ok ==> old(pos) < pos) && (ok <==> ParseNumber(src, old(pos)).Some?)
      ensures ok ==>
                && v == NumTree(ParseNumber(src, old(pos)).value.value.Text())
                && pos == ParseNumber(src, old(pos)).value.end
    {
      var end, valid := ValidJSONNumber(src, pos);
      if !valid {
        return NullTree, false;
      }
      NumberSound(src, pos);
      v := NumTree(src[pos..end]);
      pos := end;
      ok := true;
    }

    method Scalar(ghost depth: nat) returns (v: Tree, ok: bool)
      requires pos < |src| && src[pos] != '{' && src[pos] != '[' && depth <= MAX_DECODE_DEPTH
      modifies this`pos, this`scratch
      ensures pos <= |src| && (ok ==> old(pos) < pos)
      ensures Decodes(src, old(pos), depth, v, pos, ok)
    {
      var c := src[pos];
      if c == '"' {
        var text;
        text, ok := Str();
        v := StrTree(text);
      } else if c == 't' {
        ok := Lit("true");
        v := BoolTree(true);
      } else if c == 'f' {
        ok := Lit("false");
        v := BoolTree(false);
      } else if c == 'n' {
        ok := Lit("null");
        v := NullTree;
      } else if c == '-' || (c >= '0' && c <= '9') {
        v, ok := Numeral();
      } else {
        v, ok := NullTree, false;
      }
    }

    /** Decodes the value at pos, which is nested in depth containers. */
    method Value(depth: nat) returns (v: Tree, ok: bool)
      requires pos <= |src| && depth <= MAX_DECODE_DEPTH
      modifies this
      ensures pos <= |src| && (ok ==> old(pos) < pos && pairs == old(pairs))
      ensures Decodes(src, old(pos), depth, v, pos, ok)
      decreases |src| - pos, 1
    {
      if pos >= |src| {
        return NullTree, false;
      }
      if src[pos] == '{' {
        v, ok := Object(depth + 1);
      } else if src[pos] == '[' {
        v, ok := Array(depth + 1);
      } else {
        v, ok := Scalar(depth);
      }
    }

    /** Decodes the array at pos, itself the depth-th container. */
    method Array(depth: nat) returns (v: Tree, ok: bool)
      requires pos < |src| && src[pos] == '[' && 0 < depth <= MAX_DECODE_DEPTH + 1
      modifies this
      ensures pos <= |src| && (ok ==> old(pos) < pos && pairs == old(pairs))
      ensures Decodes(src, old(pos), depth - 1, v, pos, ok)
      decreases |src| - pos, 0
    {
      if depth > MAX_DECODE_DEPTH {
        return NullTree, false;
      }
      ghost var start := pos + 1;
      pos := pos + 1;
      SkipWS();
      if pos < |src| && src[pos] == ']' {
        pos := pos + 1;
        return ArrTree([]), true;
      }
      ArrayMeaning(src, start - 1);
      var arr;
      arr, ok := ArrayItems(start, depth);
      v := ArrTree(arr);
    }

    /** Decodes the next item of an array whose rest starts at i, up to the ',' or ']' after it. */
    method ArrayItem(ghost i: nat, depth: nat) returns (item: Tree, ok: bool)
      requires i <= pos <= |src| && pos == SkipSpace(src, i) && depth <= MAX_DECODE_DEPTH
      modifies this
      ensures pos <= |src| && (ok ==> old(pos) < pos < |src| && pairs == old(pairs))
      ensures var rest := ItemsRest(src, i);
              rest.Some? ==> if ok then rest.value.After([item], AfterItem(src, pos), depth)
                             else depth + rest.value.nesting > MAX_DECODE_DEPTH
      decreases |src| - pos, 2
    {
      ghost var rest := ItemsRest(src, i);
      if rest.Some? {
        var v, tail := ItemsRestStep(src, i);
      }
      item, ok := Value(depth);
      if !ok {
        return;
      }
      SkipWS();
      ok := pos < |src|;
    }

    /** Decodes the items from pos on, of an array whose text starts at start. */
    method ArrayItems(ghost start: nat, depth: nat) returns (arr: seq<Tree>, ok: bool)
      requires start <= pos <= |src| && pos == SkipSpace(src, start) && depth <= MAX_DECODE_DEPTH
      modifies this
      ensures pos <= |src| && (ok ==> old(pos) < pos && pairs == old(pairs))
      ensures var all := ItemsRest(src, start);
              all.Some? ==> (ok <==> depth + all.value.nesting <= MAX_DECODE_DEPTH) &&
                            (ok ==> arr == all.value.values && pos == all.value.end)
      decreases |src| - pos, 3
    {
      hide ParseItems, ParseValue, ItemsRest;
      arr := [];
      ghost var i := start;
      ghost var all := ItemsRest(src, start);
      while true
        invariant start <= i <= pos <= |src| && old(pos) <= pos && pos == SkipSpace(src, i) && pairs == old(pairs)
        invariant all.Some? ==> all.value.After(arr, ItemsRest(src, i), depth)
        decreases |src| - pos
      {
        var item, valid := ArrayItem(i, depth);
        if !valid {
          return [], false;
        }
        if all.Some? {
          AfterBoth(all.value, arr, ItemsRest(src, i), item, AfterItem(src, pos), depth);
        }
        arr := arr + [item];
        if src[pos] == ',' {
          pos := pos + 1;
          i := pos;
          SkipWS();
        } else {
          ok := src[pos] == ']';
          pos := pos + 1;
          return;
        }
      }
    }

    /** Decodes the key at pos and the ':' after it. */
    method MemberKey() returns (key: Text, ok: bool)
      requires pos <= |src|
      modifies this`pos, this`scratch
      ensures pos <= |src| && (ok ==> old(pos) < pos)
      ensures var p := ParseKey(src, old(pos)); p.Some? ==>
                && ok && key == PartsValue(p.value.value.parts)
                && pos == p.value.end
    {
      if pos >= |src| || src[pos] != '"' {
        return "", false;
      }
      key, ok := Str();
      if !ok {
        return "", false;
      }
      SkipWS();
      if pos >= |src| || src[pos] != ':' {
        return "", false;
      }
      pos := pos + 1;
      SkipWS();
    }

    /** Decodes the next member of an object whose rest starts at i, up to the ',' or '}' after it. */
    method ObjectMember(ghost i: nat, depth: nat) returns (field: Field, ok: bool)
      requires i <= pos <= |src| && pos == SkipSpace(src, i) && depth <= MAX_DECODE_DEPTH
      modifies this
      ensures pos <= |src| && (ok ==> old(pos) < pos < |src| && pairs == old(pairs))
      ensures var rest := MembersRest(src, i);
              rest.Some? ==> if ok then rest.value.After([field], AfterMember(src, pos), depth)
                             else depth + rest.value.nesting > MAX_DECODE_DEPTH
      decreases |src| - pos, 2
    {
      ghost var rest := MembersRest(src, i);
      if rest.Some? {
        var k, v, tail := MembersRestStep(src, i);
      }
      var key, valid := MemberKey();
      if !valid {
        return Field("", NullTree), false;
      }
      var v;
      v, ok := Value(depth);
      field := Field(key, v);
      if !ok {
        return;
      }
      SkipWS();
      ok := pos < |src|;
    }

    /** Decodes the object at pos, itself the depth-th container. */
    method Object(depth: nat) returns (v: Tree, ok: bool)
      requires pos < |src| && src[pos] == '{' && 0 < depth <= MAX_DECODE_DEPTH + 1
      modifies this
      ensures pos <= |src| && (ok ==> old(pos) < pos && pairs == old(pairs))
      ensures Decodes(src, old(pos), depth - 1, v, pos, ok)
      decreases |src| - pos, 0
    {
      if depth > MAX_DECODE_DEPTH {
        return NullTree, false;
      }
      ghost var start := pos + 1;
      pos := pos + 1;
      var base := |pairs|;
      SkipWS();
      if pos < |src| && src[pos] == '}' {
        pos := pos + 1;
        return ObjTree([]), true;
      }
      ObjectMeaning(src, start - 1);
      ok := ObjectMembers(start, depth);
      if !ok {
        return NullTree, false;
      }
      var fields := NewMap(pairs[base..]);
      v := ObjTree(fields);
      pairs := pairs[..base];
    }

    /** Decodes the members from pos on, of an object whose text starts at start, onto pairs. */
    method ObjectMembers(ghost start: nat, depth: nat) returns (ok: bool)
      requires start <= pos <= |src| && pos == SkipSpace(src, start) && depth <= MAX_DECODE_DEPTH
      modifies this
      ensures pos <= |src| && (ok ==> old(pos) < pos && old(pairs) <= pairs)
      ensures var all := MembersRest(src, start);
              all.Some? ==> (ok <==> depth + all.value.nesting <= MAX_DECODE_DEPTH) &&
                            (ok ==> pairs[|old(pairs)|..] == all.value.values && pos == all.value.end)
      decreases |src| - pos, 3
    {
      hide ParseMembers, ParseKey, ParseValue, MembersRest;
      ghost var i := start;
      ghost var all := MembersRest(src, start);
      ghost var read: seq<Field> := [];
      while true
        invariant start <= i <= pos <= |src| && old(pos) <= pos && pos == SkipSpace(src, i)
        invariant old(pairs) <= pairs && pairs[|old(pairs)|..] == read
        invariant all.Some? ==> all.value.After(read, MembersRest(src, i), depth)
        decreases |src| - pos
      {
        var field, valid := ObjectMember(i, depth);
        if !valid {
          return false;
        }
        if all.Some? {
          AfterBoth(all.value, read, MembersRest(src, i), field, AfterMember(src, pos), depth);
        }
        pairs := pairs + [field];
        read := read + [field];
        if src[pos] == ',' {
          pos := pos + 1;
          i := pos;
          SkipWS();
        } else {
          ok := src[pos] == '}';
          pos := pos + 1;
          return;
        }
      }
    }
  }

  /** A value printed has its syntax tree to read. */
  lemma PrintedSpells(t: Tree)
    requires Clean(t)
    ensures Printable(t) && Spells(Document("", SyntaxOf(t), ""), Print(t))
    ensures Meaning(SyntaxOf(t)) == t && Nesting(SyntaxOf(t)) == Depth(t)
  {
    CleanPrints(t);
    PrintIsText(t);
    SyntaxMeaning(t);
    SyntaxNesting(t);
    assert Spells(Document("", SyntaxOf(t), ""), Print(t));
  }

  /** Decodes a JSON text: the meaning of any document it spells, and so any value it
      is the print of, when that nests no deeper than the decoder goes. */
  method FastDecodeJSON(src: Text) returns (v: Tree, ok: bool)
    ensures forall d: Document :: Spells(d, src) ==>
              && (ok <==> Nesting(d.value) <= MAX_DECODE_DEPTH)
              && (ok ==> v == Meaning(d.value))
    ensures forall t: Tree :: Clean(t) && Print(t) == src ==>
              && (ok <==> Depth(t) <= MAX_DECODE_DEPTH)
              && (ok ==> v == t)
    ensures forall rs, styles :: CanWriteAll(rs, styles) && src == Quoted(rs, styles) ==> ok && v == StrTree(Utf8(rs))
  {
    var decoder := new FastDecoder(src);
    decoder.SkipWS();
    v, ok := decoder.Value(0);
    forall d: Document | Spells(d, src)
      ensures (ok <==> Nesting(d.value) <= MAX_DECODE_DEPTH) && (ok ==> v == Meaning(d.value))
    {
      DocumentComplete(src, d);
    }
    forall t: Tree | Clean(t) && Print(t) == src
      ensures (ok <==> Depth(t) <= MAX_DECODE_DEPTH) && (ok ==> v == t)
    {
      PrintedSpells(t);
    }
    forall rs, styles | CanWriteAll(rs, styles) && src == Quoted(rs, styles)
      ensures ok && v == StrTree(Utf8(rs))
    {
      WrittenMeans(rs, styles);
    }
  }
}
