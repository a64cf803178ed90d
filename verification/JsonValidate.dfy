/** The one-pass pushdown validator of JSON text: an explicit stack of open
    containers, proved to accept exactly the grammar. */
module JsonValidate {
  import opened Wrappers
  import opened JsonSyntax
  import opened JsonParse

  method SkipJSONSpace(s: Text, i: nat) returns (end: nat)
    requires i <= |s|
    ensures end == SkipSpace(s, i)
  {
    end := i;
    while end < |s|
      invariant i <= end <= |s| && SkipSpace(s, i) == SkipSpace(s, end)
    {
      if s[end] == ' ' || s[end] == '\t' || s[end] == '\n' || s[end] == '\r' {
        end := end + 1;
      } else {
        return;
      }
    }
  }

  method SkipJSONDigits(s: Text, i: nat) returns (end: nat)
    requires i <= |s|
    ensures end == SkipDigits(s, i)
  {
    end := i;
    while end < |s| && s[end] >= '0' && s[end] <= '9'
      invariant i <= end <= |s| && SkipDigits(s, i) == SkipDigits(s, end)
    {
      end := end + 1;
    }
  }

  /** Where a read part ends, if it was read. */
  function End<T>(r: Option<Parsed<T>>): Option<nat> {
    match r
    case None => None
    case Some(p) => Some(p.end)
  }

  /** What a check of the text from some position returns for a part that reading ends at end. */
  ghost predicate Reports(end: nat, ok: bool, expected: Option<nat>) {
    if ok then expected == Some(end) else expected == None
  }

  method IsHex4(s: Text) returns (hex: bool)
    ensures hex <==> forall i :: 0 <= i < |s| ==> IsHex(s[i])
  {
    for i := 0 to |s|
      invariant forall j :: 0 <= j < i ==> IsHex(s[j])
    {
      var c := s[i];
      if (c < '0' || c > '9') && (c < 'a' || c > 'f') && (c < 'A' || c > 'F') {
        return false;
      }
    }
    return true;
  }

  /** Checks one character of a string: its escapes, its control characters and its UTF-8. */
  method ValidPart(s: Text, i: nat) returns (end: nat, ok: bool)
    requires i < |s| && s[i] != '"'
    ensures end <= |s| && Reports(end, ok, End(ParsePart(s, i)))
  {
    var c := s[i];
    if c as int < 0x20 {
      return i, false;
    } else if c == '\\' {
      if i + 1 >= |s| {
        return i, false;
      }
      var e := s[i + 1];
      if e == '"' || e == '\\' || e == '/' || e == 'b' || e == 'f' || e == 'n' || e == 'r' || e == 't' {
        return i + 2, true;
      } else if e == 'u' {
        if i + 6 > |s| {
          return i, false;
        }
        var digits := s[i + 2..i + 6];
        var hex := IsHex4(digits);
        assert forall j :: i + 2 <= j < i + 6 ==> s[j] == digits[j - i - 2];
        return if hex then i + 6 else i, hex;
      } else {
        return i, false;
      }
    } else if c as int < 0x80 {
      return i + 1, true;
    } else {
      var (rune, size) := DecodeRune(s, i);
      if rune == RUNE_ERROR && size == 1 {
        return i, false;
      }
      return i + size, true;
    }
  }

  method ValidJSONString(s: Text, from: nat) returns (end: nat, ok: bool)
    requires from < |s| && s[from] == '"'
    ensures end <= |s| && Reports(end, ok, End(ParseString(s, from)))
  {
    var i := from + 1;
    while i < |s|
      invariant from < i <= |s| && End(ParseString(s, from)) == End(ParseParts(s, i))
    {
      if s[i] == '"' {
        return i + 1, true;
      }
      var next, valid := ValidPart(s, i);
      if !valid {
        return i, false;
      }
      i := next;
    }
    return i, false;
  }

  method ValidJSONLiteral(s: Text, i: nat, text: Text, ghost v: Json) returns (end: nat, ok: bool)
    requires i <= |s| && text != []
    ensures end <= |s| && Reports(end, ok, End(ParseLiteral(s, i, text, v)))
  {
    if |s| - i < |text| || s[i..i + |text|] != text {
      return i, false;
    }
    return i + |text|, true;
  }

  method ValidExponent(s: Text, from: nat) returns (end: nat, ok: bool)
    requires from <= |s|
    ensures end <= |s| && Reports(end, ok, End(ParseExponent(s, from)))
  {
    var i := from;
    if i < |s| && (s[i] == 'e' || s[i] == 'E') {
      i := i + 1;
      if i < |s| && (s[i] == '+' || s[i] == '-') {
        i := i + 1;
      }
      if i >= |s| || s[i] < '0' || s[i] > '9' {
        return i, false;
      }
      i := SkipJSONDigits(s, i);
    }
    return i, true;
  }

  method ValidJSONNumber(s: Text, from: nat) returns (end: nat, ok: bool)
    requires from < |s|
    ensures end <= |s| && Reports(end, ok, End(ParseNumber(s, from)))
  {
    hide ParseExponent, SkipDigits;
    var i := from;
    if s[i] == '-' {
      i := i + 1;
    }
    if i >= |s| {
      return i, false;
    } else if s[i] == '0' {
      i := i + 1;
    } else if s[i] >= '1' && s[i] <= '9' {
      i := SkipJSONDigits(s, i);
    } else {
      return i, false;
    }
    if i < |s| && s[i] == '.' {
      i := i + 1;
      if i >= |s| || s[i] < '0' || s[i] > '9' {
        return i, false;
      }
      i := SkipJSONDigits(s, i);
    }
    end, ok := ValidExponent(s, i);
  }

  method ValidJSONKey(s: Text, i: nat) returns (from: nat, ok: bool)
    requires i <= |s|
    ensures from <= |s| && Reports(from, ok, End(ParseKey(s, i)))
  {
    if i >= |s| || s[i] != '"' {
      return i, false;
    }
    var end, valid := ValidJSONString(s, i);
    if !valid {
      return end, false;
    }
    end := SkipJSONSpace(s, end);
    if end >= |s| || s[end] != ':' {
      return end, false;
    }
    end := SkipJSONSpace(s, end + 1);
    return end, true;
  }

  /** The bracket that closes a container of kind open. */
  predicate Closes(open: char, c: char) {
    (open == '{' && c == '}') || (open == '[' && c == ']')
  }

  /** The rest of the text from i on completes the containers open, innermost
      last, whose current value ends at i: the grammar's pending closers. */
  predicate AfterValue(s: Text, i: nat, open: seq<char>)
    requires i <= |s|
    decreases |s| - i, 0
  {
    var j := SkipSpace(s, i);
    if open == [] then j == |s|
    else if j == |s| then false
    else
      var top := open[|open| - 1];
      if s[j] == ',' then
        var k := SkipSpace(s, j + 1);
        if top == '{' then
          var key := ParseKey(s, k);
          key.Some? && ValueThen(s, key.value.end, open)
        else ValueThen(s, k, open)
      else Closes(top, s[j]) && AfterValue(s, j + 1, open[..|open| - 1])
  }

  /** A value starts at i, and the rest completes open. */
  predicate ValueThen(s: Text, i: nat, open: seq<char>)
    requires i <= |s|
    decreases |s| - i, 1
  {
    var v := ParseValue(s, i);
    v.Some? && AfterValue(s, v.value.end, open)
  }

  lemma PushTop(open: seq<char>, c: char)
    ensures (open + [c])[|open + [c]| - 1] == c && (open + [c])[..|open + [c]| - 1] == open
  {
  }

  /** Reading the items of an array is reading its first value with the array open. */
  lemma {:induction false} ItemsOpen(s: Text, i: nat, open: seq<char>)
    requires i <= |s|
    ensures ValueThen(s, SkipSpace(s, i), open + ['[']) <==>
            (ParseItems(s, i).Some? && AfterValue(s, ParseItems(s, i).value.end, open))
    decreases |s| - i
  {
    hide ParseItem, AfterValue, ValueThen, SkipSpace;
    ItemThenContinues(s, i, open);
    var item := ParseItem(s, i);
    if item.Some? && item.value.end < |s| && s[item.value.end] == ',' {
      ItemsOpen(s, item.value.end + 1, open);
    }
  }

  /** An item with its array open: read, then followed by another or by the bracket. */
  lemma ItemThenContinues(s: Text, i: nat, open: seq<char>)
    requires i <= |s|
    ensures ValueThen(s, SkipSpace(s, i), open + ['[']) ==
            (ParseItem(s, i).Some? &&
             var end := ParseItem(s, i).value.end;
             end < |s| && if s[end] == ',' then ValueThen(s, SkipSpace(s, end + 1), open + ['['])
                          else s[end] == ']' && AfterValue(s, end + 1, open))
  {
    hide ParseValue;
    PushTop(open, '[');
  }

  /** From a member on, the rest completes the object open above open. */
  predicate MemberThen(s: Text, i: nat, open: seq<char>)
    requires i <= |s|
  {
    var key := ParseKey(s, SkipSpace(s, i));
    key.Some? && ValueThen(s, key.value.end, open + ['{'])
  }

  lemma MemberContinues(s: Text, end: nat, open: seq<char>)
    requires end <= |s|
    ensures var j := SkipSpace(s, end);
            AfterValue(s, end, open + ['{']) ==
            (j < |s| && if s[j] == ',' then MemberThen(s, j + 1, open) else s[j] == '}' && AfterValue(s, j + 1, open))
  {
    hide ParseKey, ParseValue;
    PushTop(open, '{');
  }

  /** A member with its object open: read, then followed by another or by the brace. */
  lemma MemberThenContinues(s: Text, i: nat, open: seq<char>)
    requires i <= |s|
    ensures MemberThen(s, i, open) ==
            (ParseMember(s, i).Some? &&
             var end := ParseMember(s, i).value.end;
             end < |s| && if s[end] == ',' then MemberThen(s, end + 1, open)
                          else s[end] == '}' && AfterValue(s, end + 1, open))
  {
    hide ParseKey, ParseValue, AfterValue, SkipSpace;
    var key := ParseKey(s, SkipSpace(s, i));
    if key.Some? {
      var v := ParseValue(s, key.value.end);
      if v.Some? {
        MemberContinues(s, v.value.end, open);
      }
    }
  }

  lemma {:induction false} MembersOpen(s: Text, i: nat, open: seq<char>)
    requires i <= |s|
    ensures MemberThen(s, i, open) <==>
            (ParseMembers(s, i).Some? && AfterValue(s, ParseMembers(s, i).value.end, open))
    decreases |s| - i
  {
    hide ParseMember, MemberThen, AfterValue;
    MemberThenContinues(s, i, open);
    var member := ParseMember(s, i);
    if member.Some? && member.value.end < |s| && s[member.value.end] == ',' {
      MembersOpen(s, member.value.end + 1, open);
    }
  }

  /** Opening a container: the value at i is what its first item or member opens. */
  lemma OpenStep(s: Text, i: nat, open: seq<char>)
    requires i < |s| && (s[i] == '[' || s[i] == '{')
    ensures var j := SkipSpace(s, i + 1);
            if j < |s| && Closes(s[i], s[j]) then ValueThen(s, i, open) <==> AfterValue(s, j + 1, open)
            else ValueThen(s, i, open) <==>
                 if s[i] == '[' then ValueThen(s, j, open + ['[']) else MemberThen(s, i + 1, open)
  {
    if s[i] == '[' {
      ItemsOpen(s, i + 1, open);
    } else {
      MembersOpen(s, i + 1, open);
    }
  }

  /** What a check that found nothing wrong up to end says of the rest. */
  ghost predicate Continues(s: Text, end: nat, open: seq<char>, ok: bool, expected: bool) {
    if ok then end <= |s| && AfterValue(s, end, open) == expected else !expected
  }

  method ValidScalar(s: Text, i: nat) returns (end: nat, ok: bool)
    requires i < |s|
    ensures end <= |s| && Reports(end, ok, End(ParseScalar(s, i)))
  {
    var c := s[i];
    if c == '"' {
      end, ok := ValidJSONString(s, i);
    } else if c == 't' {
      end, ok := ValidJSONLiteral(s, i, "true", True);
    } else if c == 'f' {
      end, ok := ValidJSONLiteral(s, i, "false", False);
    } else if c == 'n' {
      end, ok := ValidJSONLiteral(s, i, "null", Nil);
    } else if c == '-' || (c >= '0' && c <= '9') {
      end, ok := ValidJSONNumber(s, i);
    } else {
      end, ok := i, false;
    }
  }

  /** Opens the object at i, with its first key, unless it is empty. */
  method OpenObject(s: Text, i: nat, ghost open: seq<char>) returns (next: nat, empty: bool, ok: bool)
    requires i < |s| && s[i] == '{'
    ensures !ok ==> !ValueThen(s, i, open)
    ensures ok ==> i < next <= |s|
    ensures ok ==> ValueThen(s, i, open) ==
                   if empty then AfterValue(s, next, open) else ValueThen(s, next, open + ['{'])
  {
    OpenStep(s, i, open);
    hide ParseKey, ParseValue, AfterValue;
    var j := SkipJSONSpace(s, i + 1);
    if j < |s| && s[j] == '}' {
      return j + 1, true, true;
    }
    next, ok := ValidJSONKey(s, j);
    empty := false;
  }

  method OpenArray(s: Text, i: nat, ghost open: seq<char>) returns (next: nat, empty: bool)
    requires i < |s| && s[i] == '['
    ensures i < next <= |s|
    ensures ValueThen(s, i, open) == if empty then AfterValue(s, next, open) else ValueThen(s, next, open + ['['])
  {
    OpenStep(s, i, open);
    var j := SkipJSONSpace(s, i + 1);
    if j < |s| && s[j] == ']' {
      return j + 1, true;
    }
    return j, false;
  }

  /** Checks the value at from, as far as its first scalar or empty container: the
      containers opened on the way are pushed onto the stack. */
  method ValidJSONScalarOrOpen(s: Text, from: nat, stack: seq<char>) returns (end: nat, open: seq<char>, ok: bool)
    requires from <= |s|
    ensures Continues(s, end, open, ok, ValueThen(s, from, stack))
    ensures ok ==> end > from
  {
    var i, empty := from, false;
    open := stack;
    while true
      invariant from <= i <= |s| && ValueThen(s, i, open) == ValueThen(s, from, stack)
      decreases |s| - i
    {
      if i >= |s| {
        return i, open, false;
      }
      if s[i] == '{' {
        i, empty, ok := OpenObject(s, i, open);
        if !ok || empty {
          return i, open, ok;
        }
        open := open + ['{'];
      } else if s[i] == '[' {
        i, empty := OpenArray(s, i, open);
        if empty {
          return i, open, true;
        }
        open := open + ['['];
      } else {
        end, ok := ValidScalar(s, i);
        return;
      }
    }
  }

  /** Past a ',' at j: where the next value of the innermost container starts, after its key in an object. */
  method NextValue(s: Text, j: nat, open: seq<char>) returns (next: nat, ok: bool)
    requires open != [] && j < |s| && s[j] == ',' && SkipSpace(s, j) == j
    ensures ok ==> j < next <= |s| && ValueThen(s, next, open) == AfterValue(s, j, open)
    ensures !ok ==> !AfterValue(s, j, open)
  {
    next := SkipJSONSpace(s, j + 1);
    ok := true;
    if open[|open| - 1] == '{' {
      next, ok := ValidJSONKey(s, next);
    }
  }

  lemma SpaceSkipped(s: Text, i: nat, open: seq<char>)
    requires i <= |s|
    ensures SkipSpace(s, SkipSpace(s, i)) == SkipSpace(s, i)
    ensures AfterValue(s, SkipSpace(s, i), open) == AfterValue(s, i, open)
  {
  }

  /** Past the space after a value: the text ends with no container open, or a ',' or the innermost
      one's closing bracket follows. */
  lemma AfterStep(s: Text, i: nat, open: seq<char>)
    requires i <= |s| && SkipSpace(s, i) == i
    ensures open == [] ==> AfterValue(s, i, open) == (i == |s|)
    ensures open != [] && i == |s| ==> !AfterValue(s, i, open)
    ensures open != [] && i < |s| && s[i] != ',' ==>
              AfterValue(s, i, open) == (Closes(open[|open| - 1], s[i]) && AfterValue(s, i + 1, open[..|open| - 1]))
  {
    hide ParseKey, ParseValue;
  }

  /** After a value ends at from: closes containers, or continues with ',' in one. value
      says that another value starts at next; else the text is decided. */
  method AfterJSONValue(s: Text, from: nat, stack: seq<char>)
    returns (next: nat, open: seq<char>, value: bool, valid: bool)
    requires from <= |s|
    ensures value ==> from < next <= |s| && ValueThen(s, next, open) == AfterValue(s, from, stack)
    ensures !value ==> valid == AfterValue(s, from, stack)
  {
    hide AfterValue, ValueThen;
    open := stack;
    next := SkipJSONSpace(s, from);
    SpaceSkipped(s, from, open);
    while true
      invariant from <= next <= |s| && SkipSpace(s, next) == next
      invariant AfterValue(s, next, open) == AfterValue(s, from, stack)
      decreases |open|
    {
      AfterStep(s, next, open);
      if |open| == 0 {
        return next, open, false, next == |s|;
      }
      if next == |s| {
        return next, open, false, false;
      }
      var top := open[|open| - 1];
      if s[next] == ',' {
        var ok;
        next, ok := NextValue(s, next, open);
        return next, open, ok, false;
      } else if (top == '{' && s[next] == '}') || (top == '[' && s[next] == ']') {
        open := open[..|open| - 1];
        SpaceSkipped(s, next + 1, open);
        next := SkipJSONSpace(s, next + 1);
      } else {
        return next, open, false, false;
      }
    }
  }

  /** Decides the grammar's document: a value between whitespace. */
  method ValidJSON(s: Text) returns (valid: bool)
    ensures valid <==> IsJson(s)
  {
    ParsesWholeIffJson(s);
    var open: seq<char> := [];
    var i := SkipJSONSpace(s, 0);
    while true
      invariant i <= |s| && ValueThen(s, i, open) == ParsesWhole(s)
      decreases |s| - i
    {
      var end, pushed, ok := ValidJSONScalarOrOpen(s, i, open);
      if !ok {
        return false;
      }
      var next, rest, value, decided := AfterJSONValue(s, end, pushed);
      if !value {
        return decided;
      }
      i, open := next, rest;
    }
  }
}
