/** The JSON encoder. It walks objects and arrays with an explicit stack of frames
    and prints what the recursive printer prints. */
module JsonEncode {
  import opened Wrappers
  import opened JsonSyntax
  import opened JsonParse
  import opened JsonTree
  import opened Trees

  lemma Concat(a: Text, b: Text, c: Text)
    ensures a + b + c == a + (b + c)
  {
  }

  /** Copying one more character at the end of a stretch. */
  lemma Stretch(s: Text, start: nat, i: nat, next: nat, b: Text)
    requires start <= i <= next <= |s|
    ensures b + s[start..i] + s[i..next] == b + s[start..next]
  {
  }

  /** Appends the escape of an ASCII character that needs one. */
  method AppendASCIIEscape(b: Text, c: char) returns (out: Text)
    requires c as int < 0x80 && !StandsForItself(c)
    ensures out == b + EscapeOf(c)
  {
    if c == '"' || c == '\\' {
      out := b + ['\\', c];
    } else if c == '\U{8}' {
      out := b + ['\\', 'b'];
    } else if c == '\U{c}' {
      out := b + ['\\', 'f'];
    } else if c == '\n' {
      out := b + ['\\', 'n'];
    } else if c == '\r' {
      out := b + ['\\', 'r'];
    } else if c == '\t' {
      out := b + ['\\', 't'];
    } else {
      out := b + ['\\', 'u', '0', '0', HEX_DIGITS[c as int / 16], HEX_DIGITS[c as int % 16]];
    }
  }

  /** Prints or passes over the character of s at i; s from start to i is yet to be copied. */
  method AppendCharacter(b: Text, s: Text, start: nat, i: nat) returns (out: Text, from: nat, next: nat)
    requires start <= i < |s|
    ensures next == i + DecodeRune(s, i).1 && from <= next <= |s|
    ensures out + s[from..next] == b + s[start..i] + EscapedRune(s, i)
  {
    var c := s[i];
    var (r, size) := DecodeRune(s, i);
    next := i + size;
    if c as int < 0x80 {
      if c as int >= 0x20 && c != '"' && c != '\\' {
        Stretch(s, start, i, next, b);
        return b, start, next;
      }
      out := AppendASCIIEscape(b + s[start..i], c);
    } else if r == RUNE_ERROR && size == 1 {
      out := b + s[start..i] + REPLACEMENT;
    } else if r == 0x2028 || r == 0x2029 {
      out := b + s[start..i] + ("\\u202" + [HEX_DIGITS[r % 16]]);
    } else {
      Stretch(s, start, i, next, b);
      return b, start, next;
    }
    from := next;
    Stretch(s, next, next, next, out);
  }

  lemma Quoted(b: Text, body: Text)
    ensures b + "\"" + body + "\"" == b + ("\"" + body + "\"")
  {
  }

  /** Having printed one more character, as AppendCharacter does. */
  lemma EscapedStep(open: Text, s: Text, was: Text, i: nat, now: Text)
    requires i < |s| && open + Escaped(s, 0) == was + Escaped(s, i) && now == was + EscapedRune(s, i)
    ensures open + Escaped(s, 0) == now + Escaped(s, i + DecodeRune(s, i).1)
  {
    Concat(was, EscapedRune(s, i), Escaped(s, i + DecodeRune(s, i).1));
  }

  /** Appends s with its escapes, copying stretches that need none whole. */
  method AppendEscaped(b: Text, s: Text) returns (out: Text)
    ensures out == b + Escaped(s, 0)
  {
    out := b;
    var start: nat := 0;
    var i: nat := 0;
    while i < |s|
      invariant start <= i <= |s|
      invariant b + Escaped(s, 0) == out + s[start..i] + Escaped(s, i)
      decreases |s| - i
    {
      ghost var was, at := out + s[start..i], i;
      out, start, i := AppendCharacter(out, s, start, i);
      EscapedStep(b, s, was, at, out + s[start..i]);
    }
    out := out + s[start..];
    assert s[start..] == s[start..i];
  }

  method AppendJSONString(b: Text, s: Text) returns (out: Text)
    ensures out == b + PrintString(s)
  {
    out := AppendEscaped(b + "\"", s);
    out := out + "\"";
    Quoted(b, Escaped(s, 0));
  }

  method AppendJSONNumber(b: Text, literal: Text) returns (r: Option<Text>)
    ensures r == if Printable(NumTree(literal)) then Some(b + PrintScalar(NumTree(literal))) else None
  {
    if literal == "" {
      return Some(b + "0");
    }
    if !PlainNumber(literal) {
      return None;
    }
    return Some(b + literal);
  }

  method AppendJSONScalar(b: Text, v: Tree) returns (r: Option<Text>)
    requires !v.ArrTree? && !v.ObjTree?
    ensures r == if Printable(v) then Some(b + PrintScalar(v)) else None
  {
    match v
    case NullTree => r := Some(b + "null");
    case BoolTree(value) => r := Some(b + if value then "true" else "false");
    case NumTree(literal) => r := AppendJSONNumber(b, literal);
    case StrTree(text) =>
      var out := AppendJSONString(b, text);
      r := Some(out);
  }

  /** How many steps printing v takes: one for a scalar, and two besides its children for a container. */
  function Size(v: Tree): nat {
    match v
    case ArrTree(items) => 2 + ItemsSize(items)
    case ObjTree(fields) => 2 + FieldsSize(fields)
    case _ => 1
  }

  function ItemsSize(items: seq<Tree>): nat {
    if items == [] then 0 else Size(items[0]) + ItemsSize(items[1..])
  }

  function FieldsSize(fields: seq<Field>): nat {
    if fields == [] then 0 else Size(fields[0].value) + FieldsSize(fields[1..])
  }

  /** The ways to take apart the text of a child and what follows it. */
  lemma ChildText(b: Text, value: Text, rest: Text)
    ensures b + (value + rest) == b + value + rest
    ensures b + ("," + value + rest) == b + "," + value + rest
  {
  }

  lemma KeyedText(b: Text, key: Text, value: Text, rest: Text)
    ensures b + ((key + ":" + value) + rest) == b + key + ":" + value + rest
    ensures b + ("," + (key + ":" + value) + rest) == b + "," + key + ":" + value + rest
  {
  }

  /** An object or array the encoder has opened, and the index of its next child. */
  class EncodeFrame {
    const items: seq<Tree>
    const fields: seq<Field>
    const closing: char
    var index: nat

    constructor Items(items: seq<Tree>)
      ensures Valid() && closing == ']' && this.items == items && index == 0
    {
      this.items, fields, closing, index := items, [], ']', 0;
    }

    constructor Fields(fields: seq<Field>)
      ensures Valid() && closing == '}' && this.fields == fields && index == 0
    {
      items, this.fields, closing, index := [], fields, '}', 0;
    }

    predicate Valid()
      reads this
    {
      (closing == ']' && index <= |items|) || (closing == '}' && index <= |fields|)
    }

    /** What is left to print of the frame, without its closing bracket. */
    ghost function Rest(): Text
      reads this
      requires Valid()
    {
      if closing == ']' then
        if index == 0 then PrintItems(items) else PrintMoreItems(items[index..])
      else
        if index == 0 then PrintFields(fields) else PrintMoreFields(fields[index..])
    }

    ghost predicate PrintableRest()
      reads this
      requires Valid()
    {
      if closing == ']' then PrintableItems(items[index..]) else PrintableFields(fields[index..])
    }

    ghost function Weight(): nat
      reads this
      requires Valid()
    {
      1 + if closing == ']' then ItemsSize(items[index..]) else FieldsSize(fields[index..])
    }

    /** Prints the separator and key before the next child, and moves past that. */
    method NextChild(b: Text) returns (out: Text, v: Tree)
      requires Valid() && index < if closing == ']' then |items| else |fields|
      modifies this
      ensures Valid() && index == old(index) + 1
      ensures b + old(Rest()) == out + Print(v) + Rest()
      ensures old(PrintableRest()) == (Printable(v) && PrintableRest())
      ensures old(Weight()) == Size(v) + Weight()
    {
      out := if index > 0 then b + "," else b;
      var i := index;
      index := index + 1;
      if closing == ']' {
        v := items[i];
        assert items[i..][1..] == items[i + 1..] && items[0..] == items;
        ChildText(b, Print(v), Rest());
        return;
      }
      assert fields[i..][1..] == fields[i + 1..] && fields[0..] == fields;
      v := fields[i].value;
      KeyedText(b, PrintString(fields[i].key), Print(v), Rest());
      assert fields[i..][0] == fields[i] && PrintField(fields[i]) == PrintString(fields[i].key) + ":" + Print(v);
      out := AppendJSONString(out, fields[i].key);
      out := out + ":";
    }

    /** The next child with children of its own, its scalar siblings before it printed; more: there is one. */
    method Next(b: Text) returns (r: Option<Text>, v: Tree, more: bool)
      requires Valid()
      modifies this
      ensures Valid()
      ensures r.None? ==> !old(PrintableRest())
      ensures r.Some? && more ==>
                && b + old(Rest()) == r.value + Print(v) + Rest()
                && old(PrintableRest()) == (Printable(v) && PrintableRest())
                && Size(v) + Weight() <= old(Weight())
      ensures r.Some? && !more ==> r.value == b + old(Rest()) && old(PrintableRest())
    {
      var out := b;
      while true
        invariant Valid() && b + old(Rest()) == out + Rest()
        invariant old(PrintableRest()) == PrintableRest() && Weight() <= old(Weight())
        decreases (if closing == ']' then |items| else |fields|) - index
      {
        var n := if closing == ']' then |items| else |fields|;
        if index == n {
          assert out + "" == out;
          return Some(out), NullTree, false;
        }
        out, v := NextChild(out);
        if v.ArrTree? || v.ObjTree? {
          return Some(out), v, true;
        }
        r := AppendJSONScalar(out, v);
        if r.None? {
          return r, v, false;
        }
        out := r.value;
      }
    }
  }

  ghost predicate ValidStack(stack: seq<EncodeFrame>)
    reads stack
  {
    && (forall i :: 0 <= i < |stack| ==> stack[i].Valid())
    && (forall i, j :: 0 <= i < j < |stack| ==> stack[i] != stack[j])
  }

  /** What is left to print of the open containers, innermost last on the stack. */
  ghost function Pending(stack: seq<EncodeFrame>): Text
    requires ValidStack(stack)
    reads stack
  {
    if stack == [] then ""
    else var top := stack[|stack| - 1]; top.Rest() + [top.closing] + Pending(stack[..|stack| - 1])
  }

  ghost predicate PrintablePending(stack: seq<EncodeFrame>)
    requires ValidStack(stack)
    reads stack
  {
    stack != [] ==> stack[|stack| - 1].PrintableRest() && PrintablePending(stack[..|stack| - 1])
  }

  ghost function PendingWeight(stack: seq<EncodeFrame>): nat
    requires ValidStack(stack)
    reads stack
  {
    if stack == [] then 0 else stack[|stack| - 1].Weight() + PendingWeight(stack[..|stack| - 1])
  }

  /** Opens the container v on the stack, or prints v if it is a scalar. */
  method Open(b: Text, v: Tree, stack: seq<EncodeFrame>) returns (r: Option<Text>, next: seq<EncodeFrame>)
    requires ValidStack(stack)
    ensures ValidStack(next) && forall i :: 0 <= i < |next| ==> next[i] in stack || fresh(next[i])
    ensures r.None? ==> !Printable(v)
    ensures r.Some? ==>
              && b + Print(v) + Pending(stack) == r.value + Pending(next)
              && (Printable(v) && PrintablePending(stack) <==> PrintablePending(next))
              && PendingWeight(next) < Size(v) + PendingWeight(stack)
  {
    next := stack;
    if v.ObjTree? || v.ArrTree? {
      var frame;
      if v.ObjTree? {
        frame := new EncodeFrame.Fields(v.fields);
        r := Some(b + "{");
        assert v.fields[0..] == v.fields;
      } else {
        frame := new EncodeFrame.Items(v.items);
        r := Some(b + "[");
        assert v.items[0..] == v.items;
      }
      next := stack + [frame];
      assert next[..|next| - 1] == stack;
      OpenText(b, r.value[|b|..], frame.Rest(), [frame.closing], Pending(stack));
    } else {
      r := AppendJSONScalar(b, v);
    }
  }

  lemma OpenText(b: Text, opening: Text, inside: Text, closing: Text, pending: Text)
    ensures b + (opening + inside + closing) + pending == b + opening + (inside + closing + pending)
  {
  }

  /** What is left to print is what the innermost container has left, and the others. */
  lemma TopPending(stack: seq<EncodeFrame>)
    requires ValidStack(stack) && stack != []
    ensures var top, below := stack[|stack| - 1], stack[..|stack| - 1];
            && ValidStack(below) && top !in below && top.Valid()
            && Pending(stack) == top.Rest() + [top.closing] + Pending(below)
            && PrintablePending(stack) == (top.PrintableRest() && PrintablePending(below))
            && PendingWeight(stack) == top.Weight() + PendingWeight(below)
  {
  }

  /** Prints what the frames on the stack hold up to the next container, closing those that hold none. */
  method NextContainer(b: Text, stack: seq<EncodeFrame>)
    returns (r: Option<Text>, v: Tree, more: bool, next: seq<EncodeFrame>)
    requires ValidStack(stack)
    modifies stack
    ensures next <= stack && ValidStack(next)
    ensures r.None? ==> !old(PrintablePending(stack))
    ensures r.Some? && more ==>
              && b + old(Pending(stack)) == r.value + Print(v) + Pending(next)
              && (old(PrintablePending(stack)) <==> Printable(v) && PrintablePending(next))
              && Size(v) + PendingWeight(next) <= old(PendingWeight(stack))
    ensures r.Some? && !more ==> r.value == b + old(Pending(stack)) && old(PrintablePending(stack))
  {
    hide Print, Printable, Size, Pending, PrintablePending, PendingWeight;
    var out := b;
    next := stack;
    while next != []
      invariant next <= stack && ValidStack(next)
      invariant b + old(Pending(stack)) == out + Pending(next)
      invariant old(PrintablePending(stack)) == PrintablePending(next)
      invariant PendingWeight(next) <= old(PendingWeight(stack))
      decreases |next|
    {
      var top := next[|next| - 1];
      ghost var below := next[..|next| - 1];
      TopPending(next);
      ghost var rest, pending := top.Rest(), Pending(below);
      CloseText(out, rest, [top.closing], pending);
      r, v, more := top.Next(out);
      if r.None? {
        return;
      }
      if more {
        TopPending(next);
        CloseText(r.value + Print(v), top.Rest(), [top.closing], pending);
        return;
      }
      out := r.value + [top.closing];
      next := next[..|next| - 1];
    }
    NonePending();
    return Some(out), NullTree, false, [];
  }

  lemma NonePending()
    ensures Pending([]) == "" && PrintablePending([])
  {
  }

  lemma CloseText(b: Text, inside: Text, closing: Text, pending: Text)
    ensures b + (inside + closing + pending) == b + inside + closing + pending
  {
  }

  /** Appends the JSON text of v, or fails when v holds a number whose literal is not JSON's. */
  method AppendJSON(b: Text, v: Tree) returns (r: Option<Text>)
    ensures r == if Printable(v) then Some(b + Print(v)) else None
    ensures r.Some? ==> IsJson(r.value[|b|..])
  {
    if Printable(v) {
      PrintedIsJson(v);
    }
    hide Print, Printable, Pending, PrintablePending, PendingWeight, Size, IsJson, ValidStack;
    var out, cur, stack := b, v, [];
    Concat(b, Print(v), "");
    while true
      invariant ValidStack(stack) && fresh(set i | 0 <= i < |stack| :: stack[i])
      invariant b + Print(v) == out + Print(cur) + Pending(stack)
      invariant Printable(v) <==> Printable(cur) && PrintablePending(stack)
      decreases Size(cur) + PendingWeight(stack)
    {
      ghost var was := PendingWeight(stack);
      r, stack := Open(out, cur, stack);
      if r.None? {
        return;
      }
      out := r.value;
      var more;
      r, cur, more, stack := NextContainer(out, stack);
      if r.None? || !more {
        return;
      }
      out := r.value;
    }
  }
}
