/** The one-pass walk over the raw text of a valid JSON array, which looks a field
    up in the objects at any array depth without bounds checks. */
module JsonWalk {
  import opened Wrappers
  import opened JsonSyntax
  import opened JsonParse
  import opened JsonTree
  import opened JsonValidate
  import opened Trees
  import opened Fields

  /** The first member with a key. */
  function FieldOf(step: Text, members: seq<Member>): Option<Json> {
    if members == [] then None
    else if PartsValue(members[0].key.parts) == step then Some(members[0].value)
    else FieldOf(step, members[1..])
  }

  function ItemValues(items: seq<Item>): seq<Json> {
    if items == [] then [] else [items[0].value] + ItemValues(items[1..])
  }

  /** An array's items, or the one value that is not an array. */
  function Flat(v: Json): seq<Json> {
    if v.Arr? then ItemValues(v.items) else [v]
  }

  /** What looking a field up in v finds: in an array, what it finds in the items in order. */
  function Found(step: Text, v: Json): seq<Json> {
    match v
    case Arr(_, items) => FoundItems(step, items)
    case Obj(_, members) =>
      (match FieldOf(step, members)
       case None => []
       case Some(value) => Flat(value))
    case _ => []
  }

  function FoundItems(step: Text, items: seq<Item>): seq<Json> {
    if items == [] then [] else Found(step, items[0].value) + FoundItems(step, items[1..])
  }

  /** A lookup's value: none, one, or the sequence of several. */
  datatype Outcome = Missing | One(v: Json) | Many(vs: seq<Json>)

  /** A field of one context that is not an array. */
  function FieldValue(step: Text, v: Json): Outcome {
    if !v.Obj? then Missing
    else match FieldOf(step, v.members)
      case None => Missing
      case Some(value) => One(value)
  }

  /** What one context's lookup adds to a step's, an array value as its items. */
  function Added(o: Outcome): seq<Json> {
    match o
    case Missing => []
    case One(v) => Flat(v)
    case Many(vs) => vs
  }

  function Collapse(vs: seq<Json>): Outcome {
    if |vs| == 0 then Missing else if |vs| == 1 then One(vs[0]) else Many(vs)
  }

  /** No object holds two members with one key. */
  ghost predicate DistinctKeys(v: Json) {
    match v
    case Arr(_, items) => DistinctItems(items)
    case Obj(_, members) => DistinctMembers(members)
    case _ => true
  }

  ghost predicate DistinctItems(items: seq<Item>) {
    items != [] ==> DistinctKeys(items[0].value) && DistinctItems(items[1..])
  }

  ghost predicate DistinctMembers(members: seq<Member>) {
    members != [] ==>
      && FieldOf(PartsValue(members[0].key.parts), members[1..]).None?
      && DistinctKeys(members[0].value) && DistinctMembers(members[1..])
  }

  function Meanings(vs: seq<Json>): seq<Tree> {
    if vs == [] then [] else [Meaning(vs[0])] + Meanings(vs[1..])
  }

  lemma {:induction false} MeaningsJoin(a: seq<Json>, b: seq<Json>)
    ensures Meanings(a + b) == Meanings(a) + Meanings(b)
  {
    if a == [] {
      assert a + b == b;
    } else {
      assert (a + b)[1..] == a[1..] + b;
      MeaningsJoin(a[1..], b);
    }
  }

  lemma {:induction false} ItemsValues(items: seq<Item>)
    ensures Meanings(ItemValues(items)) == ItemsMeaning(items)
  {
    if items != [] {
      assert ItemValues(items)[1..] == ItemValues(items[1..]);
      ItemsValues(items[1..]);
    }
  }

  function FieldMeaning(v: Option<Json>): Option<Tree> {
    match v
    case None => None
    case Some(value) => Some(Meaning(value))
  }

  /** A decoded object holds the members with distinct keys, over the fields it held before. */
  lemma {:induction false} GatherGet(members: seq<Member>, into: seq<Field>, step: Text)
    requires DistinctMembers(members)
    ensures var first := FieldOf(step, members);
            Get(Gather(MembersMeaning(members), into), step) ==
            if first.Some? then FieldMeaning(first) else Get(into, step)
  {
    if members != [] {
      var key, value := PartsValue(members[0].key.parts), Meaning(members[0].value);
      assert MembersMeaning(members)[1..] == MembersMeaning(members[1..]);
      GatherGet(members[1..], SetField(into, key, value), step);
      GetSet(into, key, value, step);
    }
  }

  /** With distinct keys, looking a field up in the text finds what looking it up in the decoded value does. */
  lemma {:induction false} FoundMeaning(step: Text, v: Json)
    requires DistinctKeys(v)
    ensures Meanings(Found(step, v)) == Lookup(step, Meaning(v))
    decreases v
  {
    match v
    case Arr(_, items) =>
      FoundItemsMeaning(step, items);
    case Obj(_, members) =>
      GatherGet(members, [], step);
      var value := FieldOf(step, members);
      if value.Some? {
        FlatMeaning(value.value);
      }
    case _ =>
  }

  lemma FlatMeaning(v: Json)
    ensures Meanings(Flat(v)) == Elements(Meaning(v))
  {
    if v.Arr? {
      ItemsValues(v.items);
    }
  }

  lemma {:induction false} FoundItemsMeaning(step: Text, items: seq<Item>)
    requires DistinctItems(items)
    ensures Meanings(FoundItems(step, items)) == LookupItems(step, ItemsMeaning(items))
    decreases items
  {
    if items != [] {
      FoundMeaning(step, items[0].value);
      FoundItemsMeaning(step, items[1..]);
      MeaningsJoin(Found(step, items[0].value), FoundItems(step, items[1..]));
      assert ItemsMeaning(items)[1..] == ItemsMeaning(items[1..]);
    }
  }

  /** Where the string being read at i ends: past the first '"' that no '\' escapes. */
  function QuoteEnd(s: Text, i: nat): (end: Option<nat>)
    ensures end.Some? ==> i < end.value <= |s|
    decreases |s| - i
  {
    if i >= |s| then None
    else if s[i] == '\\' then QuoteEnd(s, i + 2)
    else if s[i] == '"' then Some(i + 1)
    else QuoteEnd(s, i + 1)
  }

  lemma {:induction false} PlainRun(s: Text, i: nat, j: nat)
    requires i <= j <= |s| && forall k :: i <= k < j ==> s[k] != '\\' && s[k] != '"'
    ensures QuoteEnd(s, i) == QuoteEnd(s, j)
    decreases j - i
  {
    if i < j {
      PlainRun(s, i + 1, j);
    }
  }

  lemma PartRun(s: Text, i: nat)
    requires i < |s| && s[i] != '"' && ParsePart(s, i).Some?
    ensures QuoteEnd(s, i) == QuoteEnd(s, ParsePart(s, i).value.end)
  {
    var end := ParsePart(s, i).value.end;
    if s[i] == '\\' {
      PlainRun(s, i + 2, end);
    } else {
      PlainRun(s, i, end);
    }
  }

  /** On a valid string the scan for its closing quote agrees with the grammar. */
  lemma {:induction false} PartsEnd(s: Text, i: nat)
    requires i <= |s| && ParseParts(s, i).Some?
    ensures QuoteEnd(s, i) == Some(ParseParts(s, i).value.end)
    decreases |s| - i
  {
    if s[i] != '"' {
      PartRun(s, i);
      PartsEnd(s, ParsePart(s, i).value.end);
    }
  }

  /** Skips the string that opens at i. */
  method SkipJSONString(s: Text, i: nat) returns (end: nat)
    requires i < |s| && QuoteEnd(s, i + 1).Some?
    ensures QuoteEnd(s, i + 1) == Some(end)
  {
    var j := i + 1;
    while true
      invariant QuoteEnd(s, j) == QuoteEnd(s, i + 1)
      decreases |s| - j
    {
      if s[j] == '\\' {
        j := j + 1;
      } else if s[j] == '"' {
        return j + 1;
      }
      j := j + 1;
    }
  }

  predicate Opens(c: char) {
    c == '{' || c == '['
  }

  predicate Shuts(c: char) {
    c == '}' || c == ']'
  }

  /** Where the scan leaves depth open containers, counting brackets outside strings. */
  function ContainerEnd(s: Text, i: nat, depth: nat): (end: Option<nat>)
    decreases |s| - i
  {
    if depth == 0 then Some(i)
    else if i >= |s| then None
    else if s[i] == '"' then
      (match QuoteEnd(s, i + 1)
       case None => None
       case Some(end) => ContainerEnd(s, end, depth))
    else if Opens(s[i]) then ContainerEnd(s, i + 1, depth + 1)
    else if Shuts(s[i]) then ContainerEnd(s, i + 1, depth - 1)
    else ContainerEnd(s, i + 1, depth)
  }

  predicate Neutral(c: char) {
    c != '"' && !Opens(c) && !Shuts(c)
  }

  lemma {:induction false} NeutralRun(s: Text, i: nat, j: nat, depth: nat)
    requires i <= j <= |s| && 0 < depth && forall k :: i <= k < j ==> Neutral(s[k])
    ensures ContainerEnd(s, i, depth) == ContainerEnd(s, j, depth)
    decreases j - i
  {
    if i < j {
      NeutralRun(s, i + 1, j, depth);
    }
  }

  predicate Delimits(c: char) {
    c == ',' || c == ']' || c == '}' || IsSpace(c)
  }

  /** A character of a number or a literal. */
  predicate Inner(c: char) {
    Neutral(c) && !Delimits(c)
  }

  lemma FractionInner(s: Text, i: nat)
    requires i <= |s| && ParseFraction(s, i).Some?
    ensures forall k :: i <= k < ParseFraction(s, i).value.end ==> Inner(s[k])
  {
  }

  lemma ExponentInner(s: Text, i: nat)
    requires i <= |s| && ParseExponent(s, i).Some?
    ensures forall k :: i <= k < ParseExponent(s, i).value.end ==> Inner(s[k])
  {
  }

  lemma NumberInner(s: Text, i: nat)
    requires i < |s| && ParseNumber(s, i).Some?
    ensures forall k :: i <= k < ParseNumber(s, i).value.end ==> Inner(s[k])
  {
    var from := if s[i] == '-' then i + 1 else i;
    var whole := if s[from] == '0' then from + 1 else SkipDigits(s, from);
    FractionInner(s, whole);
    ExponentInner(s, ParseFraction(s, whole).value.end);
  }

  lemma LiteralInner(s: Text, i: nat, text: Text, v: Json)
    requires i <= |s| && text in ["true", "false", "null"] && ParseLiteral(s, i, text, v).Some?
    ensures forall k :: i <= k < i + |text| ==> Inner(s[k])
  {
    forall k | i <= k < i + |text|
      ensures Inner(s[k])
    {
      assert s[k] == text[k - i];
    }
  }

  /** A number or literal is all inner characters. */
  lemma ScalarInner(s: Text, i: nat)
    requires i < |s| && s[i] != '"' && ParseScalar(s, i).Some?
    ensures forall k :: i <= k < ParseScalar(s, i).value.end ==> Inner(s[k])
  {
    if s[i] == 't' {
      LiteralInner(s, i, "true", True);
    } else if s[i] == 'f' {
      LiteralInner(s, i, "false", False);
    } else if s[i] == 'n' {
      LiteralInner(s, i, "null", Nil);
    } else {
      NumberInner(s, i);
    }
  }

  lemma NeutralStep(s: Text, i: nat, depth: nat)
    requires i < |s| && 0 < depth && Neutral(s[i])
    ensures ContainerEnd(s, i, depth) == ContainerEnd(s, i + 1, depth)
  {
  }

  lemma ShutStep(s: Text, i: nat, depth: nat)
    requires i < |s| && Shuts(s[i])
    ensures ContainerEnd(s, i, depth + 1) == ContainerEnd(s, i + 1, depth)
  {
  }

  lemma StringRun(s: Text, i: nat, depth: nat)
    requires i <= |s| && ParseString(s, i).Some? && 0 < depth
    ensures ContainerEnd(s, i, depth) == ContainerEnd(s, ParseString(s, i).value.end, depth)
  {
    PartsEnd(s, i + 1);
  }

  lemma SpaceRun(s: Text, i: nat, depth: nat)
    requires i <= |s| && 0 < depth
    ensures ContainerEnd(s, i, depth) == ContainerEnd(s, SkipSpace(s, i), depth)
  {
    var end := SkipSpace(s, i);
    assert forall k :: i <= k < end ==> s[k] == s[i..end][k - i];
    NeutralRun(s, i, end, depth);
  }

  lemma ScalarRun(s: Text, i: nat, depth: nat)
    requires i < |s| && 0 < depth && !Opens(s[i]) && ParseScalar(s, i).Some?
    ensures ContainerEnd(s, i, depth) == ContainerEnd(s, ParseScalar(s, i).value.end, depth)
  {
    if s[i] == '"' {
      StringRun(s, i, depth);
    } else {
      ScalarInner(s, i);
      NeutralRun(s, i, ParseScalar(s, i).value.end, depth);
    }
  }

  /** Scanning a value inside a container comes out at the value's end, at the same depth. */
  lemma {:induction false} ValueRun(s: Text, i: nat, p: Parsed<Json>, depth: nat)
    requires i <= |s| && ParseValue(s, i) == Some(p) && 0 < depth
    ensures ContainerEnd(s, i, depth) == ContainerEnd(s, p.end, depth)
    decreases |s| - i, 1
  {
    if Opens(s[i]) {
      OpenRun(s, i, p, depth);
    } else {
      ScalarRun(s, i, depth);
    }
  }

  /** Scanning from just inside a container comes out at its end, one less deep. */
  lemma {:induction false} OpenRun(s: Text, i: nat, p: Parsed<Json>, depth: nat)
    requires i < |s| && Opens(s[i]) && ParseValue(s, i) == Some(p)
    ensures ContainerEnd(s, i + 1, depth + 1) == ContainerEnd(s, p.end, depth)
    decreases |s| - i, 0
  {
    var close := SkipSpace(s, i + 1);
    if close < |s| && s[close] == (if s[i] == '{' then '}' else ']') {
      EmptyRun(s, i, p, depth);
    } else if s[i] == '{' {
      hide ParseMembers, ContainerEnd, SkipSpace;
      MembersRun(s, i + 1, ParseMembers(s, i + 1).value, depth);
    } else {
      hide ParseItems, ContainerEnd, SkipSpace;
      ItemsRun(s, i + 1, ParseItems(s, i + 1).value, depth);
    }
  }

  lemma EmptyRun(s: Text, i: nat, p: Parsed<Json>, depth: nat)
    requires i < |s| && Opens(s[i]) && ParseValue(s, i) == Some(p)
    requires var close := SkipSpace(s, i + 1); close < |s| && s[close] == (if s[i] == '{' then '}' else ']')
    ensures ContainerEnd(s, i + 1, depth + 1) == ContainerEnd(s, p.end, depth)
  {
    SpaceRun(s, i + 1, depth + 1);
  }

  lemma {:induction false} ItemRun(s: Text, i: nat, p: Parsed<Item>, depth: nat)
    requires i <= |s| && ParseItem(s, i) == Some(p) && 0 < depth
    ensures ContainerEnd(s, i, depth) == ContainerEnd(s, p.end, depth)
    decreases |s| - i, 2
  {
    var from := SkipSpace(s, i);
    var v := ParseValue(s, from).value;
    SpaceRun(s, i, depth);
    ValueRun(s, from, v, depth);
    SpaceRun(s, v.end, depth);
  }

  lemma {:induction false} ItemsRun(s: Text, i: nat, p: Parsed<seq<Item>>, depth: nat)
    requires i <= |s| && ParseItems(s, i) == Some(p)
    ensures ContainerEnd(s, i, depth + 1) == ContainerEnd(s, p.end, depth)
    decreases |s| - i, 3
  {
    hide ParseItem, ParseItems, ContainerEnd;
    var item, tail := ItemsParts(s, i, p);
    ItemRun(s, i, item, depth + 1);
    if s[item.end] == ',' {
      NeutralStep(s, item.end, depth + 1);
      ItemsRun(s, item.end + 1, tail, depth);
    } else {
      ShutStep(s, item.end, depth);
    }
  }

  lemma KeyRun(s: Text, i: nat, p: Parsed<Key>, depth: nat)
    requires i <= |s| && ParseKey(s, i) == Some(p) && 0 < depth
    ensures ContainerEnd(s, i, depth) == ContainerEnd(s, p.end, depth)
  {
    hide ParseString, SkipSpace, ContainerEnd;
    var name := ParseString(s, i).value;
    var colon := SkipSpace(s, name.end);
    StringRun(s, i, depth);
    SpaceRun(s, name.end, depth);
    NeutralStep(s, colon, depth);
    SpaceRun(s, colon + 1, depth);
  }

  lemma {:induction false} MemberRun(s: Text, i: nat, p: Parsed<Member>, depth: nat)
    requires i <= |s| && ParseMember(s, i) == Some(p) && 0 < depth
    ensures ContainerEnd(s, i, depth) == ContainerEnd(s, p.end, depth)
    decreases |s| - i, 2
  {
    var from := SkipSpace(s, i);
    var key := ParseKey(s, from).value;
    var v := ParseValue(s, key.end).value;
    SpaceRun(s, i, depth);
    KeyRun(s, from, key, depth);
    ValueRun(s, key.end, v, depth);
    SpaceRun(s, v.end, depth);
  }

  lemma {:induction false} MembersRun(s: Text, i: nat, p: Parsed<seq<Member>>, depth: nat)
    requires i <= |s| && ParseMembers(s, i) == Some(p)
    ensures ContainerEnd(s, i, depth + 1) == ContainerEnd(s, p.end, depth)
    decreases |s| - i, 3
  {
    hide ParseMember, ParseMembers, ContainerEnd;
    var member, tail := MembersParts(s, i, p);
    MemberRun(s, i, member, depth + 1);
    if s[member.end] == ',' {
      NeutralStep(s, member.end, depth + 1);
      MembersRun(s, member.end + 1, tail, depth);
    } else {
      ShutStep(s, member.end, depth);
    }
  }

  /** The end of the open container at i. */
  method SkipContainer(s: Text, from: nat) returns (end: nat)
    requires from < |s| && Opens(s[from]) && ContainerEnd(s, from + 1, 1).Some?
    ensures ContainerEnd(s, from + 1, 1) == Some(end)
  {
    var i := from;
    var depth: nat := 0;
    ghost var target := ContainerEnd(s, from + 1, 1);
    while true
      invariant depth == 0 ==> i == from
      invariant depth > 0 ==> ContainerEnd(s, i, depth) == target
      decreases |s| - i
    {
      assert i < |s| && (depth > 0 && s[i] == '"' ==> QuoteEnd(s, i + 1).Some?);
      if s[i] == '"' {
        i := SkipJSONString(s, i);
        continue;
      } else if Opens(s[i]) {
        depth := depth + 1;
      } else if Shuts(s[i]) {
        depth := depth - 1;
        if depth == 0 {
          return i + 1;
        }
      }
      i := i + 1;
    }
  }

  /** A value that is followed as values in valid text are. */
  ghost predicate Bounded(s: Text, end: nat) {
    end == |s| || (end < |s| && Delimits(s[end]))
  }

  /** Skips the value that starts at i. */
  method SkipJSONValue(s: Text, i: nat) returns (end: nat)
    requires i < |s| && ParseValue(s, i).Some? && Bounded(s, ParseValue(s, i).value.end)
    ensures end == ParseValue(s, i).value.end
  {
    if s[i] == '"' {
      PartsEnd(s, i + 1);
      end := SkipJSONString(s, i);
      return;
    }
    if Opens(s[i]) {
      OpenRun(s, i, ParseValue(s, i).value, 0);
      end := SkipContainer(s, i);
      return;
    }
    ScalarInner(s, i);
    end := i;
    while end < |s|
      invariant i <= end <= ParseValue(s, i).value.end
    {
      if Delimits(s[end]) {
        return;
      }
      end := end + 1;
    }
  }

  /** found put before what the rest of the walk finds. */
  function Prepend(found: seq<Json>, rest: Option<seq<Json>>): Option<seq<Json>> {
    match rest
    case None => None
    case Some(more) => Some(found + more)
  }

  /** What the walk finds from i on, inside depth open arrays, up to the end of the outermost. */
  ghost function Walk(step: Text, s: Text, i: nat, depth: nat): Option<seq<Json>>
    requires i <= |s|
    decreases |s| - i
  {
    if depth == 0 then Some([])
    else
      var at := SkipSpace(s, i);
      if at == |s| then None
      else if s[at] == ',' then Walk(step, s, at + 1, depth)
      else if s[at] == ']' then Walk(step, s, at + 1, depth - 1)
      else if s[at] == '[' then Walk(step, s, at + 1, depth + 1)
      else if ParseValue(s, at).None? || !Bounded(s, ParseValue(s, at).value.end) then None
      else
        var v := ParseValue(s, at).value;
        Prepend(Found(step, v.value), Walk(step, s, v.end, depth))
  }

  lemma {:induction false} SkipTwice(s: Text, i: nat)
    requires i <= |s|
    ensures SkipSpace(s, SkipSpace(s, i)) == SkipSpace(s, i)
  {
  }

  lemma WalkSpace(step: Text, s: Text, i: nat, depth: nat)
    requires i <= |s|
    ensures Walk(step, s, SkipSpace(s, i), depth) == Walk(step, s, i, depth)
  {
    SkipTwice(s, i);
  }

  lemma PrependBoth(a: seq<Json>, b: seq<Json>, rest: Option<seq<Json>>)
    ensures Prepend(a, Prepend(b, rest)) == Prepend(a + b, rest) && Prepend([], rest) == rest
  {
    if rest.Some? {
      assert a + (b + rest.value) == a + b + rest.value && [] + rest.value == rest.value;
    }
  }

  /** Walking over a value finds what looking the field up in it finds. */
  lemma {:induction false} WalkValue(step: Text, s: Text, i: nat, p: Parsed<Json>, depth: nat)
    requires i <= |s| && ParseValue(s, i) == Some(p) && Bounded(s, p.end) && 0 < depth && !IsSpace(s[i])
    ensures Walk(step, s, i, depth) == Prepend(Found(step, p.value), Walk(step, s, p.end, depth))
    decreases |s| - i, 1
  {
    if s[i] == '[' {
      assert Walk(step, s, i, depth) == Walk(step, s, i + 1, depth + 1);
      WalkArray(step, s, i, p, depth);
    }
  }

  /** Walking from just inside an array finds what is in its items, and comes out at its end. */
  lemma ArrayParses(s: Text, i: nat, p: Parsed<Json>)
    requires i < |s| && s[i] == '[' && ParseValue(s, i) == Some(p)
    ensures var close := SkipSpace(s, i + 1);
            if close < |s| && s[close] == ']' then p.value.Arr? && p.value.items == [] && p.end == close + 1
            else ParseItems(s, i + 1).Some? && p.value == Arr("", ParseItems(s, i + 1).value.value)
                 && p.end == ParseItems(s, i + 1).value.end
  {
  }

  lemma WalkClose(step: Text, s: Text, i: nat, depth: nat)
    requires i <= |s| && SkipSpace(s, i) < |s| && s[SkipSpace(s, i)] == ']'
    ensures Walk(step, s, i, depth + 1) == Walk(step, s, SkipSpace(s, i) + 1, depth)
  {
  }

  lemma {:induction false} WalkArray(step: Text, s: Text, i: nat, p: Parsed<Json>, depth: nat)
    requires i < |s| && s[i] == '[' && ParseValue(s, i) == Some(p)
    ensures Walk(step, s, i + 1, depth + 1) == Prepend(Found(step, p.value), Walk(step, s, p.end, depth))
    decreases |s| - i, 0
  {
    hide ParseValue, ParseItems, Walk, SkipSpace;
    var close := SkipSpace(s, i + 1);
    ArrayParses(s, i, p);
    if close < |s| && s[close] == ']' {
      WalkClose(step, s, i + 1, depth);
      PrependBoth([], [], Walk(step, s, p.end, depth));
    } else {
      WalkItems(step, s, i + 1, ParseItems(s, i + 1).value, depth);
    }
  }

  /** The item at i, and the space before the separator after it. */
  lemma {:induction false} WalkItem(step: Text, s: Text, i: nat, p: Parsed<Item>, depth: nat)
    requires i <= |s| && ParseItem(s, i) == Some(p) && 0 < depth && p.end < |s| && Delimits(s[p.end])
    ensures Walk(step, s, i, depth) == Prepend(Found(step, p.value.value), Walk(step, s, p.end, depth))
    decreases |s| - i, 2
  {
    var from := SkipSpace(s, i);
    var v := ParseValue(s, from).value;
    WalkSpace(step, s, i, depth);
    ItemBounded(s, v.end);
    WalkValue(step, s, from, v, depth);
    WalkSpace(step, s, v.end, depth);
  }

  lemma ItemBounded(s: Text, i: nat)
    requires i <= |s| && SkipSpace(s, i) < |s| && Delimits(s[SkipSpace(s, i)])
    ensures Bounded(s, i)
  {
  }

  lemma {:induction false} WalkItems(step: Text, s: Text, i: nat, p: Parsed<seq<Item>>, depth: nat)
    requires i <= |s| && ParseItems(s, i) == Some(p)
    ensures Walk(step, s, i, depth + 1) == Prepend(FoundItems(step, p.value), Walk(step, s, p.end, depth))
    decreases |s| - i, 3
  {
    hide ParseItem, ParseItems, Walk, Found;
    var item, tail := ItemsParts(s, i, p);
    WalkItem(step, s, i, item, depth + 1);
    FoundHead(step, item.value, tail.value);
    WalkSeparator(step, s, item.end, depth);
    if s[item.end] == ',' {
      WalkItems(step, s, item.end + 1, tail, depth);
    }
    PrependBoth(Found(step, item.value.value), FoundItems(step, tail.value), Walk(step, s, p.end, depth));
    PrependBoth([], [], Walk(step, s, p.end, depth));
  }

  lemma FoundHead(step: Text, item: Item, rest: seq<Item>)
    ensures FoundItems(step, [item] + rest) == Found(step, item.value) + FoundItems(step, rest)
  {
    assert ([item] + rest)[1..] == rest;
  }

  lemma WalkSeparator(step: Text, s: Text, i: nat, depth: nat)
    requires i < |s| && (s[i] == ',' || s[i] == ']')
    ensures Walk(step, s, i, depth + 1) == Walk(step, s, i + 1, if s[i] == ',' then depth + 1 else depth)
  {
  }

  /** The values a lookup over an array has found so far. */
  class RawArrayFrame {
    var flat: seq<Json>

    constructor ()
      ensures flat == []
    {
      flat := [];
    }

    /** Adds an item's lookup, an array value as its items. */
    method Add(val: Outcome)
      modifies this
      ensures flat == old(flat) + Added(val)
    {
      match val
      case Missing =>
      case One(inner) =>
        if inner.Arr? {
          flat := flat + ItemValues(inner.items);
        } else {
          flat := flat + [inner];
        }
      case Many(inner) => flat := flat + inner;
    }

    method Result() returns (r: Outcome)
      ensures r == Collapse(flat)
    {
      if |flat| == 0 {
        r := Missing;
      } else if |flat| == 1 {
        r := One(flat[0]);
      } else {
        r := Many(flat);
      }
    }
  }

  /** The field of the object whose text is raw. */
  method ObjectField(step: Text, raw: Text) returns (val: Outcome)
    ensures var v := ParseValue(raw, 0);
            val == if v.Some? then FieldValue(step, v.value.value) else Missing
  {
    var v := ParseValue(raw, 0);
    if v.None? || !v.value.value.Obj? {
      return Missing;
    }
    var members := v.value.value.members;
    for i := 0 to |members|
      invariant FieldOf(step, members) == FieldOf(step, members[i..])
    {
      assert members[i..][1..] == members[i + 1..];
      if PartsValue(members[i].key.parts) == step {
        return One(members[i].value);
      }
    }
    return Missing;
  }

  /** The text between a value's start and end is that value's. */
  lemma SliceParses(s: Text, i: nat, p: Parsed<Json>)
    requires i <= |s| && ParseValue(s, i) == Some(p)
    ensures ParseValue(s[i..p.end], 0) == Some(Parsed(p.value, p.end - i))
  {
    ValueSound(s, i, p);
    var t := s[i..p.end];
    assert t[0..|t|] == t;
    ValueComplete(t, 0, |t|, p.value);
  }

  /** One step of the walk at a character that is not space. */
  lemma WalkStep(step: Text, s: Text, i: nat, depth: nat)
    requires i <= |s| && 0 < depth && SkipSpace(s, i) == i && Walk(step, s, i, depth).Some?
    ensures i < |s|
    ensures s[i] == ',' ==> Walk(step, s, i, depth) == Walk(step, s, i + 1, depth)
    ensures s[i] == ']' ==> Walk(step, s, i, depth) == Walk(step, s, i + 1, depth - 1)
    ensures s[i] == '[' ==> Walk(step, s, i, depth) == Walk(step, s, i + 1, depth + 1)
    ensures s[i] !in ",][" ==>
              ParseValue(s, i).Some? && Bounded(s, ParseValue(s, i).value.end) &&
              Walk(step, s, i, depth) == Prepend(Found(step, ParseValue(s, i).value.value),
                                                 Walk(step, s, ParseValue(s, i).value.end, depth))
  {
  }

  lemma WalkDone(step: Text, s: Text, i: nat)
    requires i <= |s|
    ensures Walk(step, s, i, 0) == Some([])
  {
  }

  /** Passes over the value at pos, which is not an array, adding the field's value if it is an object. */
  method WalkPast(step: Text, raw: Text, pos: nat, frame: RawArrayFrame) returns (end: nat)
    requires pos < |raw| && raw[pos] != '[' && ParseValue(raw, pos).Some?
             && Bounded(raw, ParseValue(raw, pos).value.end)
    modifies frame
    ensures end == ParseValue(raw, pos).value.end
    ensures frame.flat == old(frame.flat) + Found(step, ParseValue(raw, pos).value.value)
  {
    end := SkipJSONValue(raw, pos);
    if raw[pos] == '{' {
      SliceParses(raw, pos, ParseValue(raw, pos).value);
      var val := ObjectField(step, raw[pos..end]);
      frame.Add(val);
    }
  }

  /** Refines the lookup of a field over an array's text. */
  method StepNestedArray(step: Text, raw: Text, ghost p: Parsed<Json>) returns (r: Outcome)
    requires raw != [] && raw[0] == '[' && ParseValue(raw, 0) == Some(p)
    ensures r == Collapse(Found(step, p.value))
  {
    hide Walk, ParseValue, SkipSpace, Found;
    var frame := new RawArrayFrame();
    var depth: nat, pos: nat := 1, 1;
    WalkArray(step, raw, 0, p, 0);
    WalkDone(step, raw, p.end);
    assert Found(step, p.value) + [] == Found(step, p.value);
    PrependBoth([], [], Walk(step, raw, 1, 1));
    while true
      invariant 0 < depth && pos <= |raw|
      invariant Prepend(frame.flat, Walk(step, raw, pos, depth)) == Some(Found(step, p.value))
      decreases |raw| - pos
    {
      WalkSpace(step, raw, pos, depth);
      SkipTwice(raw, pos);
      pos := SkipJSONSpace(raw, pos);
      WalkStep(step, raw, pos, depth);
      var c := raw[pos];
      if c == ',' {
        pos := pos + 1;
      } else if c == ']' {
        pos := pos + 1;
        depth := depth - 1;
        if depth == 0 {
          WalkDone(step, raw, pos);
          assert frame.flat + [] == frame.flat;
          r := frame.Result();
          return;
        }
      } else if c == '[' {
        pos := pos + 1;
        depth := depth + 1;
      } else {
        var v := ParseValue(raw, pos).value;
        PrependBoth(frame.flat, Found(step, v.value), Walk(step, raw, v.end, depth));
        pos := WalkPast(step, raw, pos, frame);
      }
    }
  }
}
