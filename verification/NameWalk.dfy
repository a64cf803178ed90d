/** Looking a field up over arrays that share arrays, with a memo of the arrays
    completed: the values a lookup without a memo finds. */
module NameWalk {
  import opened Wrappers
  import opened Trees
  import opened ObjectGraph

  const MEMO_AFTER: nat := 256
  const MEMO_MAX_LEN: nat := 64

  function Entries(entries: seq<Entry>, key: string): Option<Value> {
    if entries == [] then None
    else if entries[0].key == key then Some(entries[0].value)
    else Entries(entries[1..], key)
  }

  predicate IsFirst(entries: seq<Entry>, key: string, i: nat) {
    i < |entries| && entries[i].key == key && forall j :: 0 <= j < i ==> entries[j].key != key
  }

  /** A key's value is that of the first entry with it. */
  lemma {:induction false} EntriesFirst(entries: seq<Entry>, key: string)
    ensures match Entries(entries, key)
            case None => forall i :: 0 <= i < |entries| ==> entries[i].key != key
            case Some(v) => exists i: nat :: IsFirst(entries, key, i) && entries[i].value == v
  {
    if entries != [] {
      if entries[0].key == key {
        assert IsFirst(entries, key, 0);
      } else {
        EntriesFirst(entries[1..], key);
        if i: nat :| IsFirst(entries[1..], key, i) && Some(entries[1..][i].value) == Entries(entries, key) {
          assert IsFirst(entries, key, i + 1);
        }
        forall i | 0 <= i < |entries| && Entries(entries, key).None?
          ensures entries[i].key != key
        {
          assert i > 0 ==> entries[i] == entries[1..][i - 1];
        }
      }
    }
  }

  /** What a field's value adds to the values found: an array's items, or itself. */
  function Added(h: Heap, val: Option<Value>): seq<Value> {
    match val
    case None => []
    case Some(v) => if IsArray(h, v) then h[v.id].items else [v]
  }

  /** The values of a field in v, and in an array in its items at any depth, in order. */
  ghost function Found(h: Heap, rank: map<Id, nat>, key: string, v: Value): seq<Value>
    requires Ranked(h, rank) && IsIn(h, v)
    decreases RankOf(rank, v), 1, 0
  {
    match v
    case Leaf(_) => []
    case Ref(id) =>
      match h[id]
      case ObjNode(entries) => Added(h, Entries(entries, key))
      case ArrNode(items) =>
        assert Lower(h, rank, id) && AllIn(h, Children(h[id]));
        FoundItems(h, rank, key, items, rank[id] + 1)
  }

  ghost function FoundItems(h: Heap, rank: map<Id, nat>, key: string, items: seq<Value>, below: nat): seq<Value>
    requires Ranked(h, rank) && AllIn(h, items) && forall i :: 0 <= i < |items| ==> RankOf(rank, items[i]) < below
    decreases below, 0, |items|
  {
    if items == [] then [] else Found(h, rank, key, items[0]) + FoundItems(h, rank, key, items[1..], below)
  }

  /** How many values a walk without a memo visits. */
  ghost function Visits(h: Heap, rank: map<Id, nat>, v: Value): nat
    requires Ranked(h, rank) && IsIn(h, v)
    decreases RankOf(rank, v), 1, 0
  {
    if IsArray(h, v) then
      assert Lower(h, rank, v.id) && AllIn(h, Children(h[v.id]));
      1 + VisitsAll(h, rank, h[v.id].items, rank[v.id] + 1)
    else 1
  }

  ghost function VisitsAll(h: Heap, rank: map<Id, nat>, items: seq<Value>, below: nat): nat
    requires Ranked(h, rank) && AllIn(h, items) && forall i :: 0 <= i < |items| ==> RankOf(rank, items[i]) < below
    decreases below, 0, |items|
  {
    if items == [] then 0 else Visits(h, rank, items[0]) + VisitsAll(h, rank, items[1..], below)
  }

  ghost predicate Under(h: Heap, rank: map<Id, nat>, items: seq<Value>, below: nat) {
    Ranked(h, rank) && AllIn(h, items) && forall i :: 0 <= i < |items| ==> RankOf(rank, items[i]) < below
  }

  lemma UnderJoin(h: Heap, rank: map<Id, nat>, a: seq<Value>, b: seq<Value>, below: nat)
    requires Under(h, rank, a, below) && Under(h, rank, b, below)
    ensures Under(h, rank, a + b, below)
  {
    hide Ranked;
    forall i | 0 <= i < |a + b|
      ensures IsIn(h, (a + b)[i]) && RankOf(rank, (a + b)[i]) < below
    {
      assert (a + b)[i] == if i < |a| then a[i] else b[i - |a|];
    }
  }

  lemma Associate(a: seq<Value>, b: seq<Value>, c: seq<Value>)
    ensures (a + b) + c == a + (b + c)
  {
  }

  lemma {:induction false} FoundJoin(h: Heap, rank: map<Id, nat>, key: string, a: seq<Value>, b: seq<Value>, below: nat)
    requires Under(h, rank, a, below) && Under(h, rank, b, below)
    ensures Under(h, rank, a + b, below)
    ensures FoundItems(h, rank, key, a + b, below) == FoundItems(h, rank, key, a, below)
            + FoundItems(h, rank, key, b, below)
  {
    hide Ranked, Found, RankOf;
    UnderJoin(h, rank, a, b, below);
    if a == [] {
      assert a + b == b;
    } else {
      assert (a + b)[1..] == a[1..] + b;
      FoundJoin(h, rank, key, a[1..], b, below);
      Associate(Found(h, rank, key, a[0]), FoundItems(h, rank, key, a[1..], below), FoundItems(h, rank, key, b, below));
    }
  }

  /** One more item. */
  lemma FoundNext(h: Heap, rank: map<Id, nat>, key: string, items: seq<Value>, i: nat, below: nat)
    requires Under(h, rank, items, below) && i < |items|
    ensures FoundItems(h, rank, key, items[..i + 1], below) == FoundItems(h, rank, key, items[..i], below)
            + Found(h, rank, key, items[i])
    ensures VisitsAll(h, rank, items[i..], below) == Visits(h, rank, items[i])
            + VisitsAll(h, rank, items[i + 1..], below)
  {
    assert items[..i + 1] == items[..i] + [items[i]];
    FoundJoin(h, rank, key, items[..i], [items[i]], below);
    assert [items[i]][1..] == [] && items[i..][1..] == items[i + 1..];
    assert FoundItems(h, rank, key, [items[i]], below) == Found(h, rank, key, items[i])
           + FoundItems(h, rank, key, [], below);
  }

  /** The bound on the items' ranks does not matter. */
  lemma {:induction false} AnyBound(h: Heap, rank: map<Id, nat>, key: string, items: seq<Value>, a: nat, b: nat)
    requires Under(h, rank, items, a) && Under(h, rank, items, b)
    ensures FoundItems(h, rank, key, items, a) == FoundItems(h, rank, key, items, b)
    ensures VisitsAll(h, rank, items, a) == VisitsAll(h, rank, items, b)
  {
    if items != [] {
      AnyBound(h, rank, key, items[1..], a, b);
    }
  }

  lemma ArrayUnder(h: Heap, rank: map<Id, nat>, id: Id)
    requires Ranked(h, rank) && IsArray(h, Ref(id))
    ensures Under(h, rank, h[id].items, rank[id] + 1)
  {
    assert Lower(h, rank, id) && AllIn(h, Children(h[id]));
  }

  /** One level of the walk: what an array's items before index yielded. */
  datatype Frame = Frame(items: seq<Value>, index: nat, values: seq<Value>, id: Option<Id>)

  /** The frame holds what its items so far hold; waiting: the last of them is being walked above it. */
  ghost predicate Holds(h: Heap, rank: map<Id, nat>, key: string, f: Frame, below: nat, waiting: bool) {
    && Under(h, rank, f.items, below) && f.index <= |f.items| && (waiting ==> f.index > 0)
    && f.values == FoundItems(h, rank, key, f.items[..if waiting then f.index - 1 else f.index], below)
  }

  ghost function Below(rank: map<Id, nat>, f: Frame, below: nat): nat {
    if f.id.Some? && f.id.value in rank then rank[f.id.value] + 1 else below
  }

  /** The arrays open, each the item its frame below is at. */
  ghost predicate Stacked(h: Heap, rank: map<Id, nat>, key: string, stack: seq<Frame>, below: nat) {
    && (forall j :: 0 <= j < |stack| ==> Holds(h, rank, key, stack[j], Below(rank, stack[j], below), j < |stack| - 1))
    && (forall j :: 0 <= j < |stack| ==> (stack[j].id.Some? <==> j > 0))
    && (forall j :: 0 < j < |stack| ==> Above(h, stack[j - 1], stack[j]))
  }

  ghost predicate Above(h: Heap, f: Frame, top: Frame) {
    && top.id.Some? && IsArray(h, Ref(top.id.value)) && top.items == h[top.id.value].items
    && 0 < f.index <= |f.items| && f.items[f.index - 1] == Ref(top.id.value)
  }

  ghost predicate InRange(h: Heap, rank: map<Id, nat>, f: Frame, below: nat) {
    Under(h, rank, f.items, Below(rank, f, below)) && f.index <= |f.items|
  }

  /** What is left to visit. */
  ghost function Left(h: Heap, rank: map<Id, nat>, stack: seq<Frame>, below: nat): nat
    requires forall j :: 0 <= j < |stack| ==> InRange(h, rank, stack[j], below)
  {
    if stack == [] then 0
    else
      var top := stack[|stack| - 1];
      assert InRange(h, rank, top, below);
      Left(h, rank, stack[..|stack| - 1], below) + VisitsAll(h, rank, top.items[top.index..], Below(rank, top, below))
  }

  /** The memo holds what its arrays hold. */
  ghost predicate Memo(h: Heap, rank: map<Id, nat>, key: string, done: map<Id, seq<Value>>) {
    Ranked(h, rank) && forall id :: id in done ==> IsArray(h, Ref(id)) && done[id] == Found(h, rank, key, Ref(id))
  }

  lemma StackInRange(h: Heap, rank: map<Id, nat>, key: string, stack: seq<Frame>, below: nat)
    requires Stacked(h, rank, key, stack, below)
    ensures forall j :: 0 <= j < |stack| ==> InRange(h, rank, stack[j], below)
  {
    forall j | 0 <= j < |stack|
      ensures InRange(h, rank, stack[j], below)
    {
      assert Holds(h, rank, key, stack[j], Below(rank, stack[j], below), j < |stack| - 1);
    }
  }

  /** The top frame moves on, with more values. */
  function Advance(stack: seq<Frame>, more: seq<Value>): seq<Frame>
    requires stack != []
  {
    var top := stack[|stack| - 1];
    stack[..|stack| - 1] + [top.(index := top.index + 1, values := top.values + more)]
  }

  lemma Advanced(h: Heap, rank: map<Id, nat>, key: string, stack: seq<Frame>, below: nat)
    requires stack != [] && Stacked(h, rank, key, stack, below) && stack[|stack| - 1].index < |stack[|stack| - 1].items|
    requires IsIn(h, stack[|stack| - 1].items[stack[|stack| - 1].index])
    ensures var top := stack[|stack| - 1];
            Stacked(h, rank, key, Advance(stack, Found(h, rank, key, top.items[top.index])), below)
  {
    hide Found, FoundItems, Ranked;
    var top := stack[|stack| - 1];
    assert Holds(h, rank, key, top, Below(rank, top, below), false);
    var more := Found(h, rank, key, top.items[top.index]);
    var next := Advance(stack, more);
    assert Holds(h, rank, key, top, Below(rank, top, below), false);
    FoundNext(h, rank, key, top.items, top.index, Below(rank, top, below));
    forall j | 0 <= j < |next|
      ensures Holds(h, rank, key, next[j], Below(rank, next[j], below), j < |next| - 1)
    {
      assert Holds(h, rank, key, stack[j], Below(rank, stack[j], below), j < |stack| - 1);
    }
    forall j | 0 < j < |next|
      ensures Above(h, next[j - 1], next[j])
    {
      assert Above(h, stack[j - 1], stack[j]);
    }
  }

  /** The array the top frame is at is walked above it. */
  function Push(h: Heap, stack: seq<Frame>, id: Id): seq<Frame>
    requires stack != [] && IsArray(h, Ref(id))
  {
    Advance(stack, []) + [Frame(h[id].items, 0, [], Some(id))]
  }

  lemma Pushed(h: Heap, rank: map<Id, nat>, key: string, stack: seq<Frame>, below: nat, id: Id)
    requires stack != [] && Stacked(h, rank, key, stack, below) && stack[|stack| - 1].index < |stack[|stack| - 1].items|
    requires stack[|stack| - 1].items[stack[|stack| - 1].index] == Ref(id) && IsArray(h, Ref(id))
    ensures Stacked(h, rank, key, Push(h, stack, id), below)
  {
    var top, next := stack[|stack| - 1], Push(h, stack, id);
    assert Holds(h, rank, key, top, Below(rank, top, below), false);
    ArrayUnder(h, rank, id);
    assert next[|stack|] == Frame(h[id].items, 0, [], Some(id));
    forall j | 0 <= j < |next|
      ensures Holds(h, rank, key, next[j], Below(rank, next[j], below), j < |next| - 1)
    {
      if j < |stack| {
        assert Holds(h, rank, key, stack[j], Below(rank, stack[j], below), j < |stack| - 1);
        assert top.values + [] == top.values;
      }
    }
    forall j | 0 < j < |next|
      ensures Above(h, next[j - 1], next[j])
    {
      if j < |stack| {
        assert Above(h, stack[j - 1], stack[j]);
      }
    }
  }

  lemma ArrayFound(h: Heap, rank: map<Id, nat>, key: string, id: Id, below: nat, items: seq<Value>)
    requires Under(h, rank, items, below) && IsArray(h, Ref(id))
    ensures Under(h, rank, h[id].items, rank[id] + 1) && id in rank
    ensures Found(h, rank, key, Ref(id)) == FoundItems(h, rank, key, h[id].items, rank[id] + 1)
  {
    ArrayUnder(h, rank, id);
  }

  /** The top frame's values go to the one below it. */
  function Pop(stack: seq<Frame>): seq<Frame>
    requires |stack| > 1
  {
    var top, outer := stack[|stack| - 1], stack[|stack| - 2];
    stack[..|stack| - 2] + [outer.(values := outer.values + top.values)]
  }

  lemma Popped(h: Heap, rank: map<Id, nat>, key: string, stack: seq<Frame>, below: nat)
    requires |stack| > 1 && Stacked(h, rank, key, stack, below)
             && stack[|stack| - 1].index == |stack[|stack| - 1].items|
    ensures Stacked(h, rank, key, Pop(stack), below)
    ensures IsArray(h, Ref(stack[|stack| - 1].id.value))
    ensures stack[|stack| - 1].values == Found(h, rank, key, Ref(stack[|stack| - 1].id.value))
  {
    hide Found, FoundItems, Ranked, Under;
    var n := |stack| - 1;
    var top, outer, next := stack[n], stack[n - 1], Pop(stack);
    assert Above(h, outer, top);
    ArrayFound(h, rank, key, top.id.value, Below(rank, outer, below), outer.items);
    assert Holds(h, rank, key, top, Below(rank, top, below), false)
           && Holds(h, rank, key, outer, Below(rank, outer, below), true);
    assert Above(h, outer, top);
    assert top.items[..top.index] == top.items;
    FoundNext(h, rank, key, outer.items, outer.index - 1, Below(rank, outer, below));
    forall j | 0 <= j < |next|
      ensures Holds(h, rank, key, next[j], Below(rank, next[j], below), j < |next| - 1)
    {
      assert Holds(h, rank, key, stack[j], Below(rank, stack[j], below), j < |stack| - 1);
    }
    forall j | 0 < j < |next|
      ensures Above(h, next[j - 1], next[j])
    {
      assert Above(h, stack[j - 1], stack[j]);
    }
  }

  ghost predicate AtArray(h: Heap, stack: seq<Frame>, id: Id) {
    && stack != [] && IsArray(h, Ref(id))
    && var top := stack[|stack| - 1]; top.index < |top.items| && top.items[top.index] == Ref(id)
  }

  /** The arrays open, from the outermost in. */
  ghost predicate IsPath(stack: seq<Frame>, path: seq<Id>) {
    |path| == |stack| - 1 && forall j :: 0 <= j < |path| ==> stack[j + 1].id == Some(path[j])
  }

  /** The arrays open hold each other, so their ranks fall, and the next one's too. */
  lemma {:induction false} Falling(h: Heap, rank: map<Id, nat>, key: string, stack: seq<Frame>, below: nat,
                                   path: seq<Id>, i: nat, j: nat)
    requires Stacked(h, rank, key, stack, below) && IsPath(stack, path) && i < j < |path|
    ensures path[i] in rank && path[j] in rank && rank[path[j]] < rank[path[i]]
    decreases j
  {
    assert Above(h, stack[j], stack[j + 1]) && Above(h, stack[i], stack[i + 1]) && stack[i + 1].id == Some(path[i]);
    assert stack[j].id == Some(path[j - 1]) && stack[j + 1].id == Some(path[j]);
    assert Holds(h, rank, key, stack[j], Below(rank, stack[j], below), true);
    assert RankOf(rank, stack[j].items[stack[j].index - 1]) < Below(rank, stack[j], below);
    assert Above(h, stack[j - 1], stack[j]);
    if i < j - 1 {
      Falling(h, rank, key, stack, below, path, i, j - 1);
    }
  }

  lemma PathDistinct(h: Heap, rank: map<Id, nat>, key: string, stack: seq<Frame>, below: nat, path: seq<Id>)
    requires Stacked(h, rank, key, stack, below) && IsPath(stack, path)
    ensures Distinct(path)
  {
    forall i, j | 0 <= i < j < |path|
      ensures path[i] != path[j]
    {
      Falling(h, rank, key, stack, below, path, i, j);
    }
  }

  /** An array about to be entered is not open. */
  lemma NotOpen(h: Heap, rank: map<Id, nat>, key: string, stack: seq<Frame>, below: nat, path: seq<Id>, id: Id)
    requires Stacked(h, rank, key, stack, below) && IsPath(stack, path) && AtArray(h, stack, id)
    ensures id !in path
  {
    var next := Push(h, stack, id);
    Pushed(h, rank, key, stack, below, id);
    assert next[|stack|] == Frame(h[id].items, 0, [], Some(id));
    assert IsPath(next, path + [id]) by {
      forall j | 0 <= j < |path| + 1
        ensures next[j + 1].id == Some((path + [id])[j])
      {
        if j < |path| {
          assert stack[j + 1].id == Some(path[j]);
        }
      }
    }
    forall i | 0 <= i < |path|
      ensures path[i] != id
    {
      Falling(h, rank, key, next, below, path + [id], i, |path|);
    }
  }

  lemma LeftTop(h: Heap, rank: map<Id, nat>, stack: seq<Frame>, top: Frame, below: nat)
    requires InRange(h, rank, top, below) && forall j :: 0 <= j < |stack| ==> InRange(h, rank, stack[j], below)
    ensures forall j :: 0 <= j < |stack| + 1 ==> InRange(h, rank, (stack + [top])[j], below)
    ensures Left(h, rank, stack + [top], below) ==
            Left(h, rank, stack, below) + VisitsAll(h, rank, top.items[top.index..], Below(rank, top, below))
  {
    hide VisitsAll, Below;
    assert (stack + [top])[..|stack|] == stack;
  }

  /** What advancing takes off what is left. */
  lemma LeftTaken(h: Heap, rank: map<Id, nat>, stack: seq<Frame>, below: nat, more: seq<Value>)
    requires stack != [] && forall j :: 0 <= j < |stack| ==> InRange(h, rank, stack[j], below)
    requires stack[|stack| - 1].index < |stack[|stack| - 1].items|
    ensures forall j :: 0 <= j < |stack| ==> InRange(h, rank, Advance(stack, more)[j], below)
    ensures var v := stack[|stack| - 1].items[stack[|stack| - 1].index];
            && Ranked(h, rank) && IsIn(h, v)
            && Left(h, rank, stack, below) == Left(h, rank, Advance(stack, more), below) + Visits(h, rank, v)
  {
    hide Found, FoundItems, Visits, VisitsAll, Ranked, Left;
    var rest, top := stack[..|stack| - 1], stack[|stack| - 1];
    var next := top.(index := top.index + 1, values := top.values + more);
    assert InRange(h, rank, top, below) && InRange(h, rank, next, below);
    assert stack == rest + [top] && Advance(stack, more) == rest + [next];
    LeftTop(h, rank, rest, top, below);
    LeftTop(h, rank, rest, next, below);
    FoundNext(h, rank, "", top.items, top.index, Below(rank, top, below));
  }

  lemma LeftAdvance(h: Heap, rank: map<Id, nat>, stack: seq<Frame>, below: nat, more: seq<Value>)
    requires stack != [] && forall j :: 0 <= j < |stack| ==> InRange(h, rank, stack[j], below)
    requires stack[|stack| - 1].index < |stack[|stack| - 1].items|
    ensures forall j :: 0 <= j < |stack| ==> InRange(h, rank, Advance(stack, more)[j], below)
    ensures Left(h, rank, Advance(stack, more), below) < Left(h, rank, stack, below)
  {
    hide Left, InRange, Ranked, VisitsAll;
    LeftTaken(h, rank, stack, below, more);
  }

  /** Visiting an array is visiting its items, and one more. */
  lemma ArrayVisits(h: Heap, rank: map<Id, nat>, id: Id, below: nat)
    requires Ranked(h, rank) && IsArray(h, Ref(id))
    ensures var c := Frame(h[id].items, 0, [], Some(id));
            && InRange(h, rank, c, below)
            && Visits(h, rank, Ref(id)) == 1 + VisitsAll(h, rank, c.items[0..], Below(rank, c, below))
  {
    hide VisitsAll;
    ArrayUnder(h, rank, id);
    var c := Frame(h[id].items, 0, [], Some(id));
    assert c.items[0..] == c.items;
  }

  lemma LeftPush(h: Heap, rank: map<Id, nat>, stack: seq<Frame>, below: nat, id: Id)
    requires AtArray(h, stack, id) && forall j :: 0 <= j < |stack| ==> InRange(h, rank, stack[j], below)
    ensures forall j :: 0 <= j < |stack| + 1 ==> InRange(h, rank, Push(h, stack, id)[j], below)
    ensures Left(h, rank, Push(h, stack, id), below) < Left(h, rank, stack, below)
  {
    hide Left, InRange, Visits, VisitsAll, Ranked, Below;
    LeftTaken(h, rank, stack, below, []);
    ArrayVisits(h, rank, id, below);
    LeftTop(h, rank, Advance(stack, []), Frame(h[id].items, 0, [], Some(id)), below);
  }

  lemma LeftPop(h: Heap, rank: map<Id, nat>, stack: seq<Frame>, below: nat)
    requires |stack| > 1 && forall j :: 0 <= j < |stack| ==> InRange(h, rank, stack[j], below)
    requires stack[|stack| - 1].index == |stack[|stack| - 1].items|
    ensures forall j :: 0 <= j < |stack| - 1 ==> InRange(h, rank, Pop(stack)[j], below)
    ensures Left(h, rank, Pop(stack), below) == Left(h, rank, stack, below)
  {
    var n := |stack| - 1;
    var next := Pop(stack);
    forall j | 0 <= j < n
      ensures InRange(h, rank, next[j], below)
    {
      assert InRange(h, rank, stack[j], below);
    }
    assert next[..n - 1] == stack[..n - 1] == stack[..n][..n - 1];
    assert stack[n].items[stack[n].index..] == [];
  }

  /** The walk over items, whose open arrays are path. */
  ghost predicate Walking(h: Heap, rank: map<Id, nat>, key: string, items: seq<Value>, below: nat, stack: seq<Frame>,
                          path: seq<Id>) {
    Stacked(h, rank, key, stack, below) && stack != [] && IsPath(stack, path) && stack[0].items == items
  }

  /** A field of a value, or the identity of an array to map it over. */
  method NameLookup(h: Heap, ghost rank: map<Id, nat>, key: string, v: Value)
    returns (val: Option<Value>, nested: Option<Id>)
    requires Ranked(h, rank) && IsIn(h, v)
    ensures nested.Some? <==> IsArray(h, v)
    ensures nested.Some? ==> v == Ref(nested.value)
    ensures nested.None? ==> Added(h, val) == Found(h, rank, key, v)
  {
    match v
    case Leaf(_) => val, nested := None, None;
    case Ref(id) =>
      match h[id]
      case ArrNode(_) => val, nested := None, Some(id);
      case ObjNode(entries) => val, nested := Entries(entries, key), None;
  }

  lemma TopHolds(h: Heap, rank: map<Id, nat>, key: string, items: seq<Value>, below: nat, stack: seq<Frame>,
                 path: seq<Id>)
    requires Walking(h, rank, key, items, below, stack, path)
    ensures var top := stack[|stack| - 1]; top.index <= |top.items| && AllIn(h, top.items)
    ensures |stack| == 1 && stack[0].index == |items| ==> stack[0].values == FoundItems(h, rank, key, items, below)
    ensures forall j :: 0 <= j < |stack| ==> InRange(h, rank, stack[j], below)
    ensures |stack| == 1 <==> path == []
    ensures |stack| > 1 ==> stack[|stack| - 1].id == Some(path[|path| - 1]) && Ranked(h, rank)
  {
    StackInRange(h, rank, key, stack, below);
    var n := |stack| - 1;
    assert Holds(h, rank, key, stack[n], Below(rank, stack[n], below), false);
    if |stack| == 1 && stack[0].index == |items| {
      assert items[..|items|] == items;
    }
  }

  lemma WentOn(h: Heap, rank: map<Id, nat>, key: string, items: seq<Value>, below: nat, stack: seq<Frame>,
               path: seq<Id>, more: seq<Value>)
    requires Walking(h, rank, key, items, below, stack, path)
    requires var top := stack[|stack| - 1];
             && top.index < |top.items| && IsIn(h, top.items[top.index]) && Ranked(h, rank)
             && more == Found(h, rank, key, top.items[top.index])
    ensures Walking(h, rank, key, items, below, Advance(stack, more), path)
  {
    Advanced(h, rank, key, stack, below);
  }

  lemma WentIn(h: Heap, rank: map<Id, nat>, key: string, items: seq<Value>, below: nat, stack: seq<Frame>,
               path: seq<Id>, id: Id)
    requires Walking(h, rank, key, items, below, stack, path) && AtArray(h, stack, id)
    ensures Walking(h, rank, key, items, below, Push(h, stack, id), path + [id])
  {
    Pushed(h, rank, key, stack, below, id);
    var next := Push(h, stack, id);
    assert next[|stack|] == Frame(h[id].items, 0, [], Some(id));
    forall j | 0 <= j < |path| + 1
      ensures next[j + 1].id == Some((path + [id])[j])
    {
      if j < |path| {
        assert stack[j + 1].id == Some(path[j]);
      }
    }
  }

  lemma WentOut(h: Heap, rank: map<Id, nat>, key: string, items: seq<Value>, below: nat, stack: seq<Frame>,
                path: seq<Id>)
    requires |stack| > 1 && Walking(h, rank, key, items, below, stack, path)
    requires stack[|stack| - 1].index == |stack[|stack| - 1].items|
    ensures Walking(h, rank, key, items, below, Pop(stack), path[..|path| - 1])
    ensures Ranked(h, rank) && IsArray(h, Ref(path[|path| - 1]))
    ensures stack[|stack| - 1].values == Found(h, rank, key, Ref(path[|path| - 1]))
  {
    Popped(h, rank, key, stack, below);
    TopHolds(h, rank, key, items, below, stack, path);
    var next := Pop(stack);
    forall j | 0 <= j < |path| - 1
      ensures next[j + 1].id == Some(path[j])
    {
      assert stack[j + 1].id == Some(path[j]);
    }
  }

  lemma NeverOpen(h: Heap, rank: map<Id, nat>, key: string, items: seq<Value>, below: nat, stack: seq<Frame>,
                  path: seq<Id>, id: Id)
    requires Walking(h, rank, key, items, below, stack, path) && AtArray(h, stack, id)
    ensures id !in path
  {
    NotOpen(h, rank, key, stack, below, path, id);
  }

  /** The arrays a stack has open. */
  function Ids(stack: seq<Frame>): seq<Id> {
    if stack == [] then []
    else
      var top := stack[|stack| - 1];
      Ids(stack[..|stack| - 1]) + if top.id.Some? then [top.id.value] else []
  }

  lemma {:induction false} IdsArePath(stack: seq<Frame>, path: seq<Id>)
    requires stack != [] && stack[0].id.None? && IsPath(stack, path)
    ensures Ids(stack) == path
    decreases |stack|
  {
    if |stack| > 1 {
      var n := |path| - 1;
      IdsArePath(stack[..|stack| - 1], path[..n]);
      assert path == path[..n] + [path[n]];
      assert stack[n + 1].id == Some(path[n]);
    } else {
      assert stack[..0] == [];
    }
  }

  lemma PathIds(h: Heap, rank: map<Id, nat>, key: string, items: seq<Value>, below: nat, stack: seq<Frame>,
                path: seq<Id>)
    requires Walking(h, rank, key, items, below, stack, path)
    ensures Ids(stack) == path && Distinct(path)
  {
    PathDistinct(h, rank, key, stack, below, path);
    IdsArePath(stack, path);
  }

  lemma MemoNone(h: Heap, rank: map<Id, nat>, key: string)
    requires Ranked(h, rank)
    ensures Memo(h, rank, key, map[])
  {
  }

  lemma MemoMore(h: Heap, rank: map<Id, nat>, key: string, done: map<Id, seq<Value>>, id: Id, values: seq<Value>)
    requires Memo(h, rank, key, done) && Ranked(h, rank) && IsArray(h, Ref(id))
             && values == Found(h, rank, key, Ref(id))
    ensures Memo(h, rank, key, done[id := values])
  {
  }

  lemma MemoFound(h: Heap, rank: map<Id, nat>, key: string, done: map<Id, seq<Value>>, id: Id)
    requires Memo(h, rank, key, done) && IsArray(h, Ref(id)) && (h[id].items == [] || id in done)
    ensures Ranked(h, rank) && Found(h, rank, key, Ref(id)) == if id in done then done[id] else []
  {
    if id !in done {
      assert Lower(h, rank, id);
    }
  }

  lemma WholeFrame(h: Heap, rank: map<Id, nat>, key: string, items: seq<Value>, below: nat, stack: seq<Frame>,
                   path: seq<Id>)
    requires Walking(h, rank, key, items, below, stack, path) && |stack| == 1 && stack[0].index == |stack[0].items|
    ensures Under(h, rank, items, below) && stack[0].values == FoundItems(h, rank, key, items, below)
  {
    assert Holds(h, rank, key, stack[0], Below(rank, stack[0], below), false);
    assert items[..|items|] == items;
  }

  lemma Begun(h: Heap, rank: map<Id, nat>, key: string, frame: Frame, below: nat, nested: Id)
    requires Under(h, rank, frame.items, below) && frame.id.None? && AtArray(h, [frame], nested)
    requires frame.values == FoundItems(h, rank, key, frame.items[..frame.index], below)
    ensures var stack := Push(h, [frame], nested);
            && Ranked(h, rank) && Walking(h, rank, key, frame.items, below, stack, [nested])
            && forall j :: 0 <= j < |stack| ==> InRange(h, rank, stack[j], below)
  {
    assert Holds(h, rank, key, frame, below, false);
    assert IsPath([frame], []) && Stacked(h, rank, key, [frame], below);
    WentIn(h, rank, key, frame.items, below, [frame], [], nested);
    assert [] + [nested] == [nested];
    TopHolds(h, rank, key, frame.items, below, Push(h, [frame], nested), [nested]);
  }

  /** Maps the lookup of a field over items, keeping no memo until an item is an array. */
  method NameOverArray(h: Heap, ghost rank: map<Id, nat>, key: string, items: seq<Value>, ghost below: nat)
    returns (values: seq<Value>)
    requires Under(h, rank, items, below)
    ensures values == FoundItems(h, rank, key, items, below)
  {
    values := [];
    for i := 0 to |items|
      invariant values == FoundItems(h, rank, key, items[..i], below)
    {
      FoundNext(h, rank, key, items, i, below);
      var val, nested := NameLookup(h, rank, key, items[i]);
      if nested.Some? {
        values := NameOverNested(h, rank, key, Frame(items, i, values, None), nested.value, below);
        return;
      }
      values := values + Added(h, val);
    }
    assert items[..|items|] == items;
  }

  /** Continues NameOverArray once the frame's next item is the array nested. */
  method NameOverNested(h: Heap, ghost rank: map<Id, nat>, key: string, frame: Frame, nested: Id, ghost below: nat)
    returns (values: seq<Value>)
    requires Under(h, rank, frame.items, below) && frame.id.None? && AtArray(h, [frame], nested)
    requires frame.values == FoundItems(h, rank, key, frame.items[..frame.index], below)
    ensures values == FoundItems(h, rank, key, frame.items, below)
  {
    hide Walking, Left, Found, FoundItems, Memo, InRange, Visits, VisitsAll, Ranked, Below, Under, Added, Ids,
      ValuePath.Valid;
    var path := new ValuePath();
    var done: map<Id, seq<Value>> := map[];
    var memoizing, entered := false, 0;
    Begun(h, rank, key, frame, below, nested);
    var stack := Push(h, [frame], nested);
    var ok := path.Enter(nested);
    assert [] + [nested] == [nested];
    MemoNone(h, rank, key);
    while true
      invariant path.Valid() && fresh(path) && Walking(h, rank, key, frame.items, below, stack, path.path)
      invariant Memo(h, rank, key, done) && stack != []
      invariant forall j :: 0 <= j < |stack| ==> InRange(h, rank, stack[j], below)
      decreases Left(h, rank, stack, below), |stack|
    {
      TopHolds(h, rank, key, frame.items, below, stack, path.path);
      var top := stack[|stack| - 1];
      if top.index == |top.items| {
        if |stack| == 1 {
          WholeFrame(h, rank, key, frame.items, below, stack, path.path);
          return top.values;
        }
        WentOut(h, rank, key, frame.items, below, stack, path.path);
        LeftPop(h, rank, stack, below);
        path.Leave(top.id.value);
        if memoizing && |top.items| > 0 && |top.values| <= MEMO_MAX_LEN {
          MemoMore(h, rank, key, done, top.id.value, top.values);
          done := done[top.id.value := top.values];
        }
        stack := Pop(stack);
        continue;
      }
      var val, inner := NameLookup(h, rank, key, top.items[top.index]);
      if inner.None? {
        WentOn(h, rank, key, frame.items, below, stack, path.path, Added(h, val));
        LeftAdvance(h, rank, stack, below, Added(h, val));
        stack := Advance(stack, Added(h, val));
        continue;
      }
      var id := inner.value;
      if h[id].items == [] || id in done {
        var more := if id in done then done[id] else [];
        MemoFound(h, rank, key, done, id);
        WentOn(h, rank, key, frame.items, below, stack, path.path, more);
        LeftAdvance(h, rank, stack, below, more);
        stack := Advance(stack, more);
        continue;
      }
      // A container open on the path would be skipped; none holds itself.
      NeverOpen(h, rank, key, frame.items, below, stack, path.path, id);
      WentIn(h, rank, key, frame.items, below, stack, path.path, id);
      ok := path.Enter(id);
      LeftPush(h, rank, stack, below, id);
      stack := Push(h, stack, id);
      entered := entered + 1;
      if entered == MEMO_AFTER {
        memoizing := true;
        PathIds(h, rank, key, frame.items, below, stack, path.path);
        path.TrackAll(Ids(stack));
      }
    }
  }
}
