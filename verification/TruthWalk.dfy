/** Whether an array holds anything truthy at any depth of nested arrays, on memory
    where arrays are shared and can contain themselves. */
module TruthWalk {
  import opened Wrappers
  import opened Trees
  import opened ObjectGraph

  const MEMO_AFTER: nat := 256

  /** A value that is not an array is true by itself: an object that is not empty, or a scalar as truthy says. */
  predicate TrueAlone(h: Heap, truthy: Tree -> bool, v: Value) {
    match v
    case Leaf(t) => truthy(t)
    case Ref(id) => id in h && h[id].ObjNode? && h[id].entries != []
  }

  /** The items of an array, and none of any other value. */
  function Items(h: Heap, v: Value): seq<Value> {
    if IsArray(h, v) then h[v.id].items else []
  }

  /** p leads from one of items through nested arrays to a value true by itself. */
  ghost predicate Leads(h: Heap, truthy: Tree -> bool, items: seq<Value>, p: seq<Value>)
    decreases |p|
  {
    && p != [] && p[0] in items
    && if |p| == 1 then TrueAlone(h, truthy, p[0]) else Leads(h, truthy, Items(h, p[0]), p[1..])
  }

  /** Something truthy is reachable from items. */
  ghost predicate SomeTruthy(h: Heap, truthy: Tree -> bool, items: seq<Value>) {
    exists p :: Leads(h, truthy, items, p)
  }

  /** How far the walk is in one array; the outermost has no id. */
  datatype Cursor = Cursor(items: seq<Value>, index: nat, id: Option<Id>)

  /** Nothing truthy is known of v: it is no array and false, an empty array, or an array among seen. */
  ghost predicate Quiet(h: Heap, truthy: Tree -> bool, seen: set<Id>, v: Value) {
    && !TrueAlone(h, truthy, v)
    && (IsArray(h, v) && h[v.id].items != [] ==> v.id in seen)
  }

  ghost predicate AllQuiet(h: Heap, truthy: Tree -> bool, seen: set<Id>, vs: seq<Value>) {
    forall i :: 0 <= i < |vs| ==> Quiet(h, truthy, seen, vs[i])
  }

  /** Arrays that hold only quiet values hold nothing truthy at any depth. */
  lemma {:induction false} QuietLeadsNowhere(h: Heap, truthy: Tree -> bool, seen: set<Id>, items: seq<Value>,
                                             p: seq<Value>)
    requires AllQuiet(h, truthy, seen, items)
    requires forall id :: id in seen ==> AllQuiet(h, truthy, seen, Items(h, Ref(id)))
    ensures !Leads(h, truthy, items, p)
    decreases |p|
  {
    if p != [] && p[0] in items {
      var i :| 0 <= i < |items| && items[i] == p[0];
      assert Quiet(h, truthy, seen, items[i]);
      if |p| > 1 {
        assert Items(h, p[0]) != [] ==> AllQuiet(h, truthy, seen, Items(h, Ref(p[0].id)));
        QuietLeadsNowhere(h, truthy, seen, Items(h, p[0]), p[1..]);
      }
    }
  }

  /** The arrays open on a stack of cursors. */
  ghost function Gray(stack: seq<Cursor>): set<Id> {
    set j | 0 <= j < |stack| && stack[j].id.Some? :: stack[j].id.value
  }

  ghost predicate OnStack(h: Heap, stack: seq<Cursor>, j: nat)
    requires j < |stack|
  {
    var c := stack[j];
    && c.index <= |c.items| && AllIn(h, c.items)
    && (c.id.Some? <==> j > 0)
    && (j > 0 ==>
          && IsArray(h, Ref(c.id.value)) && c.items == h[c.id.value].items
          && stack[j - 1].index > 0 && stack[j - 1].index <= |stack[j - 1].items|
          && stack[j - 1].items[stack[j - 1].index - 1] == Ref(c.id.value))
  }

  ghost predicate Passed(h: Heap, truthy: Tree -> bool, seen: set<Id>, c: Cursor) {
    c.index <= |c.items| && AllQuiet(h, truthy, seen, c.items[..c.index])
  }

  /** The walk so far: what the cursors have passed, and what is in the arrays completed (black), is quiet. */
  ghost predicate Walking(h: Heap, truthy: Tree -> bool, stack: seq<Cursor>, black: set<Id>) {
    && (forall j :: 0 <= j < |stack| ==> OnStack(h, stack, j))
    && (forall j :: 0 <= j < |stack| ==> Passed(h, truthy, black + Gray(stack), stack[j]))
    && (forall id :: id in black ==> AllQuiet(h, truthy, black + Gray(stack), Items(h, Ref(id))))
  }

  /** A truthy value under the top cursor is under the outermost one. */
  lemma {:induction false} LeadsDown(h: Heap, truthy: Tree -> bool, stack: seq<Cursor>, j: nat, p: seq<Value>)
    requires j < |stack| && forall k :: 0 <= k < |stack| ==> OnStack(h, stack, k)
    requires Leads(h, truthy, stack[j].items, p)
    ensures SomeTruthy(h, truthy, stack[0].items)
  {
    if j > 0 {
      assert OnStack(h, stack, j);
      var v := Ref(stack[j].id.value);
      assert ([v] + p)[1..] == p && v in stack[j - 1].items;
      LeadsDown(h, truthy, stack, j - 1, [v] + p);
    }
  }

  lemma QuietMore(h: Heap, truthy: Tree -> bool, seen: set<Id>, more: set<Id>, vs: seq<Value>)
    requires AllQuiet(h, truthy, seen, vs) && seen <= more
    ensures AllQuiet(h, truthy, more, vs)
  {
    forall i | 0 <= i < |vs|
      ensures Quiet(h, truthy, more, vs[i])
    {
      assert Quiet(h, truthy, seen, vs[i]);
    }
  }

  /** The top cursor passes a quiet value. */
  lemma Pass(h: Heap, truthy: Tree -> bool, stack: seq<Cursor>, black: set<Id>, more: set<Id>)
    requires stack != [] && Walking(h, truthy, stack, black)
    requires var top := stack[|stack| - 1];
             && top.index < |top.items| && black + Gray(stack) <= more
             && Quiet(h, truthy, more, top.items[top.index])
    ensures var top := stack[|stack| - 1]; Passed(h, truthy, more, top.(index := top.index + 1))
  {
    var top := stack[|stack| - 1];
    assert Passed(h, truthy, black + Gray(stack), top);
    QuietMore(h, truthy, black + Gray(stack), more, top.items[..top.index]);
    assert top.items[..top.index + 1] == top.items[..top.index] + [top.items[top.index]];
  }

  function Advance(stack: seq<Cursor>): seq<Cursor>
    requires stack != []
  {
    var top := stack[|stack| - 1];
    stack[..|stack| - 1] + [top.(index := top.index + 1)]
  }

  lemma SameGray(stack: seq<Cursor>)
    requires stack != []
    ensures Gray(Advance(stack)) == Gray(stack)
  {
    var next := Advance(stack);
    assert forall j :: 0 <= j < |stack| ==> next[j].id == stack[j].id;
    forall x | x in Gray(stack)
      ensures x in Gray(next)
    {
      var j :| 0 <= j < |stack| && stack[j].id.Some? && stack[j].id.value == x;
      assert next[j].id == stack[j].id;
    }
  }

  /** Moving the top cursor past a quiet value keeps the walk's invariant. */
  lemma Skipped(h: Heap, truthy: Tree -> bool, stack: seq<Cursor>, black: set<Id>)
    requires stack != [] && Walking(h, truthy, stack, black)
    requires var top := stack[|stack| - 1];
             top.index < |top.items| && Quiet(h, truthy, black + Gray(stack), top.items[top.index])
    ensures Walking(h, truthy, Advance(stack), black)
  {
    var next, n := Advance(stack), |stack| - 1;
    SameGray(stack);
    Pass(h, truthy, stack, black, black + Gray(stack));
    forall j | 0 <= j < |next|
      ensures OnStack(h, next, j)
    {
      assert OnStack(h, stack, j);
    }
  }

  /** The stack once the array the top cursor is at is entered. */
  function Push(h: Heap, stack: seq<Cursor>, id: Id): seq<Cursor>
    requires stack != [] && IsArray(h, Ref(id))
  {
    Advance(stack) + [Cursor(h[id].items, 0, Some(id))]
  }

  ghost predicate AtArray(h: Heap, stack: seq<Cursor>, id: Id) {
    && stack != [] && IsArray(h, Ref(id))
    && var top := stack[|stack| - 1];
       top.index < |top.items| && top.items[top.index] == Ref(id)
  }

  lemma PushedOnStack(h: Heap, stack: seq<Cursor>, id: Id)
    requires Closed(h) && AtArray(h, stack, id) && forall j :: 0 <= j < |stack| ==> OnStack(h, stack, j)
    ensures forall j :: 0 <= j < |stack| + 1 ==> OnStack(h, Push(h, stack, id), j)
  {
    var next := Push(h, stack, id);
    assert AllIn(h, Children(h[id]));
    forall j | 0 <= j < |next|
      ensures OnStack(h, next, j)
    {
      if j < |stack| {
        assert OnStack(h, stack, j);
      }
    }
  }

  /** Entering the array the top cursor is at. */
  lemma Entered(h: Heap, truthy: Tree -> bool, stack: seq<Cursor>, black: set<Id>, id: Id)
    requires Closed(h) && AtArray(h, stack, id) && Walking(h, truthy, stack, black)
    ensures Walking(h, truthy, Push(h, stack, id), black)
  {
    hide OnStack, AllQuiet;
    var next := Push(h, stack, id);
    var seen, more := black + Gray(stack), black + Gray(next);
    GrayGrows(stack, Advance(stack), next[|stack|]);
    PushedOnStack(h, stack, id);
    PushPasses(h, truthy, stack, black, id);
    forall j | 0 <= j < |next|
      ensures Passed(h, truthy, more, next[j])
    {
      if j < |stack| - 1 {
        assert Passed(h, truthy, seen, stack[j]);
        QuietMore(h, truthy, seen, more, stack[j].items[..stack[j].index]);
      }
    }
    forall x | x in black
      ensures AllQuiet(h, truthy, more, Items(h, Ref(x)))
    {
      QuietMore(h, truthy, seen, more, Items(h, Ref(x)));
    }
  }

  lemma PushPasses(h: Heap, truthy: Tree -> bool, stack: seq<Cursor>, black: set<Id>, id: Id)
    requires AtArray(h, stack, id) && Walking(h, truthy, stack, black)
    ensures var next := Push(h, stack, id); var more := black + Gray(next);
            Passed(h, truthy, more, next[|stack| - 1]) && Passed(h, truthy, more, next[|stack|])
  {
    var next := Push(h, stack, id);
    GrayGrows(stack, Advance(stack), next[|stack|]);
    Pass(h, truthy, stack, black, black + Gray(next));
  }

  lemma GrayGrows(stack: seq<Cursor>, next: seq<Cursor>, c: Cursor)
    requires stack != [] && next == Advance(stack) && c.id.Some?
    ensures Gray(next + [c]) == Gray(stack) + {c.id.value}
  {
    SameGray(stack);
    var more := next + [c];
    forall x | x in Gray(next) + {c.id.value}
      ensures x in Gray(more)
    {
      if x in Gray(next) {
        var j :| 0 <= j < |next| && next[j].id.Some? && next[j].id.value == x;
        assert more[j].id == next[j].id;
      } else {
        assert more[|next|].id == c.id;
      }
    }
  }

  /** The arrays completed, once the top cursor is done. */
  ghost function Completed(stack: seq<Cursor>, black: set<Id>): set<Id>
    requires stack != []
  {
    var top := stack[|stack| - 1];
    if top.id.None? then black else black + {top.id.value}
  }

  lemma GrayShrinks(stack: seq<Cursor>, black: set<Id>)
    requires stack != []
    ensures Completed(stack, black) + Gray(stack[..|stack| - 1]) == black + Gray(stack)
  {
    var below := stack[..|stack| - 1];
    forall x | x in Gray(stack)
      ensures x in Completed(stack, black) + Gray(below)
    {
      var j :| 0 <= j < |stack| && stack[j].id.Some? && stack[j].id.value == x;
      if j < |below| {
        assert below[j].id == stack[j].id;
      }
    }
    forall x | x in Gray(below)
      ensures x in Gray(stack)
    {
      var j :| 0 <= j < |below| && below[j].id.Some? && below[j].id.value == x;
      assert stack[j].id == below[j].id;
    }
    if stack[|stack| - 1].id.Some? {
      assert stack[|stack| - 1].id.value in Gray(stack);
    }
  }

  /** Leaving an array that holds only quiet values. */
  lemma Left(h: Heap, truthy: Tree -> bool, stack: seq<Cursor>, black: set<Id>)
    requires stack != [] && Walking(h, truthy, stack, black)
    requires stack[|stack| - 1].index == |stack[|stack| - 1].items|
    ensures Walking(h, truthy, stack[..|stack| - 1], Completed(stack, black))
    ensures AllQuiet(h, truthy, black + Gray(stack), stack[|stack| - 1].items)
  {
    var top, below, now := stack[|stack| - 1], stack[..|stack| - 1], Completed(stack, black);
    GrayShrinks(stack, black);
    assert OnStack(h, stack, |stack| - 1) && Passed(h, truthy, black + Gray(stack), top);
    assert top.items[..top.index] == top.items;
    forall j | 0 <= j < |below|
      ensures OnStack(h, below, j) && Passed(h, truthy, now + Gray(below), below[j])
    {
      assert OnStack(h, stack, j) && Passed(h, truthy, black + Gray(stack), stack[j]);
    }
  }

  function Pow(b: nat, e: nat): nat {
    if e == 0 then 1 else b * Pow(b, e - 1)
  }

  /** What is left to do under a cursor at depth j: each item, and all a walk can find under it. */
  function Work(b: nat, depth: nat, stack: seq<Cursor>): nat
    requires |stack| <= depth + 1
  {
    if stack == [] then 0
    else
      var n := |stack| - 1;
      var top := stack[n];
      Work(b, depth, stack[..n]) + (if top.index <= |top.items| then |top.items| - top.index else 0) * Pow(b, depth - n)
  }

  lemma NoWork(b: nat, depth: nat, stack: seq<Cursor>)
    requires stack != [] && |stack| <= depth + 1 && stack[|stack| - 1].index == |stack[|stack| - 1].items|
    ensures Work(b, depth, stack[..|stack| - 1]) == Work(b, depth, stack)
  {
  }

  /** One item fewer is less work, even when it is an array to walk. */
  lemma LessWork(b: nat, depth: nat, stack: seq<Cursor>, c: Cursor)
    requires stack != [] && |stack| <= depth && forall j :: 0 <= j < |stack| ==> stack[j].index <= |stack[j].items|
    requires stack[|stack| - 1].index < |stack[|stack| - 1].items| && c.index == 0 && |c.items| < b
    ensures Work(b, depth, Advance(stack)) < Work(b, depth, stack)
    ensures Work(b, depth, Advance(stack) + [c]) < Work(b, depth, stack)
  {
    var n, next := |stack| - 1, Advance(stack);
    var top := stack[n];
    var unit := Pow(b, depth - n);
    assert next[..n] == stack[..n];
    PowPositive(b, depth - n);
    Distribute(|top.items| - top.index - 1, unit);
    assert (next + [c])[..n + 1] == next;
    assert unit == b * Pow(b, depth - n - 1);
    PowPositive(b, depth - n - 1);
    Smaller(|c.items|, b, Pow(b, depth - n - 1));
  }

  lemma PowPositive(b: nat, e: nat)
    requires b > 0
    ensures Pow(b, e) > 0
  {
    if e > 0 {
      PowPositive(b, e - 1);
      assert b * Pow(b, e - 1) > 0;
    }
  }

  lemma Distribute(n: nat, unit: nat)
    ensures (n + 1) * unit == n * unit + unit
  {
  }

  lemma Smaller(a: nat, b: nat, unit: nat)
    requires a < b && unit > 0
    ensures a * unit < b * unit
  {
  }

  /** The longest array there is. */
  ghost predicate Fits(h: Heap, items: seq<Value>, b: nat) {
    |items| < b && forall id :: id in h && h[id].ArrNode? ==> |h[id].items| < b
  }

  lemma {:induction false} SomeBound(h: Heap, ids: set<Id>) returns (b: nat)
    requires ids <= h.Keys
    ensures forall id :: id in ids && h[id].ArrNode? ==> |h[id].items| < b
  {
    if ids == {} {
      b := 0;
    } else {
      var id :| id in ids;
      b := SomeBound(h, ids - {id});
      if h[id].ArrNode? && |h[id].items| >= b {
        b := |h[id].items| + 1;
      }
    }
  }

  /** The walk over items: the arrays open are the path, and once none is, everything passed is quiet. */
  ghost predicate Walked(h: Heap, truthy: Tree -> bool, items: seq<Value>, stack: seq<Cursor>, black: set<Id>,
                         path: seq<Id>) {
    && Walking(h, truthy, stack, black)
    && (if stack == [] then AllQuiet(h, truthy, black, items)
        else
          && stack[0].items == items && |path| == |stack| - 1
          && forall j :: 0 < j < |stack| ==> stack[j].id == Some(path[j - 1]))
  }

  lemma Started(h: Heap, truthy: Tree -> bool, items: seq<Value>, i: nat, nested: Id)
    requires Closed(h) && AllIn(h, items) && i < |items| && items[i] == Ref(nested) && IsArray(h, items[i])
    requires AllQuiet(h, truthy, {}, items[..i])
    ensures Walked(h, truthy, items, [Cursor(items, i + 1, None), Cursor(h[nested].items, 0, Some(nested))], {},
                   [nested])
  {
    var stack := [Cursor(items, i, None)];
    assert Gray(stack) == {};
    assert Passed(h, truthy, {} + Gray(stack), stack[0]);
    Entered(h, truthy, stack, {}, nested);
    assert Push(h, stack, nested) == [Cursor(items, i + 1, None), Cursor(h[nested].items, 0, Some(nested))];
  }

  lemma TopInRange(h: Heap, truthy: Tree -> bool, items: seq<Value>, stack: seq<Cursor>, black: set<Id>, path: seq<Id>)
    requires stack != [] && Walked(h, truthy, items, stack, black, path)
    ensures forall j :: 0 <= j < |stack| ==> stack[j].index <= |stack[j].items|
    ensures AllIn(h, stack[|stack| - 1].items) && (|stack| > 1 ==> stack[|stack| - 1].id.Some?)
    ensures forall j :: 0 <= j < |stack| ==> OnStack(h, stack, j)
    ensures forall j :: 0 <= j < |path| ==> path[j] in h
  {
    forall j | 0 <= j < |stack|
      ensures stack[j].index <= |stack[j].items|
    {
      assert OnStack(h, stack, j);
    }
    assert OnStack(h, stack, |stack| - 1);
    forall j | 0 <= j < |path|
      ensures path[j] in h
    {
      assert OnStack(h, stack, j + 1);
    }
  }

  /** Leaving the array the top cursor has finished. */
  lemma Finished(h: Heap, truthy: Tree -> bool, items: seq<Value>, stack: seq<Cursor>, black: set<Id>, path: seq<Id>)
    requires stack != [] && Walked(h, truthy, items, stack, black, path)
    requires stack[|stack| - 1].index == |stack[|stack| - 1].items|
    ensures var below := stack[..|stack| - 1];
            Walked(h, truthy, items, below, Completed(stack, black), if below == [] then path else path[..|path| - 1])
    ensures |stack| > 1 ==> path != [] && stack[|stack| - 1].id == Some(path[|path| - 1])
  {
    Left(h, truthy, stack, black);
    if |stack| == 1 {
      assert OnStack(h, stack, 0) && Gray(stack) == {};
      assert black + Gray(stack) == Completed(stack, black);
    }
  }

  /** Moving past a value that holds nothing truthy, or an array walked already or being walked. */
  lemma PassedOver(h: Heap, truthy: Tree -> bool, items: seq<Value>, stack: seq<Cursor>, black: set<Id>, path: seq<Id>)
    requires stack != [] && Walked(h, truthy, items, stack, black, path)
    requires var top := stack[|stack| - 1];
             && top.index < |top.items|
             && var v := top.items[top.index];
                !TrueAlone(h, truthy, v) && (IsArray(h, v) && h[v.id].items != [] ==> v.id in black || v.id in path)
    ensures Walked(h, truthy, items, Advance(stack), black, path)
  {
    var v := stack[|stack| - 1].items[stack[|stack| - 1].index];
    if IsArray(h, v) && h[v.id].items != [] && v.id in path {
      var j :| 0 <= j < |path| && path[j] == v.id;
      assert stack[j + 1].id == Some(v.id);
    }
    Skipped(h, truthy, stack, black);
  }

  lemma WentIn(h: Heap, truthy: Tree -> bool, items: seq<Value>, stack: seq<Cursor>, black: set<Id>, path: seq<Id>,
               id: Id)
    requires Closed(h) && AtArray(h, stack, id) && path != [] && path[|path| - 1] == id
    requires Walked(h, truthy, items, stack, black, path[..|path| - 1])
    ensures Walked(h, truthy, items, Push(h, stack, id), black, path)
  {
    Entered(h, truthy, stack, black, id);
  }

  lemma WalkedOut(h: Heap, truthy: Tree -> bool, items: seq<Value>, black: set<Id>, path: seq<Id>)
    requires Walked(h, truthy, items, [], black, path)
    ensures !SomeTruthy(h, truthy, items)
  {
    forall p
      ensures !Leads(h, truthy, items, p)
    {
      QuietLeadsNowhere(h, truthy, black, items, p);
    }
  }

  lemma FoundTruthy(h: Heap, truthy: Tree -> bool, items: seq<Value>, stack: seq<Cursor>, black: set<Id>,
                    path: seq<Id>, v: Value)
    requires stack != [] && Walked(h, truthy, items, stack, black, path)
    requires v in stack[|stack| - 1].items && TrueAlone(h, truthy, v)
    ensures SomeTruthy(h, truthy, items)
  {
    assert Leads(h, truthy, stack[|stack| - 1].items, [v]);
    LeadsDown(h, truthy, stack, |stack| - 1, [v]);
  }

  /** Decides a value that is no array; nested: the array to go on with. */
  method BooleanOf(h: Heap, truthy: Tree -> bool, v: Value) returns (r: bool, nested: Option<Id>)
    requires IsIn(h, v)
    ensures nested.Some? <==> IsArray(h, v)
    ensures nested.Some? ==> v == Ref(nested.value) && !r
    ensures nested.None? ==> r == TrueAlone(h, truthy, v)
  {
    match v
    case Leaf(t) => r, nested := truthy(t), None;
    case Ref(id) =>
      match h[id]
      case ArrNode(_) => r, nested := false, Some(id);
      case ObjNode(entries) => r, nested := entries != [], None;
  }

  /** Whether anything truthy is reachable from items through nested arrays. */
  method AnyTruthy(h: Heap, truthy: Tree -> bool, items: seq<Value>) returns (r: bool)
    requires Closed(h) && AllIn(h, items)
    ensures r == SomeTruthy(h, truthy, items)
  {
    for i := 0 to |items|
      invariant AllQuiet(h, truthy, {}, items[..i])
    {
      var found, nested := BooleanOf(h, truthy, items[i]);
      if nested.Some? {
        r := AnyTruthyNested(h, truthy, items, i, nested.value);
        return;
      }
      if found {
        assert Leads(h, truthy, items, [items[i]]);
        return true;
      }
      assert items[..i + 1] == items[..i] + [items[i]];
    }
    assert items[..|items|] == items;
    forall p
      ensures !Leads(h, truthy, items, p)
    {
      QuietLeadsNowhere(h, truthy, {}, items, p);
    }
    r := false;
  }

  /** Continues AnyTruthy from item i, the array nested. */
  method AnyTruthyNested(h: Heap, truthy: Tree -> bool, items: seq<Value>, i: nat, nested: Id) returns (r: bool)
    requires Closed(h) && AllIn(h, items) && i < |items| && items[i] == Ref(nested) && IsArray(h, items[i])
    requires AllQuiet(h, truthy, {}, items[..i])
    ensures r == SomeTruthy(h, truthy, items)
  {
    hide Walked, Work, SomeTruthy, OnStack, ValuePath.Valid;
    var path := new ValuePath();
    var falsy: set<Id> := {};
    var memoizing, entered := false, 0;
    ghost var b := SomeBound(h, h.Keys);
    b := b + |items| + 1;
    ghost var depth, black := CYCLE_CHECK_DEPTH + |h.Keys| + 2, {};
    var stack := [Cursor(items, i + 1, None), Cursor(h[nested].items, 0, Some(nested))];
    Started(h, truthy, items, i, nested);
    var ok := path.Enter(nested);
    assert [] + [nested] == [nested];
    while stack != []
      invariant path.Valid() && fresh(path) && Walked(h, truthy, items, stack, black, path.path)
      invariant falsy <= black && Fits(h, items, b) && |stack| <= depth
      decreases Work(b, depth, stack), |stack|
    {
      var top := stack[|stack| - 1];
      TopInRange(h, truthy, items, stack, black, path.path);
      if top.index == |top.items| {
        Finished(h, truthy, items, stack, black, path.path);
        NoWork(b, depth, stack);
        black := Completed(stack, black);
        stack := stack[..|stack| - 1];
        if stack != [] {
          path.Leave(top.id.value);
          if memoizing && |top.items| > 0 {
            falsy := falsy + {top.id.value};
          }
        }
        continue;
      }
      var v := top.items[top.index];
      var found, inner := BooleanOf(h, truthy, v);
      LessWork(b, depth, stack, Cursor([], 0, None));
      if found {
        FoundTruthy(h, truthy, items, stack, black, path.path, v);
        return true;
      }
      var open := inner.Some? && h[inner.value].items != [] && inner.value !in falsy;
      if open {
        open := path.Enter(inner.value);
      }
      if !open {
        PassedOver(h, truthy, items, stack, black, path.path);
        stack := Advance(stack);
        continue;
      }
      WentIn(h, truthy, items, stack, black, path.path, inner.value);
      LessWork(b, depth, stack, Cursor(h[inner.value].items, 0, inner));
      stack := Push(h, stack, inner.value);
      path.DepthBound(h.Keys);
      entered := entered + 1;
      if entered == MEMO_AFTER {
        memoizing := true;
      }
    }
    WalkedOut(h, truthy, items, black, path.path);
    r := false;
  }
}
