/** Filtering a sequence by a predicate that does not read its items, in one evaluation. */
module PathFilter {
  import opened Wrappers
  import opened Trees
  import opened PathEval

  /** e is the same over every item. */
  predicate ContextFree(e: Expr) {
    match e
    case Literal(_) => true
    case Root => true
    case Variable(_) => true
    case Pick(base, _) => ContextFree(base)
    case Filter(base, test) => ContextFree(base) && ContextFree(test)
    case Binary(_, left, right) => ContextFree(left) && ContextFree(right)
    case Negate(operand) => ContextFree(operand)
    case Condition(guard, yes, no) => ContextFree(guard) && ContextFree(yes) && (no.Some? ==> ContextFree(no.value))
    case ArrayOf(parts) => AllContextFree(parts)
    case _ => false
  }

  predicate AllContextFree(parts: seq<Expr>) {
    parts != [] ==> ContextFree(parts[0]) && AllContextFree(parts[1..])
  }

  /** Such an expression has one value over all inputs. */
  lemma {:induction false} ContextFreeSame(ops: Ops, e: Expr, top: bool, v: Val, w: Val, env: Env)
    requires ContextFree(e)
    ensures Eval(ops, e, top, v, env) == Eval(ops, e, top, w, env)
    decreases e, 2
  {
    match e
    case Pick(_, _) => SubscriptContextFree(ops, e, top, v, w, env);
    case Filter(_, _) => SubscriptContextFree(ops, e, top, v, w, env);
    case Binary(_, left, right) =>
      ContextFreeSame(ops, left, top, v, w, env);
      ContextFreeSame(ops, right, top, v, w, env);
    case Negate(operand) => ContextFreeSame(ops, operand, top, v, w, env);
    case Condition(guard, yes, no) =>
      ContextFreeSame(ops, guard, top, v, w, env);
      ContextFreeSame(ops, yes, top, v, w, env);
      if no.Some? {
        ContextFreeSame(ops, no.value, top, v, w, env);
      }
    case ArrayOf(parts) => PartsContextFree(ops, parts, top, v, w, env);
    case _ =>
  }

  lemma {:induction false} PartsContextFree(ops: Ops, parts: seq<Expr>, top: bool, v: Val, w: Val, env: Env)
    requires AllContextFree(parts)
    ensures EvalParts(ops, parts, top, v, env) == EvalParts(ops, parts, top, w, env)
    decreases parts, 0
  {
    if parts != [] {
      ContextFreeSame(ops, parts[0], top, v, w, env);
      PartsContextFree(ops, parts[1..], top, v, w, env);
    }
  }

  lemma {:induction false} NotOfName(e: Expr)
    requires ContextFree(e)
    ensures !SubscriptsName(e)
    decreases e
  {
    if IsSubscript(e) {
      NotOfName(e.base);
    }
  }

  lemma {:induction false} StageContextFree(ops: Ops, e: Expr, top: bool, v: Val, w: Val, env: Env)
    requires IsSubscript(e) && ContextFree(e)
    ensures SubscriptStage(ops, e, top, v, env) == SubscriptStage(ops, e, top, w, env)
    decreases e, 0
  {
    NotOfName(e.base);
    if IsSubscript(e.base) {
      StageContextFree(ops, e.base, top, v, w, env);
    } else {
      ContextFreeSame(ops, e.base, top, v, w, env);
    }
    assert StageLeft(ops, e, top, v, env) == StageLeft(ops, e, top, w, env);
  }

  lemma {:induction false} SubscriptContextFree(ops: Ops, e: Expr, top: bool, v: Val, w: Val, env: Env)
    requires IsSubscript(e) && ContextFree(e)
    ensures EvalSubscript(ops, e, top, v, env) == EvalSubscript(ops, e, top, w, env)
    decreases e, 1
  {
    NotOfName(e);
    StageContextFree(ops, e, top, v, w, env);
  }

  /** What the per-item loop keeps from the k-th item on, when the predicate has one result over all. */
  function KeptFrom(ops: Ops, v: Val, items: seq<Tree>, k: nat): Outcome
    requires k <= |items|
    decreases |items| - k
  {
    if k == |items| then Many([])
    else
      var matches := FilterMatches(ops, v, k, |items|);
      if matches.Err? then Fail(matches.error) else Keep(items[k], matches, KeptFrom(ops, v, items, k + 1))
  }

  lemma {:induction false} FilterKeeps(ops: Ops, test: Expr, items: seq<Tree>, k: nat, env: Env, v: Val)
    requires k <= |items| && ContextFree(test)
    requires items != [] ==> Eval(ops, test, false, Def(items[0], false), env) == Value(v)
    ensures FilterItems(ops, test, items, k, env) == KeptFrom(ops, v, items, k)
    decreases |items| - k
  {
    if k < |items| {
      ContextFreeSame(ops, test, false, Def(items[k], false), Def(items[0], false), env);
      FilterKeeps(ops, test, items, k + 1, env, v);
    }
  }

  ghost predicate Sorted(at: seq<int>) {
    forall i, j :: 0 <= i < j < |at| ==> at[i] <= at[j]
  }

  /** at in order. */
  function Sort(at: seq<int>): seq<int> {
    if at == [] then [] else Insert(at[0], Sort(at[1..]))
  }

  function Insert(x: int, at: seq<int>): seq<int> {
    if at == [] then [x]
    else if x <= at[0] then [x] + at
    else [at[0]] + Insert(x, at[1..])
  }

  ghost predicate AtLeast(low: int, at: seq<int>) {
    forall i :: 0 <= i < |at| ==> low <= at[i]
  }

  lemma {:induction false} InsertSorts(low: int, x: int, at: seq<int>)
    requires Sorted(at) && AtLeast(low, at) && low <= x
    ensures Sorted(Insert(x, at)) && AtLeast(low, Insert(x, at))
    decreases |at|
  {
    if at != [] && at[0] < x {
      InsertSorts(at[0], x, at[1..]);
    }
  }

  lemma {:induction false} InsertKeeps(x: int, at: seq<int>)
    ensures multiset(Insert(x, at)) == multiset{x} + multiset(at)
  {
    if at != [] && at[0] < x {
      assert at == [at[0]] + at[1..];
      InsertKeeps(x, at[1..]);
    }
  }

  lemma {:induction false} SortSorts(at: seq<int>)
    ensures Sorted(Sort(at)) && multiset(Sort(at)) == multiset(at)
  {
    if at != [] {
      var rest := Sort(at[1..]);
      assert at == [at[0]] + at[1..];
      SortSorts(at[1..]);
      InsertSorts(if rest != [] && rest[0] < at[0] then rest[0] else at[0], at[0], rest);
      InsertKeeps(at[0], rest);
    }
  }

  lemma {:induction false} OccurrencesCount(at: seq<int>, pos: int)
    ensures Occurrences(at, pos) == multiset(at)[pos]
  {
    if at != [] {
      assert at == [at[0]] + at[1..];
      OccurrencesCount(at[1..], pos);
    }
  }

  /** The items at the positions that are in range. */
  function ItemsAt(at: seq<int>, items: seq<Tree>): seq<Tree> {
    if at == [] then []
    else (if 0 <= at[0] < |items| then [items[at[0]]] else []) + ItemsAt(at[1..], items)
  }

  /** The items from the k-th on, each as often as its position occurs. */
  function Selections(at: seq<int>, items: seq<Tree>, k: nat): seq<Tree>
    requires k <= |items|
    decreases |items| - k
  {
    if k == |items| then [] else Repeat(items[k], Occurrences(at, k)) + Selections(at, items, k + 1)
  }

  lemma {:induction false} SelectionsLater(at: seq<int>, x: int, items: seq<Tree>, k: nat)
    requires k <= |items| && x < k
    ensures Selections([x] + at, items, k) == Selections(at, items, k)
    decreases |items| - k
  {
    if k < |items| {
      assert ([x] + at)[1..] == at;
      SelectionsLater(at, x, items, k + 1);
    }
  }

  lemma {:induction false} NoneBelow(at: seq<int>, pos: int)
    requires forall i :: 0 <= i < |at| ==> at[i] > pos
    ensures Occurrences(at, pos) == 0
  {
    if at != [] {
      NoneBelow(at[1..], pos);
    }
  }

  /** A position before all of the sorted ones is not among them. */
  lemma NoneBefore(at: seq<int>, x: int, pos: int)
    requires Sorted([x] + at) && pos < x
    ensures Occurrences([x] + at, pos) == Occurrences(at, pos) == 0
  {
    assert ([x] + at)[0] == x && ([x] + at)[1..] == at;
    forall i | 0 <= i < |at|
      ensures at[i] > pos
    {
      assert ([x] + at)[i + 1] == at[i];
    }
    NoneBelow(at, pos);
  }

  /** An item of no position is not selected. */
  lemma NotHere(at: seq<int>, items: seq<Tree>, k: nat)
    requires k < |items| && Occurrences(at, k) == 0
    ensures Selections(at, items, k) == Selections(at, items, k + 1)
  {
  }

  /** One more position of the item at hand selects it once more. */
  lemma OnceMore(at: seq<int>, items: seq<Tree>, k: nat)
    requires k < |items|
    ensures Selections([k] + at, items, k) == [items[k]] + Selections(at, items, k)
  {
    assert ([k] + at)[1..] == at;
    SelectionsLater(at, k, items, k + 1);
    var n, rest := Occurrences(at, k), Selections(at, items, k + 1);
    Associate([items[k]], Repeat(items[k], n), rest);
  }

  lemma Associate<T>(a: seq<T>, b: seq<T>, c: seq<T>)
    ensures (a + b) + c == a + (b + c)
  {
  }

  /** Positions in order select items in order: the first position before the others. */
  lemma {:induction false} SelectionsFirst(at: seq<int>, x: int, items: seq<Tree>, k: nat)
    requires k <= |items| && Sorted([x] + at) && x >= k
    ensures Selections([x] + at, items, k) == (if x < |items| then [items[x]] else []) + Selections(at, items, k)
    decreases |items| - k
  {
    if k < |items| {
      hide Selections, Occurrences, Sorted;
      if x == k {
        OnceMore(at, items, k);
      } else {
        NoneBefore(at, x, k);
        NotHere(at, items, k);
        NotHere([x] + at, items, k);
        SelectionsFirst(at, x, items, k + 1);
      }
    }
  }

  /** Taking the items at sorted positions is taking each item as often as its position occurs. */
  lemma {:induction false} SortedSelect(at: seq<int>, items: seq<Tree>)
    requires Sorted(at)
    ensures ItemsAt(at, items) == Selections(at, items, 0)
    decreases |at|
  {
    if at == [] {
      NothingSelected(items, 0);
    } else {
      var rest := at[1..];
      assert at == [at[0]] + rest;
      SortedSelect(rest, items);
      if at[0] < 0 {
        SelectionsLater(rest, at[0], items, 0);
      } else {
        SelectionsFirst(rest, at[0], items, 0);
      }
    }
  }

  lemma {:induction false} NothingSelected(items: seq<Tree>, k: nat)
    requires k <= |items|
    ensures Selections([], items, k) == []
    decreases |items| - k
  {
    if k < |items| {
      NothingSelected(items, k + 1);
    }
  }

  lemma {:induction false} SameOccurrences(at: seq<int>, other: seq<int>, items: seq<Tree>, k: nat)
    requires k <= |items| && multiset(at) == multiset(other)
    ensures Selections(at, items, k) == Selections(other, items, k)
    decreases |items| - k
  {
    if k < |items| {
      OccurrencesCount(at, k);
      OccurrencesCount(other, k);
      SameOccurrences(at, other, items, k + 1);
    }
  }

  lemma {:induction false} KeptPositions(ops: Ops, v: Val, at: seq<int>, items: seq<Tree>, k: nat)
    requires k <= |items| && SelectedPositions(ops, v, |items|) == Selected(at) && !(v.Def? && v.t.BoolTree?)
    ensures KeptFrom(ops, v, items, k) == Many(Selections(at, items, k))
    decreases |items| - k
  {
    if k < |items| {
      KeptPositions(ops, v, at, items, k + 1);
    }
  }

  lemma {:induction false} KeptAll(ops: Ops, v: Val, items: seq<Tree>, k: nat)
    requires k <= |items| && SelectedPositions(ops, v, |items|) == NotPositional
    ensures KeptFrom(ops, v, items, k) == Many(if TruthyValue(ops, v) then items[k..] else [])
    decreases |items| - k
  {
    if k < |items| {
      KeptAll(ops, v, items, k + 1);
      assert Repeat(items[k], 1) == [items[k]] && [items[k]] + items[k + 1..] == items[k..];
    }
  }

  lemma BooleanSelects(ops: Ops, v: Val, length: nat)
    requires v.Def? && v.t.BoolTree?
    ensures SelectedPositions(ops, v, length) == NotPositional
  {
    assert Elements(v.t)[1..] == [] && ResolveIndices(ops, [], length) == Selected([]);
    assert IndexOf(ops, Elements(v.t)[0]) == NotNumber;
  }

  lemma ItemsAtNext(at: seq<int>, items: seq<Tree>, i: nat)
    requires i < |at|
    ensures ItemsAt(at[i..], items) ==
            (if 0 <= at[i] < |items| then [items[at[i]]] else []) + ItemsAt(at[i + 1..], items)
  {
    assert at[i..][1..] == at[i + 1..];
  }

  /** The items at the positions that are in range, in the order of the positions. */
  method TakeItems(at: seq<int>, items: seq<Tree>) returns (kept: seq<Tree>)
    ensures kept == ItemsAt(at, items)
  {
    kept := [];
    for i := 0 to |at|
      invariant kept + ItemsAt(at[i..], items) == ItemsAt(at, items)
    {
      hide ItemsAt;
      ItemsAtNext(at, items, i);
      if 0 <= at[i] < |items| {
        kept := kept + [items[at[i]]];
      }
    }
    assert at[|at|..] == [];
  }

  /** Applies one predicate result to every item: the items the per-item loop keeps. */
  method FilterConstant(ops: Ops, v: Val, items: seq<Tree>) returns (r: Outcome)
    requires items != []
    ensures r == KeptFrom(ops, v, items, 0)
  {
    if v.Def? && v.t.BoolTree? {
      BooleanSelects(ops, v, |items|);
    }
    assert items[0..] == items;
    match SelectedPositions(ops, v, |items|)
    case OutOfRange =>
      r := Fail(OUT_OF_RANGE);
    case NotPositional =>
      KeptAll(ops, v, items, 0);
      r := Many(if TruthyValue(ops, v) then items else []);
    case Selected(at) =>
      var resolved := Sort(at);
      SortSorts(at);
      KeptPositions(ops, v, at, items, 0);
      SameOccurrences(at, resolved, items, 0);
      SortedSelect(resolved, items);
      var kept := TakeItems(resolved, items);
      r := Many(kept);
  }

  /** Keeps the items the predicate selects; one that does not read them is evaluated once. */
  method FilterByPredicate(ops: Ops, test: Expr, items: seq<Tree>, env: Env) returns (r: Outcome)
    requires items != []
    ensures r == FilterItems(ops, test, items, 0, env)
  {
    if ContextFree(test) {
      var o := Eval(ops, test, false, Def(items[0], false), env);
      if o.Fail? {
        return o;
      }
      FilterKeeps(ops, test, items, 0, env, o.v);
      r := FilterConstant(ops, o.v, items);
      return;
    }
    var kept: seq<Tree> := [];
    for i := 0 to |items|
      invariant Keeping(kept, FilterItems(ops, test, items, i, env)) == FilterItems(ops, test, items, 0, env)
    {
      var o := Eval(ops, test, false, Def(items[i], false), env);
      if o.Fail? {
        return o;
      }
      var matches := FilterMatches(ops, o.v, i, |items|);
      if matches.Err? {
        return Fail(matches.error);
      }
      KeepingMore(kept, items[i], matches.value, FilterItems(ops, test, items, i + 1, env));
      kept := kept + Repeat(items[i], matches.value);
    }
    r := Many(kept);
  }

  /** What is kept so far, before what the rest keeps. */
  function Keeping(kept: seq<Tree>, rest: Outcome): Outcome {
    if rest.Many? then Many(kept + rest.vs) else rest
  }

  lemma KeepingMore(kept: seq<Tree>, item: Tree, n: nat, rest: Outcome)
    ensures Keeping(kept, Keep(item, Ok(n), rest)) == Keeping(kept + Repeat(item, n), rest)
  {
    if rest.Many? {
      assert kept + (Repeat(item, n) + rest.vs) == kept + Repeat(item, n) + rest.vs;
    }
  }

  function Reversed(items: seq<Tree>): (r: seq<Tree>)
    ensures |r| == |items|
  {
    if items == [] then [] else Reversed(items[1..]) + [items[0]]
  }

  lemma {:induction false} ReversedAt(items: seq<Tree>, k: nat)
    requires k < |items|
    ensures Reversed(items)[k] == items[|items| - 1 - k]
  {
    if k < |items| - 1 {
      ReversedAt(items[1..], k);
    }
  }

  /** The item that many others stand before, if there is one. */
  function Nth(items: seq<Tree>, i: nat): Val {
    if i < |items| then Def(items[i], false) else Undef
  }

  /** An index counts from the first item, or a negative one from the last. */
  function Counted(items: seq<Tree>, i: int): Val {
    if i >= 0 then Nth(items, i) else Nth(Reversed(items), -i - 1)
  }

  function ItemOr(v: Val): seq<Tree> {
    if v.Def? then [v.t] else []
  }

  /** A position selects the item its index counts to. */
  lemma ResolveCounts(items: seq<Tree>, i: int)
    ensures PickItem(items, i) == Counted(items, i)
    ensures var at := Resolve(i, |items|);
            (if 0 <= at < |items| then [items[at]] else []) == ItemOr(Counted(items, i))
  {
    if -|items| <= i < 0 {
      ReversedAt(items, -i - 1);
    }
  }

  function CountedAll(items: seq<Tree>, indices: seq<int>): seq<Tree> {
    if indices == [] then [] else ItemOr(Counted(items, indices[0])) + CountedAll(items, indices[1..])
  }

  /** The indices a predicate's values are, none when one is no number. */
  predicate AreIndices(ops: Ops, values: seq<Tree>, indices: seq<int>) {
    |indices| == |values| && forall k :: 0 <= k < |values| ==> IndexOf(ops, values[k]) == At(indices[k])
  }

  lemma {:induction false} IndicesCount(ops: Ops, values: seq<Tree>, indices: seq<int>, items: seq<Tree>)
    requires AreIndices(ops, values, indices)
    ensures ResolveIndices(ops, values, |items|).Selected?
    ensures ItemsAt(ResolveIndices(ops, values, |items|).at, items) == CountedAll(items, indices)
    decreases |values|
  {
    if values != [] {
      IndicesCount(ops, values[1..], indices[1..], items);
      ResolveCounts(items, indices[0]);
      var at, rest := ResolveIndices(ops, values, |items|).at, ResolveIndices(ops, values[1..], |items|).at;
      assert at == [Resolve(indices[0], |items|)] + rest && at[1..] == rest;
      hide Counted, Resolve, ItemOr, ResolveIndices;
    }
  }

  lemma {:induction false} ItemsAtJoin(a: seq<int>, b: seq<int>, items: seq<Tree>)
    ensures ItemsAt(a + b, items) == ItemsAt(a, items) + ItemsAt(b, items)
  {
    if a == [] {
      assert a + b == b;
    } else {
      assert (a + b)[1..] == a[1..] + b;
      ItemsAtJoin(a[1..], b, items);
    }
  }

  /** Filtering by indices keeps the items they count to, each as often as it is counted to, in the items' order. */
  lemma IndicesFilter(ops: Ops, v: Val, values: seq<Tree>, indices: seq<int>, items: seq<Tree>)
    requires v.Def? && v.t != ArrTree([]) && !v.t.BoolTree? && values == Elements(v.t) && items != []
    requires AreIndices(ops, values, indices)
    ensures var kept := KeptFrom(ops, v, items, 0);
            && kept.Many? && multiset(kept.vs) == multiset(CountedAll(items, indices))
            && (exists at :: Sorted(at) && kept.vs == ItemsAt(at, items))
            && (|indices| == 1 ==> kept.vs == ItemOr(Counted(items, indices[0])))
  {
    IndicesCount(ops, values, indices, items);
    var at := ResolveIndices(ops, values, |items|).at;
    SortSorts(at);
    KeptPositions(ops, v, at, items, 0);
    SameOccurrences(at, Sort(at), items, 0);
    SortedSelect(Sort(at), items);
    SortItems(at, items);
    if |indices| == 1 {
      assert indices[1..] == [] && CountedAll(items, indices) == ItemOr(Counted(items, indices[0])) + [];
      OneOf(KeptFrom(ops, v, items, 0).vs, CountedAll(items, indices));
    }
  }

  lemma OneOf(a: seq<Tree>, b: seq<Tree>)
    requires multiset(a) == multiset(b) && |b| <= 1
    ensures a == b
  {
    assert |multiset(a)| == |a| && |multiset(b)| == |b|;
    if |b| == 1 {
      assert b[0] in multiset(b) && a[0] in multiset(a);
    }
  }

  lemma {:induction false} InsertItems(x: int, at: seq<int>, items: seq<Tree>)
    ensures multiset(ItemsAt(Insert(x, at), items)) == multiset(ItemsAt([x], items)) + multiset(ItemsAt(at, items))
  {
    if at == [] || x <= at[0] {
      assert Insert(x, at) == [x] + at;
      ItemsAtJoin([x], at, items);
    } else {
      var rest := at[1..];
      assert at == [at[0]] + rest;
      hide ItemsAt;
      InsertItems(x, rest, items);
      ItemsAtJoin([at[0]], Insert(x, rest), items);
      ItemsAtJoin([at[0]], rest, items);
    }
  }

  /** Sorted, positions select the same items in another order. */
  lemma {:induction false} SortItems(at: seq<int>, items: seq<Tree>)
    ensures multiset(ItemsAt(Sort(at), items)) == multiset(ItemsAt(at, items))
  {
    if at != [] {
      var rest := at[1..];
      assert at == [at[0]] + rest;
      hide ItemsAt;
      SortItems(rest, items);
      InsertItems(at[0], Sort(rest), items);
      ItemsAtJoin([at[0]], rest, items);
    }
  }

  ghost predicate SomeIndex(ops: Ops, values: seq<Tree>, i: Index) {
    exists k :: 0 <= k < |values| && IndexOf(ops, values[k]) == i
  }

  /** Values are no indices when one is not finite, which fails wherever it is, or else one is no number. */
  lemma {:induction false} ResolvedUnless(ops: Ops, values: seq<Tree>, length: nat)
    ensures ResolveIndices(ops, values, length).OutOfRange? <==> SomeIndex(ops, values, Unbounded)
    ensures ResolveIndices(ops, values, length).NotPositional? <==>
            !SomeIndex(ops, values, Unbounded) && SomeIndex(ops, values, NotNumber)
  {
    if values != [] {
      ResolvedUnless(ops, values[1..], length);
      forall i: Index
        ensures SomeIndex(ops, values, i) <==> IndexOf(ops, values[0]) == i || SomeIndex(ops, values[1..], i)
      {
        if k :| 0 <= k < |values| && IndexOf(ops, values[k]) == i && k > 0 {
          assert IndexOf(ops, values[1..][k - 1]) == i;
        }
        if SomeIndex(ops, values[1..], i) {
          var k :| 0 <= k < |values[1..]| && IndexOf(ops, values[1..][k]) == i;
          assert IndexOf(ops, values[k + 1]) == i;
        }
      }
    }
  }

  /** A predicate's value that is no position keeps all items or none, as it is true or not; one not finite fails. */
  lemma OtherFilters(ops: Ops, v: Val, items: seq<Tree>)
    requires items != []
    ensures var r, all := KeptFrom(ops, v, items, 0), Many(if TruthyValue(ops, v) then items else []);
            if v.Undef? || v.t.BoolTree? || v.t == ArrTree([]) then r == all
            else if SomeIndex(ops, Elements(v.t), Unbounded) then r == Fail("D1001")
            else SomeIndex(ops, Elements(v.t), NotNumber) ==> r == all
  {
    assert items[0..] == items;
    if v.Def? && v.t.BoolTree? {
      BooleanSelects(ops, v, |items|);
      KeptAll(ops, v, items, 0);
    } else if v.Undef? || v.t == ArrTree([]) {
      KeptAll(ops, v, items, 0);
    } else {
      ResolvedUnless(ops, Elements(v.t), |items|);
      if ResolveIndices(ops, Elements(v.t), |items|).NotPositional? {
        KeptAll(ops, v, items, 0);
      }
    }
  }

  /** What a path of positions leads to through arrays in arrays. */
  ghost predicate Leads(t: Tree, path: seq<nat>, leaf: Tree)
    decreases |path|
  {
    if path == [] then t == leaf
    else t.ArrTree? && path[0] < |t.items| && Leads(t.items[path[0]], path[1..], leaf)
  }

  /** Not null, false, a zero, or without characters or fields. */
  predicate IsTrue(ops: Ops, leaf: Tree) {
    && !leaf.ArrTree? && leaf != NullTree && leaf != BoolTree(false) && leaf != StrTree("") && leaf != ObjTree([])
    && (leaf.NumTree? ==> ops.nonzero(leaf.literal))
  }

  ghost predicate LeadsToTrue(ops: Ops, t: Tree, path: seq<nat>, leaf: Tree) {
    Leads(t, path, leaf) && IsTrue(ops, leaf)
  }

  /** A value counts as true exactly when it is or holds, in arrays at any depth, one that is. */
  lemma {:induction false} TruthyExactly(ops: Ops, t: Tree)
    ensures Truthy(ops, t) <==> exists path, leaf :: LeadsToTrue(ops, t, path, leaf)
    decreases t, 0
  {
    if t.ArrTree? {
      AnyTruthyExactly(ops, t.items);
      if Truthy(ops, t) {
        var i: nat, path, leaf :| i < |t.items| && LeadsToTrue(ops, t.items[i], path, leaf);
        assert ([i] + path)[1..] == path;
        assert LeadsToTrue(ops, t, [i] + path, leaf);
      }
      if path, leaf :| LeadsToTrue(ops, t, path, leaf) {
        assert path != [];
        assert LeadsToTrue(ops, t.items[path[0]], path[1..], leaf);
      }
    } else {
      if Truthy(ops, t) {
        assert LeadsToTrue(ops, t, [], t);
      }
    }
  }

  lemma {:induction false} AnyTruthyExactly(ops: Ops, items: seq<Tree>)
    ensures AnyTruthy(ops, items) <==>
            exists i: nat, path, leaf :: i < |items| && LeadsToTrue(ops, items[i], path, leaf)
    decreases items, 1
  {
    if items != [] {
      TruthyExactly(ops, items[0]);
      AnyTruthyExactly(ops, items[1..]);
      if AnyTruthy(ops, items) && !Truthy(ops, items[0]) {
        var i: nat, path, leaf :| i < |items[1..]| && LeadsToTrue(ops, items[1..][i], path, leaf);
        assert LeadsToTrue(ops, items[i + 1], path, leaf);
      }
      if i: nat, path, leaf :| i < |items| && LeadsToTrue(ops, items[i], path, leaf) && i > 0 {
        assert LeadsToTrue(ops, items[1..][i - 1], path, leaf);
      }
    }
  }
}
