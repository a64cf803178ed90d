/** Evaluating batches of registered expressions with cached plans. */
module Streams {
  import opened Wrappers
  import opened Plans
  import opened PlanKey
  import opened PlanCache

  /** A cached plan is for its batch over the slice. */
  ghost predicate IsCurrent(e: CacheEntry, exprs: Slice, shadowed: set<string>) {
    exists schema, indices :: KeyedPlan(e, schema, indices, exprs, shadowed)
  }

  ghost predicate KeyedPlan(e: CacheEntry, schema: string, indices: seq<int>, exprs: Slice, shadowed: set<string>) {
    e.key == KeyOf(schema, indices) && PlanFor(e.plan, ChoicesOf(exprs, indices, shadowed))
  }

  ghost predicate AllCurrent(entries: seq<CacheEntry>, exprs: Slice, shadowed: set<string>) {
    forall i :: 0 <= i < |entries| ==> IsCurrent(entries[i], exprs, shadowed)
  }

  /** A hit is the plan of the batch asked for: no other batch has its key. */
  lemma {:induction false} HitIsCurrent(entries: seq<CacheEntry>, exprs: Slice, shadowed: set<string>, schema: string,
                                        indices: seq<int>)
    requires AllCurrent(entries, exprs, shadowed)
    ensures Find(entries, KeyOf(schema, indices)).Some? ==>
              PlanFor(Find(entries, KeyOf(schema, indices)).value, ChoicesOf(exprs, indices, shadowed))
  {
    hide KeyOf, PlanFor;
    if entries != [] {
      if entries[0].key == KeyOf(schema, indices) {
        var s, a :| KeyedPlan(entries[0], s, a, exprs, shadowed);
        KeyInjective(s, a, schema, indices);
      } else {
        HitIsCurrent(entries[1..], exprs, shadowed, schema, indices);
      }
    }
  }

  lemma PutCurrent(entries: seq<CacheEntry>, capacity: nat, plan: GroupPlan, exprs: Slice, shadowed: set<string>,
                   schema: string, indices: seq<int>)
    requires capacity > 0 && AllCurrent(entries, exprs, shadowed) && PlanFor(plan, ChoicesOf(exprs, indices, shadowed))
    ensures AllCurrent(Put(entries, capacity, KeyOf(schema, indices), plan), exprs, shadowed)
  {
    hide KeyOf, PlanFor, ChoicesOf, Find;
    assert KeyedPlan(CacheEntry(KeyOf(schema, indices), plan), schema, indices, exprs, shadowed);
    var after := Put(entries, capacity, KeyOf(schema, indices), plan);
    forall i | 0 <= i < |after|
      ensures IsCurrent(after[i], exprs, shadowed)
    {
      assert after[i] in entries || after[i] == CacheEntry(KeyOf(schema, indices), plan);
    }
  }

  /** The fast path an expression of a batch takes: its own, or none if it is decoded. */
  function Route(choices: seq<Choice>, i: nat): Choice
    requires i < |choices|
  {
    var c := choices[i];
    if c.Absent? then Absent
    else if c == Pure("") || (c.Compose? && Decode in choices) then Decode
    else c
  }

  lemma RouteIs(plan: GroupPlan, exprs: Slice, indices: seq<int>, shadowed: set<string>, i: nat)
    requires PlanFor(plan, ChoicesOf(exprs, indices, shadowed)) && i < |indices|
    ensures var idx := indices[i];
            Route(ChoicesOf(exprs, indices, shadowed), i) ==
            if idx < 0 || idx >= |exprs| || exprs[idx].None? then Absent else Planned(plan, i)
  {
    hide PlanFor, Planned;
    PlannedIs(plan, ChoicesOf(exprs, indices, shadowed), i);
  }

  /** The fast path each expression of a batch takes with its plan. */
  method Routed(plan: GroupPlan, exprs: Slice, indices: seq<int>, ghost shadowed: set<string>)
    returns (routes: seq<Choice>)
    requires PlanFor(plan, ChoicesOf(exprs, indices, shadowed))
    ensures |routes| == |indices|
    ensures forall i :: 0 <= i < |indices| ==> routes[i] == Route(ChoicesOf(exprs, indices, shadowed), i)
  {
    hide PlanFor, Planned, Route;
    routes := [];
    for i := 0 to |indices|
      invariant |routes| == i
      invariant forall k :: 0 <= k < i ==> routes[k] == Route(ChoicesOf(exprs, indices, shadowed), k)
    {
      RouteIs(plan, exprs, indices, shadowed, i);
      var idx := indices[i];
      if idx < 0 || idx >= |exprs| || exprs[idx].None? {
        routes := routes + [Absent];
      } else {
        routes := routes + [Planned(plan, i)];
      }
    }
  }

  class StreamEvaluator {
    var exprs: Slice
    const cache: BoundedCache
    const shadowed: set<string>

    /** Every cached plan is for the expressions registered now. */
    ghost predicate Valid()
      reads this, cache, cache.entries
    {
      cache.Valid() && AllCurrent(cache.Contents(), exprs, shadowed)
    }

    constructor (expressions: seq<Expression>, maxSchemas: int, shadowed: set<string>)
      ensures Valid() && fresh(cache) && fresh(cache.entries) && this.shadowed == shadowed
      ensures exprs == seq(|expressions|, i requires 0 <= i < |expressions| => Some(expressions[i]))
    {
      this.exprs := seq(|expressions|, i requires 0 <= i < |expressions| => Some(expressions[i]));
      this.shadowed := shadowed;
      this.cache := new BoundedCache(maxSchemas);
    }

    /** Registers an expression at the next index. */
    method Add(expr: Expression) returns (idx: nat)
      requires Valid()
      modifies this`exprs, cache`head, cache`count, cache`snapshot, cache.entries
      ensures Valid() && exprs == old(exprs) + [Some(expr)] && idx == |old(exprs)| && cache.Contents() == []
    {
      idx := |exprs|;
      exprs := exprs + [Some(expr)];
      cache.Invalidate();
    }

    /** Puts another expression at an index. */
    method Replace(idx: int, expr: Expression) returns (ok: bool)
      requires Valid()
      modifies this`exprs, cache`head, cache`count, cache`snapshot, cache.entries
      ensures Valid() && ok == (0 <= idx < |old(exprs)|)
      ensures exprs == if ok then old(exprs)[idx := Some(expr)] else old(exprs)
    {
      if idx < 0 || idx >= |exprs| {
        return false;
      }
      exprs := exprs[idx := Some(expr)];
      cache.Invalidate();
      ok := true;
    }

    /** Leaves an index empty, for good. */
    method Remove(idx: int) returns (ok: bool)
      requires Valid()
      modifies this`exprs, cache`head, cache`count, cache`snapshot, cache.entries
      ensures Valid() && ok == (0 <= idx < |old(exprs)|)
      ensures exprs == if ok then old(exprs)[idx := None] else old(exprs)
    {
      if idx < 0 || idx >= |exprs| {
        return false;
      }
      exprs := exprs[idx := None];
      cache.Invalidate();
      ok := true;
    }

    /** Removes every expression. */
    method Reset()
      requires Valid()
      modifies this`exprs, cache`head, cache`count, cache`snapshot, cache.entries
      ensures Valid() && exprs == []
    {
      exprs := [];
      cache.Invalidate();
    }

    /** The plan of a batch, cached unless the schema key is empty. */
    method PlanOf(schema: string, indices: seq<int>) returns (plan: GroupPlan)
      requires Valid()
      modifies cache, cache.entries
      ensures Valid() && PlanFor(plan, ChoicesOf(exprs, indices, shadowed))
      ensures cache.Contents() ==
              if schema == "" then old(cache.Contents())
                  else Put(old(cache.Contents()), cache.capacity, KeyOf(schema, indices), plan)
    {
      hide KeyOf, PlanFor, ChoicesOf, Find, Indexed;
      if schema == "" {
        plan := BuildPlan(exprs, indices, shadowed);
        return;
      }
      var key := AppendPlanCacheKey("", schema, indices);
      HitIsCurrent(cache.Contents(), exprs, shadowed, schema, indices);
      assert "" + KeyOf(schema, indices) == KeyOf(schema, indices);
      var cached := cache.Get(key);
      if cached.Some? {
        return cached.value;
      }
      plan := BuildPlan(exprs, indices, shadowed);
      PutCurrent(cache.Contents(), cache.capacity, plan, exprs, shadowed, schema, indices);
      var evicted := cache.Set(key, plan);
    }

    /** The fast path each expression of a batch takes, which does not depend on what is cached. */
    method EvalMany(schema: string, indices: seq<int>) returns (routes: seq<Choice>)
      requires Valid()
      modifies cache, cache.entries
      ensures Valid() && |routes| == |indices|
      ensures forall i :: 0 <= i < |indices| ==> routes[i] == Route(ChoicesOf(exprs, indices, shadowed), i)
    {
      routes := [];
      if indices == [] {
        return;
      }
      var plan := PlanOf(schema, indices);
      routes := Routed(plan, exprs, indices, shadowed);
    }
  }
}
