/** Walking a path through arrays directly inside arrays: where the walk over the raw document and the evaluator
    part. A step that comes to one array hands it on as several contexts in the walk, and as one in the evaluator. */
module NestedArrays {
  import opened Wrappers
  import opened JsonSyntax
  import opened JsonParse
  import opened JsonTree
  import opened Trees
  import opened PathWalk
  import J = JsonWalk
  import E = PathEval

  /** How many arrays and other values t is made of. */
  function Weight(t: Tree): nat {
    if t.ArrTree? then 1 + WeightAll(t.items) else 1
  }

  function WeightAll(ts: seq<Tree>): nat {
    if ts == [] then 0 else Weight(ts[0]) + WeightAll(ts[1..])
  }

  lemma {:induction false} WeightJoin(a: seq<Tree>, b: seq<Tree>)
    ensures WeightAll(a + b) == WeightAll(a) + WeightAll(b)
  {
    if a == [] {
      assert a + b == b;
    } else {
      assert (a + b)[1..] == a[1..] + b;
      WeightJoin(a[1..], b);
    }
  }

  function WeightOf(vs: seq<Json>): nat {
    WeightAll(J.Meanings(vs))
  }

  lemma WeightOfJoin(a: seq<Json>, b: seq<Json>)
    ensures WeightOf(a + b) == WeightOf(a) + WeightOf(b)
  {
    J.MeaningsJoin(a, b);
    WeightJoin(J.Meanings(a), J.Meanings(b));
  }

  lemma WeightOfOne(v: Json)
    ensures J.Meanings([v]) == [Meaning(v)] && WeightOf([v]) == Weight(Meaning(v))
    ensures v.Arr? ==> Weight(Meaning(v)) == 1 + WeightOf(J.ItemValues(v.items))
  {
    MeaningAt([v], 0);
    assert J.Meanings([v]) == [Meaning(v)] && [Meaning(v)][1..] == [];
    assert WeightAll([Meaning(v)]) == Weight(Meaning(v)) + WeightAll([]);
    if v.Arr? {
      ArrayMeaning(v);
    }
  }

  /** What a lookup comes to weighs what it found, and one more for several values. */
  lemma CollapsedWeight(vs: seq<Json>)
    requires vs != []
    ensures var v := ToVal(J.Collapse(vs));
            v.Def? && Weight(v.t) == if |vs| == 1 then WeightOf(vs) else 1 + WeightOf(vs)
  {
    if |vs| == 1 {
      assert vs == [vs[0]];
      WeightOfOne(vs[0]);
    }
  }

  lemma {:induction false} ItemCount(items: seq<Item>)
    ensures |J.ItemValues(items)| == |items|
  {
    if items != [] {
      ItemCount(items[1..]);
    }
  }

  /** An array is what its items collapse to exactly when there are several. */
  lemma Unwrapped(f: Json)
    requires f.Arr?
    ensures ToVal(J.One(f)) == ToVal(J.Collapse(J.ItemValues(f.items))) <==> |f.items| > 1
  {
    var items := J.ItemValues(f.items);
    ItemCount(f.items);
    ArrayMeaning(f);
    WeightOfOne(f);
    if items != [] {
      CollapsedWeight(items);
    }
  }

  /** v is an array in which the lookup finds one value, itself an array: the walker takes its items. */
  predicate LiftsArray(step: Text, v: Json) {
    v.Arr? && |J.Found(step, v)| == 1 && J.Found(step, v)[0].Arr?
  }

  predicate Lifts(step: Text, items: seq<Item>) {
    items != [] && (LiftsArray(step, items[0].value) || Lifts(step, items[1..]))
  }

  lemma ItemAdds(step: Text, v: Json)
    ensures J.Added(ItemStep(step, v)) ==
            if LiftsArray(step, v) then J.ItemValues(J.Found(step, v)[0].items) else J.Found(step, v)
    ensures ItemStep(step, v).Missing? ==> J.Found(step, v) == []
    ensures ItemStep(step, v).One? && ItemStep(step, v).v.Arr? ==>
              if LiftsArray(step, v) then J.Found(step, v) == [ItemStep(step, v).v]
              else J.Found(step, v) == J.ItemValues(ItemStep(step, v).v.items)
  {
  }

  lemma ItemWeighs(step: Text, v: Json)
    ensures WeightOf(J.Added(ItemStep(step, v))) + (if LiftsArray(step, v) then 1 else 0) == WeightOf(J.Found(step, v))
  {
    ItemAdds(step, v);
    if LiftsArray(step, v) {
      var f := J.Found(step, v)[0];
      assert J.Found(step, v) == [f];
      WeightOfOne(f);
    }
  }

  /** What the items add to a step's result, and what a lookup finds in them all: the same, unless the walker
      takes apart an array the lookup finds. */
  lemma {:induction false} AddsFound(step: Text, items: seq<Item>)
    ensures var added, found := AllAdd(step, J.ItemValues(items)), J.FoundItems(step, items);
            && (!Lifts(step, items) ==> added == found)
            && (if Lifts(step, items) then found != [] && WeightOf(added) < WeightOf(found) else added == found)
            && (Lifts(step, items) && |found| == 1 ==> found[0].Arr? && added == J.ItemValues(found[0].items))
  {
    if items != [] {
      var v, rest := items[0].value, items[1..];
      AddsFound(step, rest);
      ItemAdds(step, v);
      ItemWeighs(step, v);
      var found := J.Found(step, v);
      assert J.ItemValues(items) == [v] + J.ItemValues(rest);
      WeightOfJoin(J.Added(ItemStep(step, v)), AllAdd(step, J.ItemValues(rest)));
      WeightOfJoin(found, J.FoundItems(step, rest));
      if Lifts(step, items) && |J.FoundItems(step, items)| == 1 {
        OneOfTwo(found, J.FoundItems(step, rest));
      }
    }
  }

  lemma OneOfTwo(a: seq<Json>, b: seq<Json>)
    requires |a + b| == 1
    ensures (a == [] && b == a + b) || (b == [] && a == a + b)
  {
  }

  /** What a lookup finds where just one item has the field, with an array. */
  lemma {:induction false} LoneFound(step: Text, items: seq<Item>)
    ensures var defined := Defined(step, J.ItemValues(items));
            && (defined == [] ==> J.FoundItems(step, items) == [])
            && (PassesLone(defined) ==>
                  if Lifts(step, items) then J.FoundItems(step, items) == [defined[0].v]
                  else J.FoundItems(step, items) == J.ItemValues(defined[0].v.items))
  {
    if items != [] {
      var v, rest := items[0].value, items[1..];
      LoneFound(step, rest);
      AddsFound(step, rest);
      ItemAdds(step, v);
      assert J.ItemValues(items) == [v] + J.ItemValues(rest);
    }
  }

  lemma OneContext(field: Text, item: Tree)
    ensures var o := E.ItemField(field, item);
            && E.ItemFields(field, [item]) == [o] && E.Flat([o]) == E.Flattened(o)
            && E.Defined([o]) == if E.IsUndef(o) then [] else [o]
  {
    var o := E.ItemField(field, item);
    assert [item][1..] == [] && E.ItemFields(field, []) == [] && [o] + [] == [o];
    assert [o][1..] == [] && E.Flat([]) == [] && E.Flattened(o) + [] == E.Flattened(o) && E.Defined([]) == [];
  }

  /** What the evaluator's step gives over a lone array in which a lookup finds these values. */
  function LoneValue(found: seq<Json>, last: bool): J.Outcome {
    if |found| == 1 && found[0].Arr? && !last then J.Collapse(J.ItemValues(found[0].items)) else J.Collapse(found)
  }

  predicate StaysLone(found: seq<Json>, last: bool) {
    !last && |found| == 1 && found[0].Arr? && |found[0].items| == 1 && found[0].items[0].value.Arr?
  }

  lemma LoneStepIs(step: Text, v: Json, last: bool)
    requires v.Arr? && J.DistinctKeys(v)
    ensures var found := J.Found(step, v);
            E.NameStep(step, E.Def(ArrTree([Meaning(v)]), false), last) ==
            EvalOf(LoneValue(found, last), StaysLone(found, last))
  {
    var found, o := J.Found(step, v), E.ItemField(step, Meaning(v));
    ItemAgrees(step, v);
    OneContext(step, Meaning(v));
    if |found| == 1 && found[0].Arr? {
      NotArray(found[0]);
      J.FlatMeaning(found[0]);
      var items := J.ItemValues(found[0].items);
      CollapseMeaning(items);
      ItemCount(found[0].items);
      if |items| == 1 {
        MeaningAt(items, 0);
        NotArray(items[0]);
      }
    } else if found != [] {
      MeaningAt(found, 0);
      NotArray(found[0]);
    }
  }

  /** The step after a lone array v gives the walker and the evaluator one value. The lookup finds values in v as
      one context; over v's items the walker finds the same but for arrays it takes apart, and passes on the array
      of the only item that has the field, if that is the last step. */
  predicate AfterLone(step: Text, v: Json, last: bool)
    requires v.Arr?
  {
    var found, lifts := J.Found(step, v), Lifts(step, v.items);
    if last && PassesLone(Defined(step, J.ItemValues(v.items))) then lifts || |found| > 1
    else if |found| == 1 && found[0].Arr? then lifts != last || |found[0].items| > 1
    else !lifts
  }

  lemma EvalOfCollapses(o: J.Outcome, lone: bool)
    ensures E.Collapse(EvalOf(o, lone)) == E.Value(ToVal(o))
  {
  }

  lemma LoneValueAgrees(step: Text, v: Json, last: bool)
    requires v.Arr?
    ensures ToVal(LoneValue(J.Found(step, v), last)) == ToVal(Step(step, J.One(v), false, last)) <==>
            AfterLone(step, v, last)
  {
    var found, added := J.Found(step, v), AllAdd(step, J.ItemValues(v.items));
    var defined := Defined(step, J.ItemValues(v.items));
    AddsFound(step, v.items);
    LoneFound(step, v.items);
    if last && PassesLone(defined) {
      Unwrapped(defined[0].v);
      ItemCount(defined[0].v.items);
    } else if |found| == 1 && found[0].Arr? {
      assert found == [found[0]];
      Unwrapped(found[0]);
    } else if Lifts(step, v.items) {
      CollapsedWeight(found);
      if added != [] {
        CollapsedWeight(added);
      }
    }
  }

  lemma LoneStays(step: Text, v: Json)
    requires v.Arr? && StaysLone(J.Found(step, v), false) && AfterLone(step, v, false)
    ensures Step(step, J.One(v), false, false) == LoneValue(J.Found(step, v), false)
    ensures Step(step, J.One(v), false, false) == J.One(J.Found(step, v)[0].items[0].value)
  {
    AddsFound(step, v.items);
    var items := J.Found(step, v)[0].items;
    ItemCount(items);
    assert J.ItemValues(items)[0] == items[0].value;
  }

  /** Exactly when the step after a lone array agrees. */
  lemma LoneStepAgrees(step: Text, v: Json, last: bool)
    requires v.Arr? && J.DistinctKeys(v)
    ensures (E.Collapse(E.NameStep(step, E.Def(ArrTree([Meaning(v)]), false), last)) ==
             E.Value(ToVal(Step(step, J.One(v), false, last)))) <==> AfterLone(step, v, last)
    ensures AfterLone(step, v, last) ==>
              E.NameStep(step, E.Def(ArrTree([Meaning(v)]), false), last) ==
              EvalOf(Step(step, J.One(v), false, last), StaysLone(J.Found(step, v), last))
  {
    LoneStepIs(step, v, last);
    LoneValueAgrees(step, v, last);
    if StaysLone(J.Found(step, v), last) && AfterLone(step, v, last) {
      LoneStays(step, v);
    }
    EvalOfCollapses(LoneValue(J.Found(step, v), last), StaysLone(J.Found(step, v), last));
  }

  /** The evaluator holds the walker's array as one context. */
  predicate IsLone(cur: J.Outcome, lone: bool) {
    lone && cur.One? && cur.v.Arr?
  }

  predicate NextLone(step: Text, cur: J.Outcome, lone: bool, last: bool) {
    if IsLone(cur, lone) then StaysLone(J.Found(step, cur.v), last) else LeavesLone(step, Contexts(cur), last)
  }

  /** From the i-th step on, each before the n-th that follows a lone array gives both the same. */
  ghost predicate Together(steps: seq<Text>, i: nat, n: nat, cur: J.Outcome, lone: bool)
    requires i <= |steps|
    decreases |steps| - i
  {
    i >= n || i == |steps| || cur.Missing? ||
    (var last := i == |steps| - 1;
     && (IsLone(cur, lone) ==> AfterLone(steps[i], cur.v, last))
     && Together(steps, i + 1, n, Step(steps[i], cur, false, last), NextLone(steps[i], cur, lone, last)))
  }

  /** One step from the same place, in both. */
  lemma TogetherStep(step: Text, cur: J.Outcome, lone: bool, v: E.Val, last: bool)
    requires DistinctOutcome(cur) && !cur.Missing? && v == E.StepContext(EvalOf(cur, lone))
    requires lone ==> IsLone(cur, lone)
    ensures var next := Step(step, cur, false, last);
            && (E.Collapse(E.NameStep(step, v, last)) == E.Value(ToVal(next)) <==>
                  (IsLone(cur, lone) ==> AfterLone(step, cur.v, last)))
            && ((IsLone(cur, lone) ==> AfterLone(step, cur.v, last)) ==>
                  && E.NameStep(step, v, last) == EvalOf(next, NextLone(step, cur, lone, last))
                  && (NextLone(step, cur, lone, last) ==> IsLone(next, true)))
  {
    if lone {
      NotArray(cur.v);
      LoneStepAgrees(step, cur.v, last);
      if StaysLone(J.Found(step, cur.v), last) && AfterLone(step, cur.v, last) {
        LoneStays(step, cur.v);
      }
    } else {
      NameStepAgrees(step, cur, v, last);
      EvalOfCollapses(Step(step, cur, false, last), NextLone(step, cur, lone, last));
    }
  }

  /** The steps from the i-th on give both one value, if those before the last do, exactly when the last does. */
  lemma {:induction false} StepsAgree(ops: E.Ops, steps: seq<Text>, i: nat, top: bool, cur: J.Outcome, lone: bool,
                                      env: E.Env, mapper: bool)
    requires 0 < i <= |steps| && DistinctOutcome(cur) && (lone ==> IsLone(cur, lone))
    requires Together(steps, i, |steps| - 1, cur, lone)
    ensures (E.Collapse(E.EvalSteps(ops, E.Path(Names(steps)), i, top, EvalOf(cur, lone), false, mapper, env)) ==
             E.Value(ToVal(Steps(steps, i, cur, true)))) <==> Together(steps, i, |steps|, cur, lone)
    decreases |steps| - i
  {
    hide Step, NextLone, AfterLone, DistinctOutcome, E.NameStep, E.RunStep;
    if i == |steps| || cur.Missing? {
      EvalOfCollapses(cur, lone);
    } else {
      NameAt(steps, i);
      var last := i == |steps| - 1;
      var o := EvalOf(cur, lone);
      var v := E.StepContext(o);
      TogetherStep(steps[i], cur, lone, v, last);
      StepDistinct(steps[i], cur, false, last);
      RunName(ops, steps[i], i, top, v, mapper, last, env);
      var next, more := Step(steps[i], cur, false, last), NextLone(steps[i], cur, lone, last);
      if !last {
        StepsAgree(ops, steps, i + 1, top, next, more, env, E.IsMapper(EvalOf(next, more)));
      }
    }
  }

  /** Every step but the first, over the document's root, that follows a lone array agrees; n: of those before it. */
  ghost predicate WalkedTogether(steps: seq<Text>, root: Json, n: nat)
    requires steps != []
  {
    Together(steps, 1, n, Step(steps[0], J.One(root), true, |steps| == 1), false)
  }

  /** Where the steps before the last agree, the walk over the raw document gives the evaluator's value of the path
      over the decoded one, or both nothing, if and only if the last step agrees. */
  lemma WalkAgreesExactly(ops: E.Ops, steps: seq<Text>, root: Json)
    requires steps != [] && J.DistinctKeys(root) && WalkedTogether(steps, root, |steps| - 1)
    ensures var t := Meaning(root);
            (E.Eval(ops, E.Path(Names(steps)), true, E.Def(t, true), E.Env(t, true, map[])) ==
             E.Value(ToVal(Steps(steps, 0, J.One(root), true)))) <==> WalkedTogether(steps, root, |steps|)
  {
    var t, path := Meaning(root), E.Path(Names(steps));
    var env := E.Env(t, true, map[]);
    var v := E.Def(t, true);
    NameAt(steps, 0);
    var last := |steps| == 1;
    RootStepAgrees(ops, steps[0], root, last);
    var next := Step(steps[0], J.One(root), true, last);
    var env' := if E.StartsRoot(true, 0, v, env) then env.(wrapped := false) else env;
    StepsAgree(ops, steps, 1, true, next, false, env', E.IsMapper(E.Value(ToVal(next))));
    assert E.EvalSteps(ops, path, 0, true, E.Value(v), false, false, env) ==
           E.EvalSteps(ops, path, 1, true, E.Value(ToVal(next)), false, E.IsMapper(E.Value(ToVal(next))), env');
  }

  /** From the i-th step on the evaluator's outcome, after each step, has the walker's value. */
  ghost predicate InStep(ops: E.Ops, steps: seq<Text>, i: nat, o: E.Outcome, cur: J.Outcome, mapper: bool, env: E.Env)
    requires i <= |steps|
    decreases |steps| - i
  {
    && E.Collapse(o) == E.Value(ToVal(cur))
    && (i == |steps| || cur.Missing? ||
        var last := i == |steps| - 1;
        var s := E.RunStep(ops, E.Name(steps[i]), i, true, E.StepContext(o), mapper, last, env);
        InStep(ops, steps, i + 1, s.out, Step(steps[i], cur, false, last), E.IsMapper(s.out), env))
  }

  lemma {:induction false} StepsInStep(ops: E.Ops, steps: seq<Text>, i: nat, cur: J.Outcome, lone: bool, mapper: bool,
                                       env: E.Env)
    requires 0 < i <= |steps| && DistinctOutcome(cur) && (lone ==> IsLone(cur, lone))
    ensures InStep(ops, steps, i, EvalOf(cur, lone), cur, mapper, env) <==> Together(steps, i, |steps|, cur, lone)
    decreases |steps| - i
  {
    hide Step, NextLone, AfterLone, DistinctOutcome, E.NameStep, E.RunStep;
    EvalOfCollapses(cur, lone);
    if i < |steps| && !cur.Missing? {
      var last, v := i == |steps| - 1, E.StepContext(EvalOf(cur, lone));
      TogetherStep(steps[i], cur, lone, v, last);
      StepDistinct(steps[i], cur, false, last);
      RunName(ops, steps[i], i, true, v, mapper, last, env);
      var next, more := Step(steps[i], cur, false, last), NextLone(steps[i], cur, lone, last);
      if IsLone(cur, lone) ==> AfterLone(steps[i], cur.v, last) {
        StepsInStep(ops, steps, i + 1, next, more, E.IsMapper(EvalOf(next, more)), env);
      }
    }
  }

  /** The two have one value after every step. */
  ghost predicate InSync(ops: E.Ops, steps: seq<Text>, root: Json)
    requires steps != []
  {
    var t := Meaning(root);
    var env, v := E.Env(t, true, map[]), E.Def(t, true);
    var s := E.RunStep(ops, E.Name(steps[0]), 0, true, v, false, |steps| == 1, env);
    InStep(ops, steps, 1, s.out, Step(steps[0], J.One(root), true, |steps| == 1), E.IsMapper(s.out),
           if E.StartsRoot(true, 0, v, env) then env.(wrapped := false) else env)
  }

  /** On every document the two stay in sync, step by step, if and only if each step after a lone array agrees. */
  lemma InSyncExactly(ops: E.Ops, steps: seq<Text>, root: Json)
    requires steps != [] && J.DistinctKeys(root)
    ensures InSync(ops, steps, root) <==> WalkedTogether(steps, root, |steps|)
  {
    var t := Meaning(root);
    var env, v := E.Env(t, true, map[]), E.Def(t, true);
    RootStepAgrees(ops, steps[0], root, |steps| == 1);
    var next := Step(steps[0], J.One(root), true, |steps| == 1);
    StepsInStep(ops, steps, 1, next, false, E.IsMapper(E.Value(ToVal(next))),
                if E.StartsRoot(true, 0, v, env) then env.(wrapped := false) else env);
  }

  /** No step from the i-th on but the last comes to one array. */
  ghost predicate Clear(steps: seq<Text>, i: nat, cur: J.Outcome)
    requires i <= |steps|
    decreases |steps| - i
  {
    i + 1 >= |steps| || cur.Missing? ||
    (!LeavesLone(steps[i], Contexts(cur), false) && Clear(steps, i + 1, Step(steps[i], cur, false, false)))
  }

  lemma {:induction false} ClearTogether(steps: seq<Text>, i: nat, n: nat, cur: J.Outcome)
    requires i <= |steps| && Clear(steps, i, cur)
    ensures Together(steps, i, n, cur, false)
    decreases |steps| - i
  {
    if i + 1 < |steps| && !cur.Missing? {
      ClearTogether(steps, i + 1, n, Step(steps[i], cur, false, false));
    }
  }

  /** Where no step but the last comes to one array, the walk gives the evaluator's value. */
  lemma WalkAgrees(ops: E.Ops, steps: seq<Text>, root: Json)
    requires steps != [] && J.DistinctKeys(root)
    requires |steps| > 1 ==> Clear(steps, 1, Step(steps[0], J.One(root), true, false))
    ensures var t := Meaning(root);
            E.Eval(ops, E.Path(Names(steps)), true, E.Def(t, true), E.Env(t, true, map[])) ==
            E.Value(ToVal(Steps(steps, 0, J.One(root), true)))
  {
    if |steps| > 1 {
      ClearTogether(steps, 1, |steps| - 1, Step(steps[0], J.One(root), true, false));
      ClearTogether(steps, 1, |steps|, Step(steps[0], J.One(root), true, false));
    }
    WalkAgreesExactly(ops, steps, root);
  }

  /** Distinct keys, and no array directly inside an array. */
  ghost predicate Unnested(v: Json) {
    match v
    case Arr(_, items) => PlainItems(items)
    case Obj(_, members) => J.DistinctMembers(members) && PlainMembers(members)
    case _ => true
  }

  ghost predicate PlainItems(items: seq<Item>) {
    items != [] ==> !items[0].value.Arr? && Unnested(items[0].value) && PlainItems(items[1..])
  }

  ghost predicate PlainMembers(members: seq<Member>) {
    members != [] ==> Unnested(members[0].value) && PlainMembers(members[1..])
  }

  /** Values a step maps over: none is an array. */
  ghost predicate PlainAll(vs: seq<Json>) {
    forall i :: 0 <= i < |vs| ==> Unnested(vs[i]) && !vs[i].Arr?
  }

  /** What the walker can be at. */
  ghost predicate PlainOutcome(o: J.Outcome) {
    match o
    case Missing => true
    case One(v) => Unnested(v)
    case Many(vs) => PlainAll(vs)
  }

  lemma {:induction false} PlainContexts(items: seq<Item>)
    requires PlainItems(items)
    ensures PlainAll(J.ItemValues(items))
  {
    if items != [] {
      PlainContexts(items[1..]);
    }
  }

  lemma {:induction false} PlainField(step: Text, members: seq<Member>)
    requires PlainMembers(members) && J.FieldOf(step, members).Some?
    ensures Unnested(J.FieldOf(step, members).value)
  {
    if PartsValue(members[0].key.parts) != step {
      PlainField(step, members[1..]);
    }
  }

  lemma PlainValue(step: Text, v: Json)
    requires Unnested(v)
    ensures PlainOutcome(J.FieldValue(step, v)) && PlainAll(J.Added(J.FieldValue(step, v)))
  {
    if v.Obj? && J.FieldOf(step, v.members).Some? {
      PlainField(step, v.members);
      var value := J.FieldOf(step, v.members).value;
      if value.Arr? {
        PlainContexts(value.items);
      }
    }
  }

  lemma {:induction false} PlainAdded(step: Text, arr: seq<Json>)
    requires PlainAll(arr)
    ensures PlainAll(AllAdd(step, arr))
    ensures forall i :: 0 <= i < |Defined(step, arr)| ==>
              && PlainOutcome(Defined(step, arr)[i])
              && Defined(step, arr)[i].One?
  {
    if arr != [] {
      PlainValue(step, arr[0]);
      PlainAdded(step, arr[1..]);
    }
  }

  lemma {:induction false} PlainFoundItems(step: Text, items: seq<Item>)
    requires PlainItems(items)
    ensures PlainAll(J.FoundItems(step, items))
  {
    if items != [] {
      PlainValue(step, items[0].value);
      PlainFoundItems(step, items[1..]);
    }
  }


  lemma {:induction false} PlainDistinct(v: Json)
    requires Unnested(v)
    ensures J.DistinctKeys(v)
    decreases v
  {
    match v
    case Arr(_, items) => PlainDistinctItems(items);
    case Obj(_, members) =>
    case _ =>
  }

  lemma {:induction false} PlainDistinctItems(items: seq<Item>)
    requires PlainItems(items)
    ensures J.DistinctItems(items)
    decreases items
  {
    if items != [] {
      PlainDistinct(items[0].value);
      PlainDistinctItems(items[1..]);
    }
  }

  lemma PlainStep(step: Text, cur: J.Outcome)
    requires PlainOutcome(cur)
    ensures !LeavesLone(step, Contexts(cur), false) && PlainOutcome(Step(step, cur, false, false))
  {
    if cur.One? && cur.v.Arr? {
      PlainContexts(cur.v.items);
    }
    PlainAdded(step, Contexts(cur));
    if cur.One? {
      PlainValue(step, cur.v);
    }
  }

  lemma {:induction false} PlainClear(steps: seq<Text>, i: nat, cur: J.Outcome)
    requires i <= |steps| && PlainOutcome(cur)
    ensures Clear(steps, i, cur)
    decreases |steps| - i
  {
    if i + 1 < |steps| && !cur.Missing? {
      hide LeavesLone, PlainOutcome, Step, Contexts;
      PlainStep(steps[i], cur);
      PlainClear(steps, i + 1, Step(steps[i], cur, false, false));
    }
  }

  /** Without an array directly inside an array the walk always gives the evaluator's value. */
  lemma UnnestedAgrees(ops: E.Ops, steps: seq<Text>, root: Json)
    requires steps != [] && Unnested(root)
    ensures var t := Meaning(root);
            E.Eval(ops, E.Path(Names(steps)), true, E.Def(t, true), E.Env(t, true, map[])) ==
            E.Value(ToVal(Steps(steps, 0, J.One(root), true)))
  {
    PlainDistinct(root);
    if root.Arr? {
      PlainFoundItems(steps[0], root.items);
    } else {
      PlainValue(steps[0], root);
    }
    if |steps| > 1 {
      PlainClear(steps, 1, Step(steps[0], J.One(root), true, false));
    }
    WalkAgrees(ops, steps, root);
  }

  /** The object holding one member. */
  function Single(key: Text, v: Json): Json {
    Obj("", [Member("", Key([Plain(key)], "", ""), v, "")])
  }

  function ListOf(v: Json): Json {
    Arr("", [Item("", v, "")])
  }

  lemma SingleMeaning(key: Text, v: Json)
    ensures Meaning(Single(key, v)) == ObjTree([Field(key, Meaning(v))])
    ensures J.FieldValue(key, Single(key, v)) == J.One(v)
  {
    var members, fields := Single(key, v).members, [Field(key, Meaning(v))];
    assert members[1..] == [] && [Plain(key)][1..] == [] && PartsValue([]) == "";
    assert PartsValue([Plain(key)]) == key + "" == key;
    assert MembersMeaning([]) == [] && MembersMeaning(members) == fields + [] == fields;
    assert fields[1..] == [] && SetField([], key, Meaning(v)) == fields;
    assert Gather(fields, []) == Gather([], fields) == fields;
    assert members[0].key.parts == [Plain(key)] && J.FieldOf(key, members) == Some(v);
    assert Meaning(Obj("", members)) == ObjTree(Gather(MembersMeaning(members), []));
  }

  lemma ListMeaning(v: Json)
    ensures Meaning(ListOf(v)) == ArrTree([Meaning(v)]) && J.ItemValues(ListOf(v).items) == [v]
  {
    var items := ListOf(v).items;
    assert items[1..] == [] && ItemsMeaning([]) == [] && J.ItemValues([]) == [];
    assert ItemsMeaning(items) == [Meaning(v)] + [] && J.ItemValues(items) == [v] + [];
  }

  /** A walker's step over one object in an array: its field's value, or that value's items collapsed. */
  lemma WalkOverOne(step: Text, v: Json, last: bool)
    ensures Step(step, J.One(ListOf(Single(step, v))), false, last) ==
            if last && v.Arr? then J.One(v) else J.Collapse(J.Flat(v))
  {
    var one := Single(step, v);
    SingleMeaning(step, v);
    ListMeaning(one);
    assert [one][1..] == [] && J.Flat(v) + [] == J.Flat(v);
    assert AllAdd(step, [one]) == J.Flat(v);
    assert Defined(step, []) == [] && [J.One(v)] + [] == [J.One(v)];
  }

  /** The evaluator's. */
  lemma StepOverOne(field: Text, t: Tree)
    requires t.ArrTree? && |t.items| == 1 && t.items[0].ArrTree?
    ensures E.NameStep(field, E.Def(ArrTree([ObjTree([Field(field, t)])]), false), false) == E.Many(t.items)
  {
    var one := ObjTree([Field(field, t)]);
    assert E.ItemField(field, one) == E.Value(E.Def(t, false));
    OneContext(field, one);
  }

  /** Over an array of one array of one object, whose field is an array of one scalar. */
  lemma LastOverNested(field: Text, leaf: Tree)
    requires !leaf.ArrTree?
    ensures var t := ArrTree([ArrTree([ObjTree([Field(field, ArrTree([leaf]))])])]);
            E.NameStep(field, E.Def(t, false), true) == E.Value(E.Def(leaf, false))
  {
    var inner := [ObjTree([Field(field, ArrTree([leaf]))])];
    assert inner[1..] == [] && LookupItems(field, inner) == [leaf] + [] == [leaf];
    var item := ArrTree(inner);
    assert E.ItemField(field, item) == E.Value(E.Def(leaf, false));
    OneContext(field, item);
  }

  /** {"a": [{"b": [[{"c": [null]}]]}]}. */
  function NestedDocument(): Json {
    Single("a", ListOf(Single("b", ListOf(ListOf(Single("c", ListOf(Nil)))))))
  }

  /** With an array directly inside an array the two differ: a.b.c is [null] walked, and null evaluated. */
  lemma NestedArraysDiffer(ops: E.Ops)
    ensures Steps(["a", "b", "c"], 0, J.One(NestedDocument()), true) == J.One(ListOf(Nil))
    ensures var t := Meaning(NestedDocument());
            E.Eval(ops, E.Path([E.Name("a"), E.Name("b"), E.Name("c")]), true, E.Def(t, true), E.Env(t, true, map[])) ==
            E.Value(E.Def(NullTree, false))
  {
    WalkNested();
    EvalNested(ops);
  }

  lemma WalkNested()
    ensures Steps(["a", "b", "c"], 0, J.One(NestedDocument()), true) == J.One(ListOf(Nil))
  {
    var steps := ["a", "b", "c"];
    var c := ListOf(Single("c", ListOf(Nil)));
    var b := ListOf(Single("b", ListOf(c)));
    SingleMeaning("a", b);
    WalkOverOne("b", ListOf(c), false);
    ListMeaning(c);
    WalkOverOne("c", ListOf(Nil), true);
    assert Step("a", J.One(NestedDocument()), true, false) == J.One(b);
    assert Step("b", J.One(b), false, false) == J.One(c);
    assert Steps(steps, 3, J.One(ListOf(Nil)), true) == J.One(ListOf(Nil));
    assert Steps(steps, 2, J.One(c), true) == J.One(ListOf(Nil));
  }

  lemma EvalNested(ops: E.Ops)
    ensures var t := Meaning(NestedDocument());
            E.Eval(ops, E.Path([E.Name("a"), E.Name("b"), E.Name("c")]), true, E.Def(t, true), E.Env(t, true, map[])) ==
            E.Value(E.Def(NullTree, false))
  {
    hide E.RunStep, E.Eval, E.EvalSteps;
    var c := ListOf(Single("c", ListOf(Nil)));
    var b := ListOf(Single("b", ListOf(c)));
    ListMeaning(Nil);
    SingleMeaning("c", ListOf(Nil));
    ListMeaning(Single("c", ListOf(Nil)));
    ListMeaning(c);
    SingleMeaning("b", ListOf(c));
    ListMeaning(Single("b", ListOf(c)));
    SingleMeaning("a", b);
    var t := Meaning(NestedDocument());
    var env := E.Env(t, true, map[]);
    RunName(ops, "a", 0, true, E.Def(t, true), false, false, env);
    RunName(ops, "b", 1, true, E.Def(Meaning(b), false), true, false, env);
    StepOverOne("b", Meaning(ListOf(c)));
    var nested := E.Def(ArrTree([Meaning(c)]), false);
    RunName(ops, "c", 2, true, nested, true, true, env);
    LastOverNested("c", NullTree);
    EvalChain(ops, t, E.Value(E.Def(Meaning(b), false)), E.Many([Meaning(c)]), E.Value(E.Def(NullTree, false)));
  }

  /** Three steps of a path, each given. */
  lemma EvalChain(ops: E.Ops, t: Tree, first: E.Outcome, second: E.Outcome, third: E.Outcome)
    requires t.ObjTree? && first.Value? && first.v.Def? && E.IsArray(first.v) && second.Many? && |second.vs| == 1
             && second.vs[0].ArrTree? && third.Value?
    requires var env := E.Env(t, true, map[]);
             && E.RunStep(ops, E.Name("a"), 0, true, E.Def(t, true), false, false, env) == E.Stage(first, false)
             && E.RunStep(ops, E.Name("b"), 1, true, first.v, true, false, env) == E.Stage(second, false)
             && E.RunStep(ops, E.Name("c"), 2, true, E.Def(ArrTree(second.vs), false), true, true, env) ==
                 E.Stage(third, false)
    ensures E.Eval(ops, E.Path([E.Name("a"), E.Name("b"), E.Name("c")]), true, E.Def(t, true), E.Env(t, true, map[])) ==
              third
  {
    var env, path := E.Env(t, true, map[]), E.Path([E.Name("a"), E.Name("b"), E.Name("c")]);
    assert E.EvalSteps(ops, path, 3, true, third, false, E.IsMapper(third), env) == third;
    assert E.EvalSteps(ops, path, 2, true, second, false, true, env) == third;
    assert E.EvalSteps(ops, path, 1, true, first, false, true, env) == third;
    assert E.EvalSteps(ops, path, 0, true, E.Value(E.Def(t, true)), false, false, env) == third;
  }
}
