/** A computed filter whose result is never used: exactly when it fails on the input or on what is left
    of it, and so exactly when it shows. */
module DroppedFilters {
  import opened Wrappers
  import opened Trees
  import opened PathEval
  import opened PathPruning
  import opened PathReads
  import opened PathSoundness
  import opened PathCollector
  import opened ReadsLess
  import opened ReferencedPaths

  /** 1 + "s". */
  function AddString(): Expr {
    Binary(Strict("+"), Literal(NumTree("1")), Literal(StrTree("s")))
  }

  ghost predicate AddFails(ops: Ops, code: string) {
    ops.binary("+", Def(NumTree("1"), false), Def(StrTree("s"), false)) == Err(code)
  }

  lemma AddStringFails(ops: Ops, top: bool, v: Val, env: Env, code: string)
    requires AddFails(ops, code)
    ensures Eval(ops, AddString(), top, v, env) == Fail(code)
  {
    assert Eval(ops, Literal(NumTree("1")), top, v, env) == Value(Def(NumTree("1"), false));
    assert Eval(ops, Literal(StrTree("s")), top, v, env) == Value(Def(StrTree("s"), false));
  }

  /** ($x := base; 5), whose variable is never read. */
  function Unused(base: Expr): Expr {
    Block([Let("x", base), Do(Literal(NumTree("5")))])
  }

  const FIVE: Outcome := Value(Def(NumTree("5"), false))

  lemma RunUnused(ops: Ops, base: Expr, input: Tree)
    ensures Run(ops, Unused(base), input) ==
            var r := Eval(ops, base, true, Def(input, true), Env(input, true, map[]));
            if r.Fail? then r else FIVE
  {
    var env, v := Env(input, true, map[]), Def(input, true);
    var statements := Unused(base).statements;
    var r := Eval(ops, base, true, v, env);
    assert EvalStatement(ops, statements[0], true, v, env) == r;
    if !r.Fail? {
      var next := env.(vars := env.vars["x" := r.v]);
      var rest := statements[1..];
      assert rest == [Do(Literal(NumTree("5")))] && rest[1..] == [];
      assert EvalStatement(ops, rest[0], true, v, next) == FIVE;
      assert EvalBlock(ops, rest, true, v, next, r.v) == FIVE;
      assert EvalBlock(ops, statements, true, v, env, Undef) == EvalBlock(ops, rest, true, v, next, r.v);
    }
    assert Eval(ops, Unused(base), true, v, env) == EvalBlock(ops, statements, true, v, env, Undef);
  }

  lemma UnusedReads(c: Config, base: Expr, r: Report)
    requires Collect(c, base, Some([]), map[]) == r
    ensures var whole := Collect(c, Unused(base), Some([]), map[]).Read();
            whole.complete == r.complete && whole.recorded == r.recorded && whole.filtered == r.filtered
  {
    var statements := Unused(base).statements;
    assert CollectStatement(c, statements[0], Some([]), map[]) == r;
    assert statements[1..] == [Do(Literal(NumTree("5")))];
    var b := Bind(c, "x", r.path, map[]);
    assert CollectStatement(c, statements[1], Some([]), b) == NOTHING;
    assert CollectBlock(c, statements[1..], Some([]), b) == NOTHING;
  }

  lemma AddStringReads(c: Config, p: Option<FieldPath>)
    ensures var r := Collect(c, AddString(), p, map[]).Read(); r.recorded == [] && r.complete && r.path == None
  {
    assert Collect(c, Literal(NumTree("1")), p, map[]) == NOTHING == Collect(c, Literal(StrTree("s")), p, map[]);
  }

  lemma {:induction false} RangeOfLength(ops: Ops, values: seq<Tree>, m: nat, n: nat)
    ensures ResolveIndices(ops, values, m).OutOfRange? == ResolveIndices(ops, values, n).OutOfRange?
    ensures ResolveIndices(ops, values, m).Selected? == ResolveIndices(ops, values, n).Selected?
  {
    if values != [] {
      RangeOfLength(ops, values[1..], m, n);
    }
  }

  /** A predicate outcome that makes its filter fail. */
  predicate FilterFails(ops: Ops, r: Outcome) {
    r.Fail? || (r.Value? && FilterMatches(ops, r.v, 0, 1).Err?)
  }

  lemma ErrorAnywhere(ops: Ops, v: Val, pos: int, length: nat)
    ensures FilterMatches(ops, v, pos, length).Err? == FilterMatches(ops, v, 0, 1).Err?
    ensures FilterMatches(ops, v, pos, length).Err? ==> FilterMatches(ops, v, pos, length) == Err(OUT_OF_RANGE)
  {
    if v.Def? && v.t != ArrTree([]) {
      RangeOfLength(ops, Elements(v.t), length, 1);
    }
  }

  /** How a filter fails on such an outcome. */
  function Failure(r: Outcome): Outcome {
    if r.Fail? then r else Fail(OUT_OF_RANGE)
  }

  /** The predicate has outcome r over every item in this environment; missing: over an undefined one at least. */
  ghost predicate OneOutcome(ops: Ops, test: Expr, env: Env, missing: bool, r: Outcome) {
    && Eval(ops, test, false, Undef, env) == r
    && (!missing ==> forall v: Val :: Eval(ops, test, false, v, env) == r)
  }

  const EMPTY: Val := Def(ArrTree([]), false)

  lemma {:induction false} ItemsOutcome(ops: Ops, test: Expr, r: Outcome, items: seq<Tree>, k: nat, env: Env)
    requires k <= |items| && OneOutcome(ops, test, env, false, r)
    ensures !FilterFails(ops, r) ==> FilterItems(ops, test, items, k, env).Many?
    ensures FilterFails(ops, r) && k < |items| ==> FilterItems(ops, test, items, k, env) == Failure(r)
    decreases |items| - k
  {
    if k < |items| {
      assert Eval(ops, test, false, Def(items[k], false), env) == r;
      ItemsOutcome(ops, test, r, items, k + 1, env);
      if r.Value? {
        ErrorAnywhere(ops, r.v, k, |items|);
      }
    }
  }

  /** Filtering a field of one context fails just when there is something to filter: an undefined
      base counts as one undefined item. */
  lemma StageOutcome(ops: Ops, field: string, test: Expr, top: bool, v: Val, env: Env, missing: bool, r: Outcome)
    requires OneOutcome(ops, test, env, missing, r) && (missing ==> LookupValue(field, v).Undef?)
    ensures var o := SubscriptStage(ops, Filter(Name(field), test), top, v, env).out;
            if FilterFails(ops, r) && LookupValue(field, v) != EMPTY then o == Failure(r) else !o.Fail?
  {
    var e, left := Filter(Name(field), test), LookupValue(field, v);
    var stage := Stage(Value(left), true);
    assert StageLeft(ops, e, top, v, env) == stage;
    assert SubscriptStage(ops, e, top, v, env) == Select(ops, e, stage, env);
    if left.Undef? {
      assert Select(ops, e, stage, env) == KeepsMissing(ops, test, env);
      if r.Value? {
        ErrorAnywhere(ops, r.v, 0, 1);
      }
    } else {
      ItemsOutcome(ops, test, r, Elements(left.t), 0, env);
    }
  }

  /** Some item has a value for the field to filter, or lacks the field. */
  predicate FiltersItem(field: string, items: seq<Tree>) {
    items != [] && (LookupValue(field, Def(items[0], false)) != EMPTY || FiltersItem(field, items[1..]))
  }

  /** Filtering a field of v evaluates its predicate. */
  predicate Filters(field: string, v: Val) {
    if IsArray(v) then FiltersItem(field, v.t.items) else LookupValue(field, v) != EMPTY
  }

  /** No item has the field. */
  predicate NoItemHas(field: string, items: seq<Tree>) {
    items != [] ==> LookupValue(field, Def(items[0], false)).Undef? && NoItemHas(field, items[1..])
  }

  predicate Lacks(field: string, v: Val) {
    if IsArray(v) then NoItemHas(field, v.t.items) else LookupValue(field, v).Undef?
  }

  lemma {:induction false} EachOutcome(ops: Ops, field: string, test: Expr, items: seq<Tree>, env: Env, missing: bool,
                                       r: Outcome)
    requires OneOutcome(ops, test, env, missing, r) && (missing ==> NoItemHas(field, items))
    ensures var each := EachItem(ops, Filter(Name(field), test), items, env);
            if FilterFails(ops, r) && FiltersItem(field, items) then each == Err(Failure(r).code) else each.Ok?
    decreases |items|
  {
    if items != [] {
      StageOutcome(ops, field, test, false, Def(items[0], false), env, missing, r);
      EachOutcome(ops, field, test, items[1..], env, missing, r);
    }
  }

  /** A chain's last step, over what the steps before it yielded. */
  lemma LastOutcome(ops: Ops, field: string, test: Expr, i: nat, o: Outcome, env: Env, missing: bool, r: Outcome)
    requires i > 0 && !o.Fail? && StepContext(o).Def?
    requires OneOutcome(ops, test, env, missing, r) && (missing ==> Lacks(field, StepContext(o)))
    ensures var s := RunStep(ops, Filter(Name(field), test), i, true, StepContext(o), IsMapper(o), true, env).out;
            if FilterFails(ops, r) && Filters(field, StepContext(o)) then s == Failure(r) else !s.Fail?
  {
    var step, v := Filter(Name(field), test), StepContext(o);
    if IsArray(v) {
      EachOutcome(ops, field, test, v.t.items, env, missing, r);
      assert PathStep(ops, step, v, env, true, true) == MapStep(ops, step, v.t.items, true, env);
      assert OrdinaryStep(ops, step, true, v, true, true, env) == Stage(PathStep(ops, step, v, env, true, true), false);
    } else {
      var stage := SubscriptStage(ops, step, false, v, env).out;
      StageOutcome(ops, field, test, false, v, env, missing, r);
      assert Eval(ops, step, false, v, env) == EvalSubscript(ops, step, false, v, env) == Collapse(stage);
      assert PathStep(ops, step, v, env, IsMapper(o), true) == if IsMapper(o) then Collapse(stage) else stage;
      assert OrdinaryStep(ops, step, true, v, IsMapper(o), true, env) ==
             Stage(PathStep(ops, step, v, env, IsMapper(o), true), false);
    }
  }

  function Names(fields: FieldPath): (steps: seq<Expr>)
    ensures |steps| == |fields| && forall i :: 0 <= i < |fields| ==> steps[i] == Name(fields[i])
  {
    if fields == [] then [] else [Name(fields[0])] + Names(fields[1..])
  }

  /** a[test], a.b[test], and so on. */
  function Chain(fields: FieldPath, test: Expr): Expr
    requires fields != []
  {
    var n := |fields| - 1;
    var last := Filter(Name(fields[n]), test);
    if n == 0 then last else Path(Names(fields[..n]) + [last])
  }

  /** From v on, the steps from the i-th reach something that the last one filters. */
  predicate RunsFrom(fields: FieldPath, i: nat, v: Val)
    requires i < |fields|
    decreases |fields| - i
  {
    && v.Def?
    && if i == |fields| - 1 then Filters(fields[i], v)
       else RunsFrom(fields, i + 1, StepContext(NameStep(fields[i], v, false)))
  }

  /** The steps from the i-th reach nothing that has the last field. */
  predicate MissesFrom(fields: FieldPath, i: nat, v: Val)
    requires i < |fields|
    decreases |fields| - i
  {
    v.Def? ==> if i == |fields| - 1 then Lacks(fields[i], v)
               else MissesFrom(fields, i + 1, StepContext(NameStep(fields[i], v, false)))
  }

  /** Evaluating a filtered chain over a document evaluates its predicate: it reaches something to filter,
      an undefined base included, but not past an undefined step. */
  predicate FilterRuns(fields: FieldPath, root: Tree)
    requires fields != []
  {
    var first := LookupValue(fields[0], Def(root, true));
    if |fields| == 1 then first != EMPTY else RunsFrom(fields, 1, first)
  }

  predicate ChainMisses(fields: FieldPath, root: Tree)
    requires fields != []
  {
    var first := LookupValue(fields[0], Def(root, true));
    if |fields| == 1 then first.Undef? else MissesFrom(fields, 1, first)
  }

  lemma NameRun(ops: Ops, field: string, i: nat, v: Val, mapper: bool, env: Env)
    requires i > 0
    ensures RunStep(ops, Name(field), i, true, v, mapper, false, env) == Stage(NameStep(field, v, false), false)
  {
    assert PathStep(ops, Name(field), v, env, mapper, false) == NameStep(field, v, false);
    assert OrdinaryStep(ops, Name(field), true, v, mapper, false, env) == Stage(NameStep(field, v, false), false);
  }

  lemma FirstRun(ops: Ops, field: string, env: Env)
    requires env.wrapped
    ensures var v := Def(env.root, true);
            RunStep(ops, Name(field), 0, true, v, false, false, env) == Stage(Value(LookupValue(field, v)), false)
  {
    var v, step := Def(env.root, true), Name(field);
    if env.root.ArrTree? {
      assert StepOnce(ops, step, v, env.(wrapped := false)) == Value(LookupValue(field, v));
    } else {
      assert PathStep(ops, step, v, env, false, false) == NameStep(field, v, false);
      assert OrdinaryStep(ops, step, false, v, false, false, env) == Stage(NameStep(field, v, false), false);
    }
    assert FirstStep(ops, step, true, v, false, false, env) == Stage(Value(LookupValue(field, v)), false);
  }

  lemma {:induction false} StepsOutcome(ops: Ops, fields: FieldPath, test: Expr, i: nat, o: Outcome, env: Env,
                                        missing: bool, r: Outcome)
    requires 0 < i < |fields| && !o.Fail?
    requires OneOutcome(ops, test, env, missing, r) && (missing ==> MissesFrom(fields, i, StepContext(o)))
    ensures var e := EvalSteps(ops, Chain(fields, test), i, true, o, false, IsMapper(o), env);
            if FilterFails(ops, r) && RunsFrom(fields, i, StepContext(o)) then e == Failure(r) else !e.Fail?
    decreases |fields| - i
  {
    var path, v := Chain(fields, test), StepContext(o);
    if v.Def? {
      if i == |fields| - 1 {
        LastOutcome(ops, fields[i], test, i, o, env, missing, r);
      } else {
        var next := NameStep(fields[i], v, false);
        assert path.steps[i] == Name(fields[i]);
        NameRun(ops, fields[i], i, v, IsMapper(o), env);
        StepsOutcome(ops, fields, test, i + 1, next, env, missing, r);
      }
    }
  }

  /** The environment the predicate of a chain over the document runs in: a path unwraps a root array. */
  function TestEnv(fields: FieldPath, env: Env): Env {
    if |fields| > 1 && env.root.ArrTree? then env.(wrapped := false) else env
  }

  /** A filtered chain over the document fails exactly when its predicate fails and runs. */
  lemma ChainOutcome(ops: Ops, fields: FieldPath, test: Expr, env: Env, missing: bool, r: Outcome)
    requires fields != [] && env.wrapped
    requires OneOutcome(ops, test, TestEnv(fields, env), missing, r) && (missing ==> ChainMisses(fields, env.root))
    ensures var o := Eval(ops, Chain(fields, test), true, Def(env.root, true), env);
            if FilterFails(ops, r) && FilterRuns(fields, env.root) then o == Failure(r) else !o.Fail?
  {
    var path, v := Chain(fields, test), Def(env.root, true);
    if |fields| == 1 {
      StageOutcome(ops, fields[0], test, true, v, env, missing, r);
      assert Eval(ops, path, true, v, env) == EvalSubscript(ops, path, true, v, env);
    } else {
      var first := Value(LookupValue(fields[0], v));
      assert path.steps[0] == Name(fields[0]);
      FirstRun(ops, fields[0], env);
      StepsOutcome(ops, fields, test, 1, first, TestEnv(fields, env), missing, r);
      assert EvalSteps(ops, path, 0, true, Value(v), false, false, env) ==
             EvalSteps(ops, path, 1, true, first, false, IsMapper(first), TestEnv(fields, env));
    }
  }

  /** A field on no recorded path is in nothing of the pruned input. */
  lemma {:induction false} DeadItems(paths: seq<FieldPath>, p: FieldPath, field: string, items: seq<Tree>)
    requires Live(paths, p) && !Live(paths, p + [field])
    ensures NoItemHas(field, PruneItems(paths, p, items))
  {
    if items != [] {
      assert PruneItems(paths, p, items)[1..] == PruneItems(paths, p, items[1..]);
      LookupTreeSame(paths, p, field, items[0], false);
      DeadItems(paths, p, field, items[1..]);
    }
  }

  /** Over the pruned input, a chain on no recorded path reaches nothing that has its last field. */
  lemma {:induction false} DeadSteps(s: Setting, fields: FieldPath, i: nat, v: Val, v': Val)
    requires 0 < i < |fields| && !Live(s.paths, fields) && Same(s.paths, Some(fields[..i]), v, v')
    ensures MissesFrom(fields, i, v')
    decreases |fields| - i
  {
    var p, field := fields[..i], fields[i];
    assert fields[..i + 1] == p + [field];
    if v'.Def? {
      if i == |fields| - 1 {
        assert fields[..i + 1] == fields;
        LookupSame(s.paths, Some(p), field, v, v');
        if IsArray(v') {
          ArraySame(s.paths, Some(p), v, v');
          DeadItems(s.paths, p, field, v.t.items);
        }
      } else {
        NameStepSame(s.paths, Some(p), field, v, v', false);
        var next, next' := NameStep(field, v, false), NameStep(field, v', false);
        if Live(s.paths, p + [field]) {
          StepContextSame(s, Some(p + [field]), next, next');
        }
        DeadSteps(s, fields, i + 1, StepContext(next), StepContext(next'));
      }
    }
  }

  lemma DeadChain(s: Setting, fields: FieldPath, root: Tree)
    requires fields != [] && !Live(s.paths, fields)
    ensures ChainMisses(fields, Prune(s.paths, [], root))
  {
    var v, v' := Def(root, true), Def(Prune(s.paths, [], root), true);
    assert [] + [fields[0]] == fields[..1];
    LookupSame(s.paths, Some([]), fields[0], v, v');
    if |fields| == 1 {
      assert fields[..1] == fields;
    } else {
      DeadSteps(s, fields, 1, LookupValue(fields[0], v), LookupValue(fields[0], v'));
    }
  }

  /** The predicate of a chain on no recorded path has one outcome in both runs: the full run's, over
      an undefined item of the pruned run. */
  lemma TestAgrees(s: Setting, fields: FieldPath, test: Expr, b: Bindings, env: Env, env': Env)
    requires s.strict && Honest(s) && SameEnv(s, b, env, env')
    requires Covered(s, Collect(s.c, test, Some(fields), b).Read())
    ensures Eval(s.ops, test, false, Undef, TestEnv(fields, env')) ==
              Eval(s.ops, test, false, Undef, TestEnv(fields, env))
  {
    var r, t := Collect(s.c, test, None, b), Collect(s.c, test, Some(fields), b);
    CollectLess(s.c, test, None, Some(fields), b, b);
    ReadLess(r, t);
    CoveredLess(s, r.Read(), t.Read());
    PruneElements(s.paths, [], env.root);
    ReadSame(s, test, false, None, b, TestEnv(fields, env), TestEnv(fields, env'), Undef, Undef);
  }

  /** A filtered chain on no recorded path, under any variables: each run of it fails exactly when its
      predicate fails and its document has something for it to filter. */
  lemma DroppedRuns(s: Setting, fields: FieldPath, test: Expr, b: Bindings, env: Env, env': Env, r: Outcome)
    requires s.strict && Honest(s) && SameEnv(s, b, env, env') && env.wrapped
    requires fields != [] && !Live(s.paths, fields) && Covered(s, Collect(s.c, test, Some(fields), b).Read())
    requires OneOutcome(s.ops, test, TestEnv(fields, env), false, r)
    ensures var full := Eval(s.ops, Chain(fields, test), true, Def(env.root, true), env);
            if FilterFails(s.ops, r) && FilterRuns(fields, env.root) then full == Failure(r) else !full.Fail?
    ensures var pruned := Eval(s.ops, Chain(fields, test), true, Def(env'.root, true), env');
            if FilterFails(s.ops, r) && FilterRuns(fields, env'.root) then pruned == Failure(r) else !pruned.Fail?
  {
    ChainOutcome(s.ops, fields, test, env, false, r);
    TestAgrees(s, fields, test, b, env, env');
    DeadChain(s, fields, env.root);
    ChainOutcome(s.ops, fields, test, env', true, r);
  }

  /** A filtered chain's report: its predicate's over it, whose base it is. */
  predicate ReadsTest(c: Config, fields: FieldPath, test: Expr, r: Report) {
    var t := Collect(c, test, Some(fields), map[]).Read();
    && r.recorded == t.recorded && r.complete == t.complete && r.filtered == [fields] + t.filtered
    && r.path == Some(fields)
  }

  lemma FilterReads(c: Config, fields: FieldPath, test: Expr)
    requires fields != []
    ensures var n := |fields| - 1;
            ReadsTest(c, fields, test, Collect(c, Filter(Name(fields[n]), test), Some(fields[..n]), map[]))
  {
    var n := |fields| - 1;
    assert fields[..n] + [fields[n]] == fields;
    assert Collect(c, Name(fields[n]), Some(fields[..n]), map[]) == AppendField(Some(fields[..n]), fields[n]);
  }

  lemma FieldStepReads(c: Config, step: Expr, first: bool, cur: Option<FieldPath>)
    requires ReadsFields(step)
    ensures CollectStep(c, step, first, cur, map[]) == PathIs(cur).Then(Collect(c, step, cur, map[]))
  {
  }

  lemma ThenReads(c: Config, fields: FieldPath, test: Expr, r: Report, cur: Option<FieldPath>)
    requires ReadsTest(c, fields, test, r)
    ensures ReadsTest(c, fields, test, PathIs(cur).Then(r).Then(PathIs(Some(fields))))
  {
    hide Collect;
  }

  lemma {:induction false} StepsReads(c: Config, fields: FieldPath, test: Expr, i: nat)
    requires i < |fields| && |fields| > 1
    ensures ReadsTest(c, fields, test, CollectSteps(c, Chain(fields, test), i, Some(fields[..i]), map[]))
    decreases |fields| - i
  {
    var path, cur := Chain(fields, test), Some(fields[..i]);
    var step := path.steps[i];
    if i < |fields| - 1 {
      assert step == Name(fields[i]) && fields[..i] + [fields[i]] == fields[..i + 1];
      assert Collect(c, step, cur, map[]) == AppendField(cur, fields[i]);
      StepsReads(c, fields, test, i + 1);
    } else {
      assert step == Filter(Name(fields[i]), test);
      hide Collect;
      FilterReads(c, fields, test);
      FieldStepReads(c, step, i == 0, cur);
      ThenReads(c, fields, test, Collect(c, step, cur, map[]), cur);
    }
  }

  /** A filtered chain reads what its predicate reads over it. */
  lemma ChainReads(c: Config, fields: FieldPath, test: Expr)
    requires fields != []
    ensures ReadsTest(c, fields, test, Collect(c, Chain(fields, test), Some([]), map[]))
  {
    assert fields[..0] == [];
    if |fields| == 1 {
      FilterReads(c, fields, test);
    } else {
      StepsReads(c, fields, test, 0);
    }
  }

  /** Exactly when a filter that is dropped shows. Evaluating ($x := a.b[test]; 5), or over a chain of any
      length, on the pruned input gives the full input's result just when the chain is on the way to what is
      read, or the predicate does not fail, or it is evaluated over both inputs or neither. The predicate has
      one outcome in the full run, and its own filters are read. */
  lemma DroppedFilterShows(fields: FieldPath, test: Expr, readsContext: (string, ArgTypes) -> bool, ops: Ops,
                           input: Tree, paths: seq<FieldPath>, r: Outcome)
    requires fields != [] && HonestCalls(ops, readsContext)
    requires var e := Unused(Chain(fields, test));
             && ReadsOf(e, readsContext).complete && paths == AddAll([], ReadsOf(e, readsContext).recorded)
             && FiltersRead(Collect(ConfigOf(e, readsContext), test, Some(fields), map[]))
    requires OneOutcome(ops, test, TestEnv(fields, Env(input, true, map[])), false, r)
    ensures var e, pruned := Unused(Chain(fields, test)), Prune(paths, [], input);
            Run(ops, e, input) == Run(ops, e, pruned) <==>
            || Live(paths, fields)
            || !(FilterFails(ops, r) && FilterRuns(fields, input) != FilterRuns(fields, pruned))
  {
    hide Eval, Collect, FilterRuns, Chain, Prune, FilterFails;
    var e, pruned := Unused(Chain(fields, test)), Prune(paths, [], input);
    var c := ConfigOf(e, readsContext);
    var t := Collect(c, test, Some(fields), map[]);
    ChainReads(c, fields, test);
    UnusedReads(c, Chain(fields, test), Collect(c, Chain(fields, test), Some([]), map[]));
    AddAllHolds([], ReadsOf(e, readsContext).recorded);
    TestCovered(t, paths);
    if Live(paths, fields) {
      assert forall p :: p in ReadsOf(e, readsContext).filtered ==> p == fields || p in t.filtered;
      PrunedInputSuffices(e, readsContext, ops, input, paths);
    } else {
      var s := Setting(paths, c, ops, true);
      RunUnused(ops, Chain(fields, test), input);
      RunUnused(ops, Chain(fields, test), pruned);
      DroppedRuns(s, fields, test, map[], Env(input, true, map[]), Env(pruned, true, map[]), r);
      FailureFails(r);
    }
  }

  lemma FailureFails(r: Outcome)
    ensures Failure(r).Fail?
  {
  }

  lemma TestCovered(t: Report, paths: seq<FieldPath>)
    requires FiltersRead(t) && forall p :: p in t.Read().recorded ==> p in paths
    ensures t.complete ==> t.Read().complete || t.path == Some([])
    ensures forall p :: p in t.filtered ==> Live(paths, p)
  {
    ReadKeeps(t);
    forall p | p in t.filtered
      ensures Live(paths, p)
    {
      assert OnTheWay(t.Read().Drop(), p);
    }
  }

  /** Where a chain's first field is pruned away, its predicate is evaluated only if that is its base, missing. */
  lemma GoneRuns(paths: seq<FieldPath>, fields: FieldPath, input: Tree)
    requires fields != [] && !Live(paths, fields[..1])
    ensures FilterRuns(fields, Prune(paths, [], input)) == (|fields| == 1)
  {
    assert [] + [fields[0]] == fields[..1];
    LookupSame(paths, Some([]), fields[0], Def(input, true), Def(Prune(paths, [], input), true));
  }

  lemma AddStringOutcome(ops: Ops, env: Env, code: string)
    requires AddFails(ops, code)
    ensures OneOutcome(ops, AddString(), env, false, Fail(code))
  {
    forall v: Val
      ensures Eval(ops, AddString(), false, v, env) == Fail(code)
    {
      AddStringFails(ops, false, v, env, code);
    }
  }

  /** Neither of ($x := a[1 + "s"]; 5) and ($x := a.b[1 + "s"]; 5) is said to read anything. */
  lemma UnusedFiltersRead(readsContext: (string, ArgTypes) -> bool, fields: FieldPath)
    requires fields != []
    ensures var r := ReadsOf(Unused(Chain(fields, AddString())), readsContext);
            r.complete && AddAll([], r.recorded) == []
  {
    var chain := Chain(fields, AddString());
    var c := ConfigOf(Unused(chain), readsContext);
    AddStringReads(c, Some(fields));
    ChainReads(c, fields, AddString());
    UnusedReads(c, chain, Collect(c, chain, Some([]), map[]));
  }

  /** How each run of ($x := chain[1 + "s"]; 5) ends, on an input and on what is left of it. */
  lemma UnusedAddRuns(ops: Ops, fields: FieldPath, input: Tree, code: string)
    requires AddFails(ops, code) && fields != []
    ensures Run(ops, Unused(Chain(fields, AddString())), input) ==
            if FilterRuns(fields, input) then Fail(code) else FIVE
  {
    var env := Env(input, true, map[]);
    AddStringOutcome(ops, TestEnv(fields, env), code);
    ChainOutcome(ops, fields, AddString(), env, false, Fail(code));
    RunUnused(ops, Chain(fields, AddString()), input);
  }

  /** A dropped filter can fail on the pruned input alone, whose missing base it filters as one undefined item ... */
  lemma PrunedAloneFails(ops: Ops, code: string)
    requires AddFails(ops, code)
    ensures var e, input := Unused(Chain(["a"], AddString())), ObjTree([Field("a", ArrTree([]))]);
            Run(ops, e, input) == FIVE && Run(ops, e, Prune([], [], input)) == Fail(code)
  {
    var input := ObjTree([Field("a", ArrTree([]))]);
    UnusedAddRuns(ops, ["a"], input, code);
    UnusedAddRuns(ops, ["a"], Prune([], [], input), code);
    GoneRuns([], ["a"], input);
  }

  /** ... and on the full input alone, where the pruned input has no such base to filter. */
  lemma FullAloneFails(ops: Ops, code: string)
    requires AddFails(ops, code)
    ensures var e, input := Unused(Chain(["a", "b"], AddString())),
            ObjTree([Field("a", ObjTree([Field("b", NullTree)]))]);
            Run(ops, e, input) == Fail(code) && Run(ops, e, Prune([], [], input)) == FIVE
  {
    var input := ObjTree([Field("a", ObjTree([Field("b", NullTree)]))]);
    var a := LookupValue("a", Def(input, true));
    assert a == Def(ObjTree([Field("b", NullTree)]), false) && LookupValue("b", a) == Def(NullTree, false);
    assert RunsFrom(["a", "b"], 1, a);
    UnusedAddRuns(ops, ["a", "b"], input, code);
    UnusedAddRuns(ops, ["a", "b"], Prune([], [], input), code);
    GoneRuns([], ["a", "b"], input);
  }
}
