/** The input fields an expression reads, and what evaluating it on only those gives. */
module ReferencedPaths {
  import opened Wrappers
  import opened Trees
  import opened PathEval
  import opened PathPruning
  import opened PathReads
  import opened PathSoundness
  import opened PathCollector
  import opened PathRuns
  import opened PathLooks
  import opened PathUnknown

  /** The variables an expression binds anywhere, one entry a binding. */
  function BoundNames(e: Expr): seq<string>
    decreases e, 0
  {
    match e
    case Path(steps) => AllBound(steps)
    case Pick(base, _) => BoundNames(base)
    case Filter(base, test) => BoundNames(base) + BoundNames(test)
    case Binary(_, left, right) => BoundNames(left) + BoundNames(right)
    case Negate(operand) => BoundNames(operand)
    case Condition(guard, yes, no) =>
      BoundNames(guard) + BoundNames(yes) + if no.None? then [] else BoundNames(no.value)
    case ArrayOf(parts) => AllBound(parts)
    case Call(_, args) => AllBound(args)
    case Block(statements) => BlockBound(statements)
    case _ => []
  }

  function AllBound(parts: seq<Expr>): seq<string>
    decreases parts, 0
  {
    if parts == [] then [] else BoundNames(parts[0]) + AllBound(parts[1..])
  }

  function BlockBound(statements: seq<Statement>): seq<string>
    decreases statements, 0
  {
    if statements == [] then [] else StatementBound(statements[0]) + BlockBound(statements[1..])
  }

  function StatementBound(s: Statement): seq<string>
    decreases s, 0
  {
    (if s.Let? then [s.name] else []) + BoundNames(s.e)
  }

  function ConfigOf(e: Expr, readsContext: (string, ArgTypes) -> bool): Config {
    Config(BoundNames(e), readsContext)
  }

  /** What e reads of its input, its result included. */
  function ReadsOf(e: Expr, readsContext: (string, ArgTypes) -> bool): Report {
    Collect(ConfigOf(e, readsContext), e, Some([]), map[]).Read()
  }

  /** The fields read are few enough to track, and their names to return. */
  ghost predicate Fit(named: seq<FieldPath>, wholes: seq<FieldPath>) {
    |{[]} + Paths(named)| <= MAX_PATH_NODES + 1 && NameCount(AddAll([], wholes)) <= MAX_PATH_ELEMENTS
  }

  /** All is named, within the caps. */
  ghost predicate Tracked(r: Report) {
    r.complete && Fit(r.touched, r.recorded)
  }

  /** How often a name is bound is how often it is among the names bound. */
  lemma {:induction false} BoundIsTimes(e: Expr, name: string)
    ensures multiset(BoundNames(e))[name] == TimesBound(e, name)
    decreases e, 1
  {
    match e
    case Path(steps) => AllBoundIsTimes(steps, name);
    case Pick(base, _) => BoundIsTimes(base, name);
    case Filter(base, test) =>
      BoundIsTimes(base, name);
      BoundIsTimes(test, name);
    case Binary(_, left, right) =>
      BoundIsTimes(left, name);
      BoundIsTimes(right, name);
    case Negate(operand) => BoundIsTimes(operand, name);
    case Condition(_, _, _) => BranchesAreTimes(e, name);
    case ArrayOf(parts) => AllBoundIsTimes(parts, name);
    case Call(_, args) => AllBoundIsTimes(args, name);
    case Block(statements) => SetIsTimes(statements, name);
    case _ =>
  }

  lemma {:induction false} BranchesAreTimes(e: Expr, name: string)
    requires e.Condition?
    ensures multiset(BoundNames(e))[name] == TimesBound(e, name)
    decreases e, 0
  {
    BoundIsTimes(e.guard, name);
    BoundIsTimes(e.yes, name);
    if e.no.Some? {
      BoundIsTimes(e.no.value, name);
    }
  }

  lemma {:induction false} AllBoundIsTimes(parts: seq<Expr>, name: string)
    ensures multiset(AllBound(parts))[name] == TimesBoundIn(parts, name)
    decreases parts, 0
  {
    if parts != [] {
      BoundIsTimes(parts[0], name);
      AllBoundIsTimes(parts[1..], name);
    }
  }

  lemma {:induction false} SetIsTimes(statements: seq<Statement>, name: string)
    ensures multiset(BlockBound(statements))[name] == TimesSet(statements, name)
    decreases statements, 0
  {
    if statements != [] {
      SetByIsTimes(statements[0], name);
      SetIsTimes(statements[1..], name);
    }
  }

  lemma {:induction false} SetByIsTimes(s: Statement, name: string)
    ensures multiset(StatementBound(s))[name] == TimesSetBy(s, name)
    decreases s, 0
  {
    BoundIsTimes(s.e, name);
  }

  /** What is reported is what a run looks at that takes every way, in that order. */
  lemma ReadsAreLooks(e: Expr, readsContext: (string, ArgTypes) -> bool)
    ensures Says(ReadsOf(e, readsContext), LooksOf(e, readsContext, Both))
  {
    forall name
      ensures multiset(BoundNames(e))[name] == TimesBound(e, name)
    {
      BoundIsTimes(e, name);
    }
    UseTells(ConfigOf(e, readsContext), Program(e, readsContext), e, Some([]), map[]);
  }

  lemma {:induction false} WholesHold(looks: seq<Look>, p: FieldPath)
    ensures p in Wholes(looks) <==> p != [] && Look.Whole(p) in looks
  {
    if looks != [] {
      WholesHold(looks[1..], p);
      assert Look.Whole(p) in looks <==> Look.Whole(p) == looks[0] || Look.Whole(p) in looks[1..];
    }
  }

  lemma {:induction false} FilteredHolds(looks: seq<Look>, p: FieldPath)
    ensures p in FilteredIn(looks) <==> Filters(p) in looks
  {
    if looks != [] {
      FilteredHolds(looks[1..], p);
      assert Filters(p) in looks <==> Filters(p) == looks[0] || Filters(p) in looks[1..];
    }
  }

  /** The fields some run looks at as a whole, and no others. */
  ghost predicate AreLookedAt(e: Expr, readsContext: (string, ArgTypes) -> bool, paths: seq<FieldPath>) {
    forall p :: p in paths <==> p != [] && LooksAt(e, readsContext, Look.Whole(p))
  }

  /** No run looks at the whole input, or uses something unknown that may. */
  ghost predicate AllNamed(e: Expr, readsContext: (string, ArgTypes) -> bool) {
    !UsesUnknown(e, e, {}) && !LooksAt(e, readsContext, Look.Whole([]))
  }

  /** The report is of what runs look at. */
  lemma ReadsLookedAt(e: Expr, readsContext: (string, ArgTypes) -> bool)
    ensures var r, all := ReadsOf(e, readsContext), LooksOf(e, readsContext, Both);
            && r.recorded == Wholes(all) && r.touched == NamedIn(all)
            && (r.complete <==> AllNamed(e, readsContext))
            && AreLookedAt(e, readsContext, AddAll([], r.recorded))
            && forall p :: p in r.filtered <==> LooksAt(e, readsContext, Filters(p))
  {
    var r, all := ReadsOf(e, readsContext), LooksOf(e, readsContext, Both);
    hide Collect, Wholes, NamedIn, FilteredIn, UsesUnknown, LooksAt;
    ReadsAreLooks(e, readsContext);
    AnythingExactly(Program(e, readsContext), e, Some([]), map[], {});
    EveryWay(e, readsContext, Look.Whole([]));
    AddAllHolds([], r.recorded);
    forall p
      ensures p in r.recorded <==> p != [] && LooksAt(e, readsContext, Look.Whole(p))
      ensures p in r.filtered <==> LooksAt(e, readsContext, Filters(p))
    {
      WholesHold(all, p);
      FilteredHolds(all, p);
      EveryWay(e, readsContext, Look.Whole(p));
      EveryWay(e, readsContext, Filters(p));
    }
  }

  /** The fields e reads, each path once; complete: they are all it reads. Within the caps these are the fields some
      run looks at as a whole, in the order in which they are first looked at with every way taken. */
  method ReferencedPaths(e: Expr, readsContext: (string, ArgTypes) -> bool)
    returns (paths: seq<FieldPath>, complete: bool)
    ensures AllDistinct(paths)
    ensures var all := LooksOf(e, readsContext, Both);
            && (complete <==> AllNamed(e, readsContext) && Fit(NamedIn(all), Wholes(all)))
            && (Fit(NamedIn(all), Wholes(all)) ==>
                  paths == AddAll([], Wholes(all)) && AreLookedAt(e, readsContext, paths))
    ensures complete <==> Tracked(ReadsOf(e, readsContext))
    ensures complete ==> paths == AddAll([], ReadsOf(e, readsContext).recorded)
  {
    hide Collect, UsesUnknown, LooksAt, LooksOf, Wholes, NamedIn, AddAll, NameCount, AreLookedAt, AllNamed, AllDistinct,
         BoundNames;
    ReadsLookedAt(e, readsContext);
    var c := new Collector(ConfigOf(e, readsContext));
    c.Value(e, Some(0));
    paths, complete := c.Result();
  }

  /** Evaluating e against an input. */
  function Run(ops: Ops, e: Expr, input: Tree): Outcome {
    Eval(ops, e, true, Def(input, true), Env(input, true, map[]))
  }

  /** ops.call does not depend on a context that readsContext denies. */
  ghost predicate HonestCalls(ops: Ops, readsContext: (string, ArgTypes) -> bool) {
    Honest(Setting([], Config([], readsContext), ops, false))
  }

  lemma RunsCovered(s: Setting, e: Expr, input: Tree)
    requires Honest(s) && Covered(s, Collect(s.c, e, Some([]), map[]).Read())
    ensures var full, pruned := Run(s.ops, e, input), Run(s.ops, e, Prune(s.paths, [], input));
            Agree(s, None, full, pruned)
  {
    var pruned := Prune(s.paths, [], input);
    ReadSame(s, e, true, Some([]), map[], Env(input, true, map[]), Env(pruned, true, map[]), Def(input, true),
             Def(pruned, true));
  }

  /** Where no run looks at the whole input, or may, the input pruned to the fields some run looks at as a whole gives
      the full input's result, if neither run fails; and the same failures too, if every computed filter's base is on
      the way to one of them. */
  lemma LooksSuffice(e: Expr, readsContext: (string, ArgTypes) -> bool, ops: Ops, input: Tree, paths: seq<FieldPath>)
    requires AllNamed(e, readsContext) && AreLookedAt(e, readsContext, paths)
    requires HonestCalls(ops, readsContext)
    ensures var full, pruned := Run(ops, e, input), Run(ops, e, Prune(paths, [], input));
            && (full.Fail? || pruned.Fail? || full == pruned)
            && ((forall p :: LooksAt(e, readsContext, Filters(p)) ==> Live(paths, p)) ==> full == pruned)
  {
    var r := ReadsOf(e, readsContext);
    ReadsLookedAt(e, readsContext);
    AddAllHolds([], r.recorded);
    hide LooksAt, Live, Collect, Eval, Prune, UsesUnknown;
    var s := Setting(paths, ConfigOf(e, readsContext), ops, false);
    RunsCovered(s, e, input);
    if forall p :: LooksAt(e, readsContext, Filters(p)) ==> Live(paths, p) {
      RunsCovered(s.(strict := true), e, input);
    }
  }

  /** So when the report is complete, the input pruned to its paths does. */
  lemma PrunedInputSuffices(e: Expr, readsContext: (string, ArgTypes) -> bool, ops: Ops, input: Tree,
                            paths: seq<FieldPath>)
    requires ReadsOf(e, readsContext).complete && paths == AddAll([], ReadsOf(e, readsContext).recorded)
    requires HonestCalls(ops, readsContext)
    ensures var full, pruned := Run(ops, e, input), Run(ops, e, Prune(paths, [], input));
            && (full.Fail? || pruned.Fail? || full == pruned)
            && ((forall p :: p in ReadsOf(e, readsContext).filtered ==> Live(paths, p)) ==> full == pruned)
  {
    AddAllHolds([], ReadsOf(e, readsContext).recorded);
    ReadsLookedAt(e, readsContext);
    hide LooksAt, Live, ReadsOf, Eval, Prune, UsesUnknown;
    LooksSuffice(e, readsContext, ops, input, paths);
  }

  predicate NoBindings(e: Expr) {
    BoundNames(e) == []
  }

  /** p is the root, or on the way to a recorded path or to the result's. */
  ghost predicate OnTheWay(r: Report, p: FieldPath) {
    || p == []
    || (exists q :: q in r.recorded && p <= q)
    || (r.path.Some? && p <= r.path.value)
  }

  lemma WayBefore(r: Report, p: FieldPath, q: FieldPath)
    requires p <= q && OnTheWay(r, q)
    ensures OnTheWay(r, p)
  {
    if q != [] && !(r.path.Some? && q <= r.path.value) {
      var last :| last in r.recorded && q <= last;
      assert p <= last;
    }
  }

  lemma WayAfter(r: Report, next: Report, p: FieldPath)
    ensures OnTheWay(next, p) ==> OnTheWay(r.Then(next), p)
    ensures OnTheWay(r.Drop(), p) ==> OnTheWay(r.Then(next), p)
  {
    if q :| q in next.recorded && p <= q {
      assert q in r.Then(next).recorded;
    }
    if q :| q in r.recorded && p <= q {
      assert q in r.Then(next).recorded;
    }
  }

  /** Every computed filter's base is on the way to what is read, or to the result. */
  ghost predicate FiltersRead(r: Report) {
    forall p :: p in r.filtered ==> OnTheWay(r, p)
  }

  lemma ReadKeeps(r: Report)
    requires FiltersRead(r)
    ensures FiltersRead(r.Read().Drop())
  {
    forall p | p in r.filtered
      ensures OnTheWay(r.Read().Drop(), p)
    {
      assert OnTheWay(r, p);
      if q :| q in r.recorded && p <= q {
        assert q in r.Read().recorded;
      } else if p != [] {
        assert r.path.value in r.Read().recorded;
      }
    }
  }

  /** Two reports in turn, where the result of the first is on the way of the second. */
  lemma ThenKeeps(r: Report, next: Report)
    requires FiltersRead(r) && FiltersRead(next) && (r.path.Some? ==> OnTheWay(next, r.path.value))
    ensures FiltersRead(r.Then(next))
  {
    forall p | p in r.Then(next).filtered
      ensures OnTheWay(r.Then(next), p)
    {
      WayAfter(r, next, p);
      if p in r.filtered && !OnTheWay(r.Drop(), p) {
        WayBefore(next, p, r.path.value);
      }
    }
  }

  /** Reading two parts of an expression. */
  lemma ReadBoth(r: Report, next: Report)
    requires FiltersRead(r) && FiltersRead(next)
    ensures FiltersRead(r.Read().Then(next.Read()).Drop())
  {
    ReadKeeps(r);
    ReadKeeps(next);
    ThenKeeps(r.Read().Drop(), next.Read().Drop());
  }

  /** Without variables, no computed filter's base goes unread. */
  lemma {:induction false} BindingFree(c: Config, e: Expr, ctx: Option<FieldPath>, b: Bindings)
    requires NoBindings(e)
    ensures FiltersRead(Collect(c, e, ctx, b))
    decreases e, 2
  {
    match e
    case Path(_) => PathBindingFree(c, e, 0, ctx, b);
    case Pick(base, _) => BindingFree(c, base, ctx, b);
    case Filter(_, _) => FilterBindingFree(c, e, ctx, b);
    case Binary(_, left, right) =>
      hide FiltersRead;
      BindingFree(c, left, ctx, b);
      BindingFree(c, right, ctx, b);
      ReadBoth(Collect(c, left, ctx, b), Collect(c, right, ctx, b));
    case Negate(operand) =>
      BindingFree(c, operand, ctx, b);
      ReadKeeps(Collect(c, operand, ctx, b));
    case Condition(guard, yes, no) =>
      hide FiltersRead;
      BindingFree(c, guard, ctx, b);
      BindingFree(c, yes, ctx, b);
      ReadBoth(Collect(c, guard, ctx, b), Collect(c, yes, ctx, b));
      if no.Some? {
        BindingFree(c, no.value, ctx, b);
        ReadKeeps(Collect(c, no.value, ctx, b));
        ThenKeeps(Collect(c, guard, ctx, b).Read().Then(Collect(c, yes, ctx, b).Read()).Drop(),
                  Collect(c, no.value, ctx, b).Read().Drop());
      }
    case ArrayOf(parts) => PartsBindingFree(c, parts, ctx, b);
    case Call(name, args) =>
      PartsBindingFree(c, args, ctx, b);
      ThenKeeps(CollectValues(c, args, ctx, b), CallReads(c, name, args, ctx, b));
    case Block(statements) => BlockBindingFree(c, statements, ctx, b);
    case _ =>
  }

  lemma {:induction false} FilterBindingFree(c: Config, e: Expr, ctx: Option<FieldPath>, b: Bindings)
    requires e.Filter? && NoBindings(e)
    ensures FiltersRead(Collect(c, e, ctx, b))
    decreases e, 1
  {
    var base := Collect(c, e.base, ctx, b);
    var test := Collect(c, e.test, base.path, b);
    BindingFree(c, e.base, ctx, b);
    BindingFree(c, e.test, base.path, b);
    ReadKeeps(test);
    var next := test.Read().(path := base.path);
    assert FiltersRead(next) by {
      forall p | p in next.filtered
        ensures OnTheWay(next, p)
      {
        assert OnTheWay(test.Read().Drop(), p);
      }
    }
    ThenKeeps(base.Filtered(), next);
  }

  lemma {:induction false} PartsBindingFree(c: Config, parts: seq<Expr>, ctx: Option<FieldPath>, b: Bindings)
    requires AllBound(parts) == []
    ensures FiltersRead(CollectValues(c, parts, ctx, b)) && CollectValues(c, parts, ctx, b).path == None
    decreases parts, 0
  {
    if parts != [] {
      BindingFree(c, parts[0], ctx, b);
      ReadKeeps(Collect(c, parts[0], ctx, b));
      PartsBindingFree(c, parts[1..], ctx, b);
      ThenKeeps(Collect(c, parts[0], ctx, b).Read().Drop(), CollectValues(c, parts[1..], ctx, b));
    }
  }

  lemma {:induction false} StatementBindingFree(c: Config, s: Statement, ctx: Option<FieldPath>, b: Bindings)
    requires StatementBound(s) == []
    ensures FiltersRead(CollectStatement(c, s, ctx, b)) && s.Do?
    decreases s, 0
  {
    BindingFree(c, s.e, ctx, b);
  }

  lemma {:induction false} BlockBindingFree(c: Config, statements: seq<Statement>, ctx: Option<FieldPath>, b: Bindings)
    requires BlockBound(statements) == []
    ensures FiltersRead(CollectBlock(c, statements, ctx, b))
    decreases statements, 0
  {
    if statements != [] {
      var first := CollectStatement(c, statements[0], ctx, b);
      StatementBindingFree(c, statements[0], ctx, b);
      if |statements| > 1 {
        BlockBindingFree(c, statements[1..], ctx, b);
        ReadKeeps(first);
        ThenKeeps(first.Read().Drop(), CollectBlock(c, statements[1..], ctx, b));
      }
    }
  }

  lemma {:induction false} AllBoundAt(parts: seq<Expr>, i: nat)
    requires i < |parts| && AllBound(parts) == []
    ensures NoBindings(parts[i])
  {
    if i > 0 {
      AllBoundAt(parts[1..], i - 1);
    }
  }

  /** A step that reads fields results in a path its input's is on the way to. */
  lemma {:induction false} FieldsExtend(c: Config, step: Expr, p: FieldPath, b: Bindings)
    requires ReadsFields(step)
    ensures var q := Collect(c, step, Some(p), b).path; q.Some? && p <= q.value
    decreases step
  {
    if IsSubscript(step) {
      FieldsExtend(c, step.base, p, b);
    }
  }

  /** The steps after a step read its result, or fields of it. */
  lemma {:induction false} StepsRead(c: Config, path: Expr, i: nat, p: FieldPath, b: Bindings)
    requires path.Path? && 0 < i <= |path.steps|
    ensures OnTheWay(CollectSteps(c, path, i, Some(p), b), p)
    decreases |path.steps| - i
  {
    if i < |path.steps| {
      var step := CollectStep(c, path.steps[i], false, Some(p), b);
      var rest := CollectSteps(c, path, i + 1, step.path, b);
      WayAfter(step, rest, p);
      if ReadsFields(path.steps[i]) {
        FieldsExtend(c, path.steps[i], p, b);
        StepsRead(c, path, i + 1, step.path.value, b);
        WayBefore(rest, p, step.path.value);
      } else if p != [] {
        assert p in step.recorded;
        assert OnTheWay(step.Drop(), p);
      }
    }
  }

  lemma {:induction false} PathBindingFree(c: Config, path: Expr, i: nat, cur: Option<FieldPath>, b: Bindings)
    requires path.Path? && i <= |path.steps| && NoBindings(path)
    ensures FiltersRead(CollectSteps(c, path, i, cur, b))
    decreases path, 1, |path.steps| - i
  {
    if i < |path.steps| {
      var step := CollectStep(c, path.steps[i], i == 0, cur, b);
      var input := StepInput(path.steps[i], i == 0, cur);
      AllBoundAt(path.steps, i);
      BindingFree(c, path.steps[i], cur, b);
      ThenKeeps(input.Drop(), Collect(c, path.steps[i], cur, b));
      PathBindingFree(c, path, i + 1, step.path, b);
      if step.path.Some? {
        StepsRead(c, path, i + 1, step.path.value, b);
      }
      ThenKeeps(step, CollectSteps(c, path, i + 1, step.path, b));
    }
  }

  /** An expression that binds no variables gives the full input's result on its pruned input,
      failures included. */
  lemma BindingFreeIsExact(e: Expr, readsContext: (string, ArgTypes) -> bool, ops: Ops, input: Tree,
                           paths: seq<FieldPath>)
    requires NoBindings(e)
    requires ReadsOf(e, readsContext).complete && paths == AddAll([], ReadsOf(e, readsContext).recorded)
    requires HonestCalls(ops, readsContext)
    ensures Run(ops, e, input) == Run(ops, e, Prune(paths, [], input))
  {
    var c := ConfigOf(e, readsContext);
    var r := Collect(c, e, Some([]), map[]);
    BindingFree(c, e, Some([]), map[]);
    ReadKeeps(r);
    AddAllHolds([], r.Read().recorded);
    forall p | p in r.filtered
      ensures Live(paths, p)
    {
      assert OnTheWay(r.Read().Drop(), p);
    }
    PrunedInputSuffices(e, readsContext, ops, input, paths);
  }
}
