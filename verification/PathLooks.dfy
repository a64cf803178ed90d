/** The analysis reports what runs look at: all of it, in the order a run that takes every way looks, and nothing that
    no run looks at. */
module PathLooks {
  import opened Wrappers
  import opened PathEval
  import opened PathPruning
  import opened PathReads
  import opened ReadsLess
  import opened PathRuns

  /** The paths looked at as a whole, in order, the input itself left out. */
  function Wholes(looks: seq<Look>): seq<FieldPath> {
    if looks == [] then []
    else (if looks[0].Whole? && looks[0].path != [] then [looks[0].path] else []) + Wholes(looks[1..])
  }

  function NamedIn(looks: seq<Look>): seq<FieldPath> {
    if looks == [] then [] else (if looks[0].Named? then [looks[0].path] else []) + NamedIn(looks[1..])
  }

  function FilteredIn(looks: seq<Look>): seq<FieldPath> {
    if looks == [] then [] else (if looks[0].Filters? then [looks[0].path] else []) + FilteredIn(looks[1..])
  }

  /** The input is looked at as a whole, or anything in it may be. */
  predicate Unnamed(looks: seq<Look>) {
    Anything in looks || Look.Whole([]) in looks
  }

  lemma {:induction false} WholesJoin(a: seq<Look>, b: seq<Look>)
    ensures Wholes(a + b) == Wholes(a) + Wholes(b)
  {
    if a == [] {
      assert a + b == b;
    } else {
      assert (a + b)[1..] == a[1..] + b;
      WholesJoin(a[1..], b);
    }
  }

  lemma {:induction false} NamedJoin(a: seq<Look>, b: seq<Look>)
    ensures NamedIn(a + b) == NamedIn(a) + NamedIn(b)
  {
    if a == [] {
      assert a + b == b;
    } else {
      assert (a + b)[1..] == a[1..] + b;
      NamedJoin(a[1..], b);
    }
  }

  lemma {:induction false} FilteredJoin(a: seq<Look>, b: seq<Look>)
    ensures FilteredIn(a + b) == FilteredIn(a) + FilteredIn(b)
  {
    if a == [] {
      assert a + b == b;
    } else {
      assert (a + b)[1..] == a[1..] + b;
      FilteredJoin(a[1..], b);
    }
  }

  lemma LooksJoin(a: seq<Look>, b: seq<Look>)
    ensures Wholes(a + b) == Wholes(a) + Wholes(b) && NamedIn(a + b) == NamedIn(a) + NamedIn(b)
    ensures FilteredIn(a + b) == FilteredIn(a) + FilteredIn(b)
    ensures Unnamed(a + b) == (Unnamed(a) || Unnamed(b))
  {
    WholesJoin(a, b);
    NamedJoin(a, b);
    FilteredJoin(a, b);
  }

  /** A report says what some looks are. */
  predicate Says(r: Report, looks: seq<Look>) {
    && r.recorded == Wholes(looks) && r.touched == NamedIn(looks) && r.filtered == FilteredIn(looks)
    && r.complete == !Unnamed(looks)
  }

  /** And where the result is. */
  predicate Tells(r: Report, t: Trace) {
    Says(r, t.looks) && r.path == t.from
  }

  lemma SaysJoin(r: Report, looks: seq<Look>, next: Report, more: seq<Look>)
    requires Says(r, looks) && Says(next, more)
    ensures Says(r.Then(next), looks + more)
  {
    LooksJoin(looks, more);
  }

  lemma SaysUse(r: Report, t: Trace)
    requires Tells(r, t)
    ensures Says(r.Read(), Use(t))
  {
    LooksJoin(t.looks, Seen(t.from));
    if t.from.Some? {
      var w := Look.Whole(t.from.value);
      assert [w][1..] == [];
      assert Wholes([w]) == (if t.from.value != [] then [t.from.value] else []) + Wholes([]);
      assert NamedIn([w]) == [] + NamedIn([]) && FilteredIn([w]) == [] + FilteredIn([]);
    }
  }

  lemma SaysSeen(p: Option<FieldPath>)
    ensures Says(PathIs(p).Read(), Seen(p)) && Says(NOTHING, []) && Tells(PathIs(p), Trace([], p))
  {
    SaysUse(PathIs(p), Trace([], p));
    assert [] + Seen(p) == Seen(p);
  }

  lemma SaysFilters(r: Report, t: Trace)
    requires Tells(r, t)
    ensures Tells(r.Filtered(), Trace(t.looks + (if t.from.Some? then [Filters(t.from.value)] else []), t.from))
  {
    if t.from.Some? {
      var f := Filters(t.from.value);
      LooksJoin(t.looks, [f]);
      assert [f][1..] == [];
      assert FilteredIn([f]) == [t.from.value] + FilteredIn([]);
      assert NamedIn([f]) == [] + NamedIn([]) && Wholes([f]) == [] + Wholes([]);
    } else {
      assert t.looks + [] == t.looks;
    }
  }

  /** The configuration of a program's analysis. */
  ghost predicate ConfigFor(c: Config, pr: Program) {
    c.readsContext == pr.readsContext && forall name :: multiset(c.bound)[name] == TimesBound(pr.whole, name)
  }

  lemma {:induction false} SymbolsAre(args: seq<Expr>)
    ensures LiteralTypes(args) == seq(|args|, i requires 0 <= i < |args| => SymbolOf(args[i]))
  {
    if args != [] {
      SymbolsAre(args[1..]);
      var types := seq(|args|, i requires 0 <= i < |args| => SymbolOf(args[i]));
      forall i | 0 <= i < |args|
        ensures LiteralTypes(args)[i] == types[i]
      {
        if i > 0 {
          assert LiteralTypes(args[1..])[i - 1] == SymbolOf(args[1..][i - 1]);
        }
      }
    }
  }

  lemma {:induction false} FieldStepIs(step: Expr)
    ensures IsFieldStep(step) == ReadsFields(step)
    decreases step
  {
    if IsSubscript(step) {
      FieldStepIs(step.base);
    }
  }

  lemma SaysAnything()
    ensures Says(INCOMPLETE, [Anything]) && Tells(INCOMPLETE, Trace([Anything], None))
  {
    assert [Anything][1..] == [];
  }

  lemma CallTells(c: Config, pr: Program, name: string, args: seq<Expr>, ctx: Option<FieldPath>, b: Bindings)
    requires ConfigFor(c, pr)
    ensures Tells(CallReads(c, name, args, ctx, b), Trace(CallLooks(pr, name, args, ctx, b), None))
  {
    hide Says;
    SaysSeen(ctx);
    SaysAnything();
    assert multiset(c.bound)[name] == TimesBound(pr.whole, name);
    if name in c.bound {
      SaysDropped(PathIs(ctx).Read(), Seen(ctx));
    } else if name !in b {
      SymbolsAre(args);
      var whole := if name == "eval" then INCOMPLETE else NOTHING;
      var looks := if name == "eval" then [Anything] else [];
      SaysJoin(whole, looks, PathIs(ctx).Read(), Seen(ctx));
      SaysDropped(whole.Then(PathIs(ctx).Read()), looks + Seen(ctx));
      assert looks + [] == looks;
    }
  }

  lemma {:induction false} RunTells(c: Config, pr: Program, e: Expr, ctx: Option<FieldPath>, b: Bindings)
    requires ConfigFor(c, pr)
    ensures Tells(Collect(c, e, ctx, b), RunOf(pr, e, ctx, b, Both))
    decreases e, 4
  {
    match e
    case Path(_) => StepsTell(c, pr, e, 0, ctx, b);
    case Pick(base, _) => RunTells(c, pr, base, ctx, b);
    case Filter(_, _) => FilterTells(c, pr, e, ctx, b);
    case Binary(_, _, _) => BothTell(c, pr, e, ctx, b);
    case Negate(operand) => UseTells(c, pr, operand, ctx, b);
    case Condition(_, _, _) => ConditionTells(c, pr, e, ctx, b);
    case ArrayOf(parts) => AllTell(c, pr, parts, ctx, b, 0);
    case Call(_, _) => CallOfTells(c, pr, e, ctx, b);
    case Block(statements) => BlockTells(c, pr, statements, ctx, b, 0);
    case _ => LeafTells(c, pr, e, ctx, b);
  }

  lemma {:induction false} BothTell(c: Config, pr: Program, e: Expr, ctx: Option<FieldPath>, b: Bindings)
    requires ConfigFor(c, pr) && e.Binary?
    ensures Tells(Collect(c, e, ctx, b), RunOf(pr, e, ctx, b, Both))
    decreases e, 3
  {
    hide Says;
    var r, t := Collect(c, e.left, ctx, b).Read(), Use(RunOf(pr, e.left, ctx, b, Both));
    var r', t' := Collect(c, e.right, ctx, b).Read(), Use(RunOf(pr, e.right, ctx, b, Both));
    UseTells(c, pr, e.left, ctx, b);
    UseTells(c, pr, e.right, ctx, b);
    SaysJoin(r, t, r', t');
    SaysDropped(r.Then(r'), t + t');
  }

  lemma {:induction false} CallOfTells(c: Config, pr: Program, e: Expr, ctx: Option<FieldPath>, b: Bindings)
    requires ConfigFor(c, pr) && e.Call?
    ensures Tells(Collect(c, e, ctx, b), RunOf(pr, e, ctx, b, Both))
    decreases e, 3
  {
    hide Says;
    AllTell(c, pr, e.args, ctx, b, 0);
    CallTells(c, pr, e.name, e.args, ctx, b);
    TellsJoin(CollectValues(c, e.args, ctx, b), Trace(UseAll(pr, e.args, ctx, b, Both, 0), None),
              CallReads(c, e.name, e.args, ctx, b), Trace(CallLooks(pr, e.name, e.args, ctx, b), None));
  }

  predicate IsLeaf(e: Expr) {
    e.Literal? || e.Name? || e.Context? || e.Root? || e.Variable?
  }

  lemma LeafTells(c: Config, pr: Program, e: Expr, ctx: Option<FieldPath>, b: Bindings)
    requires IsLeaf(e)
    ensures Tells(Collect(c, e, ctx, b), RunOf(pr, e, ctx, b, Both))
  {
    assert [Anything][1..] == [];
    if e.Name? && ctx.Some? {
      var look := Named(ctx.value + [e.field]);
      assert [look][1..] == [];
      assert NamedIn([look]) == [look.path] + NamedIn([]);
      assert Wholes([look]) == [] + Wholes([]) && FilteredIn([look]) == [] + FilteredIn([]);
    }
  }

  lemma {:induction false} UseTells(c: Config, pr: Program, e: Expr, ctx: Option<FieldPath>, b: Bindings)
    requires ConfigFor(c, pr)
    ensures Says(Collect(c, e, ctx, b).Read(), Use(RunOf(pr, e, ctx, b, Both)))
    decreases e, 5
  {
    RunTells(c, pr, e, ctx, b);
    SaysUse(Collect(c, e, ctx, b), RunOf(pr, e, ctx, b, Both));
  }

  lemma {:induction false} FilterTells(c: Config, pr: Program, e: Expr, ctx: Option<FieldPath>, b: Bindings)
    requires ConfigFor(c, pr) && e.Filter?
    ensures Tells(Collect(c, e, ctx, b), RunOf(pr, e, ctx, b, Both))
    decreases e, 3
  {
    var r, t := Collect(c, e.base, ctx, b), RunOf(pr, e.base, ctx, b, Both);
    RunTells(c, pr, e.base, ctx, b);
    SaysFilters(r, t);
    UseTells(c, pr, e.test, t.from, b);
    SaysJoin(r.Filtered(), t.looks + (if t.from.Some? then [Filters(t.from.value)] else []),
             Collect(c, e.test, t.from, b).Read(), Use(RunOf(pr, e.test, t.from, b, Both)));
  }

  lemma {:induction false} ConditionTells(c: Config, pr: Program, e: Expr, ctx: Option<FieldPath>, b: Bindings)
    requires ConfigFor(c, pr) && e.Condition?
    ensures Tells(Collect(c, e, ctx, b), RunOf(pr, e, ctx, b, Both))
    decreases e, 3
  {
    hide Says;
    var r, t := Collect(c, e.guard, ctx, b).Read(), Use(RunOf(pr, e.guard, ctx, b, Both));
    var r', t' := Collect(c, e.yes, ctx, b).Read(), Use(RunOf(pr, e.yes, ctx, b, Both));
    UseTells(c, pr, e.guard, ctx, b);
    UseTells(c, pr, e.yes, ctx, b);
    SaysJoin(r, t, r', t');
    var all := r.Then(r');
    if e.no.Some? {
      var r'', t'' := Collect(c, e.no.value, ctx, b).Read(), Use(RunOf(pr, e.no.value, ctx, b, Both));
      UseTells(c, pr, e.no.value, ctx, b);
      SaysJoin(all, t + t', r'', t'');
      all := all.Then(r'');
      SaysDropped(all, t + t' + t'');
    } else {
      assert t + t' + [] == t + t';
      SaysDropped(all, t + t');
    }
  }

  lemma SaysDropped(r: Report, looks: seq<Look>)
    requires Says(r, looks)
    ensures Tells(r.Drop(), Trace(looks, None))
  {
  }

  lemma {:induction false} AllTell(c: Config, pr: Program, parts: seq<Expr>, ctx: Option<FieldPath>, b: Bindings,
                                   k: nat)
    requires ConfigFor(c, pr)
    ensures Tells(CollectValues(c, parts, ctx, b), Trace(UseAll(pr, parts, ctx, b, Both, k), None))
    decreases parts, 0
  {
    if parts != [] {
      UseTells(c, pr, parts[0], ctx, b);
      AllTell(c, pr, parts[1..], ctx, b, k + 1);
      SaysJoin(Collect(c, parts[0], ctx, b).Read(), Use(RunOf(pr, parts[0], ctx, b, Both)),
               CollectValues(c, parts[1..], ctx, b), UseAll(pr, parts[1..], ctx, b, Both, k + 1));
    }
  }

  lemma {:induction false} StatementTells(c: Config, pr: Program, s: Statement, ctx: Option<FieldPath>, b: Bindings)
    requires ConfigFor(c, pr)
    ensures Tells(CollectStatement(c, s, ctx, b), RunStatement(pr, s, ctx, b, Both))
    decreases s, 0
  {
    RunTells(c, pr, s.e, ctx, b);
  }

  lemma {:induction false} BlockTells(c: Config, pr: Program, statements: seq<Statement>, ctx: Option<FieldPath>,
                                      b: Bindings, k: nat)
    requires ConfigFor(c, pr)
    ensures Tells(CollectBlock(c, statements, ctx, b), RunBlock(pr, statements, ctx, b, Both, k))
    decreases statements, 0
  {
    if statements != [] {
      var s := statements[0];
      var r, t := CollectStatement(c, s, ctx, b), RunStatement(pr, s, ctx, b, Both);
      StatementTells(c, pr, s, ctx, b);
      if |statements| > 1 {
        assert s.Do? || multiset(c.bound)[s.name] == TimesBound(pr.whole, s.name);
        var next := if s.Let? then Bind(c, s.name, r.path, b) else b;
        BlockTells(c, pr, statements[1..], ctx, next, k + 1);
        SaysUse(r, t);
        SaysJoin(if s.Let? then r else r.Read(), if s.Let? then t.looks else Use(t),
                 CollectBlock(c, statements[1..], ctx, next),
                     RunBlock(pr, statements[1..], ctx, next, Both, k + 1).looks);
      }
    }
  }

  /** A step, after what it runs over was looked at. */
  lemma StepTells(step: Expr, first: bool, cur: Option<FieldPath>, r: Report, t: Trace)
    requires Tells(r, t)
    ensures var before := if !first && !IsFieldStep(step) && cur != Some([]) then Seen(cur) else [];
            Tells(StepInput(step, first, cur).Then(r), Trace(before + t.looks, t.from))
  {
    hide Says;
    var before := if !first && !IsFieldStep(step) && cur != Some([]) then Seen(cur) else [];
    FieldStepIs(step);
    SaysSeen(cur);
    assert Tells(StepInput(step, first, cur), Trace(before, StepInput(step, first, cur).path));
    SaysJoin(StepInput(step, first, cur), before, r, t.looks);
  }

  /** One trace after another, whose result is the result. */
  lemma TellsJoin(r: Report, t: Trace, next: Report, rest: Trace)
    requires Tells(r, t) && Tells(next, rest)
    ensures Tells(r.Then(next), Trace(t.looks + rest.looks, rest.from))
  {
    SaysJoin(r, t.looks, next, rest.looks);
  }

  /** A step and those after it. */
  lemma StepThenRest(c: Config, pr: Program, path: Expr, i: nat, cur: Option<FieldPath>, b: Bindings, t: Trace)
    requires path.Path? && i < |path.steps| && t == RunOf(pr, path.steps[i], cur, b, Both)
    requires Tells(Collect(c, path.steps[i], cur, b), t)
    requires Tells(CollectSteps(c, path, i + 1, t.from, b), RunSteps(pr, path, i + 1, t.from, b, Both))
    ensures Tells(CollectSteps(c, path, i, cur, b), RunSteps(pr, path, i, cur, b, Both))
  {
    hide Says, StepInput, IsFieldStep, Seen, Collect, RunOf, Report.Then;
    var step := path.steps[i];
    StepTells(step, i == 0, cur, Collect(c, step, cur, b), t);
    var before := if i > 0 && !IsFieldStep(step) && cur != Some([]) then Seen(cur) else [];
    TellsJoin(CollectStep(c, step, i == 0, cur, b), Trace(before + t.looks, t.from),
              CollectSteps(c, path, i + 1, t.from, b), RunSteps(pr, path, i + 1, t.from, b, Both));
  }

  lemma {:induction false} StepsTell(c: Config, pr: Program, path: Expr, i: nat, cur: Option<FieldPath>, b: Bindings)
    requires ConfigFor(c, pr) && path.Path? && i <= |path.steps|
    ensures Tells(CollectSteps(c, path, i, cur, b), RunSteps(pr, path, i, cur, b, Both))
    decreases path, 0, |path.steps| - i
  {
    if i == |path.steps| {
      SaysSeen(cur);
    } else {
      hide Tells, Collect, RunOf, RunSteps, CollectSteps;
      var t := RunOf(pr, path.steps[i], cur, b, Both);
      RunTells(c, pr, path.steps[i], cur, b);
      StepsTell(c, pr, path, i + 1, t.from, b);
      StepThenRest(c, pr, path, i, cur, b, t);
    }
  }

  /** A run whose ways go on less, or that knows less, looks at less. */
  predicate Within(t: Trace, u: Trace) {
    LessPath(t.from, u.from) && forall l :: l in t.looks ==> l in u.looks
  }

  predicate Among(looks: seq<Look>, more: seq<Look>) {
    forall l :: l in looks ==> l in more
  }

  lemma UsedWithin(t: Trace, u: Trace)
    requires Within(t, u)
    ensures Among(Use(t), Use(u))
  {
  }

  lemma {:induction false} RunWithin(pr: Program, e: Expr, p: Option<FieldPath>, q: Option<FieldPath>, b: Bindings,
                                     d: Bindings, ch: Choices)
    requires LessPath(p, q) && LessBindings(b, d)
    ensures Within(RunOf(pr, e, p, b, ch), RunOf(pr, e, q, d, Both))
    decreases e, 4
  {
    match e
    case Path(_) => StepsWithin(pr, e, 0, p, q, b, d, ch);
    case Pick(base, _) => RunWithin(pr, base, p, q, b, d, ch.Part(0));
    case Filter(_, _) => FilterWithin(pr, e, p, q, b, d, ch);
    case Binary(_, left, right) =>
      UseWithin(pr, left, p, q, b, d, ch.Part(0));
      UseWithin(pr, right, p, q, b, d, ch.Part(1));
    case Negate(operand) => UseWithin(pr, operand, p, q, b, d, ch.Part(0));
    case Condition(_, _, _) => BranchesWithin(pr, e, p, q, b, d, ch);
    case ArrayOf(parts) => AllWithin(pr, parts, p, q, b, d, ch, 0);
    case Call(_, args) => AllWithin(pr, args, p, q, b, d, ch, 0);
    case Block(statements) => BlockWithin(pr, statements, p, q, b, d, ch, 0);
    case _ =>
  }

  lemma {:induction false} FilterWithin(pr: Program, e: Expr, p: Option<FieldPath>, q: Option<FieldPath>, b: Bindings,
                                        d: Bindings, ch: Choices)
    requires e.Filter? && LessPath(p, q) && LessBindings(b, d)
    ensures Within(RunOf(pr, e, p, b, ch), RunOf(pr, e, q, d, Both))
    decreases e, 3
  {
    RunWithin(pr, e.base, p, q, b, d, ch.Part(0));
    UseWithin(pr, e.test, RunOf(pr, e.base, p, b, ch.Part(0)).from, RunOf(pr, e.base, q, d, Both).from, b, d,
              ch.Part(1));
  }

  lemma {:induction false} BranchesWithin(pr: Program, e: Expr, p: Option<FieldPath>, q: Option<FieldPath>, b: Bindings,
                                          d: Bindings, ch: Choices)
    requires e.Condition? && LessPath(p, q) && LessBindings(b, d)
    ensures Within(RunOf(pr, e, p, b, ch), RunOf(pr, e, q, d, Both))
    decreases e, 3
  {
    UseWithin(pr, e.guard, p, q, b, d, ch.Part(0));
    UseWithin(pr, e.yes, p, q, b, d, ch.Part(1));
    if e.no.Some? {
      UseWithin(pr, e.no.value, p, q, b, d, ch.Part(2));
    }
  }

  lemma {:induction false} UseWithin(pr: Program, e: Expr, p: Option<FieldPath>, q: Option<FieldPath>, b: Bindings,
                                     d: Bindings, ch: Choices)
    requires LessPath(p, q) && LessBindings(b, d)
    ensures Among(Use(RunOf(pr, e, p, b, ch)), Use(RunOf(pr, e, q, d, Both)))
    decreases e, 5
  {
    RunWithin(pr, e, p, q, b, d, ch);
  }

  lemma {:induction false} AllWithin(pr: Program, parts: seq<Expr>, p: Option<FieldPath>, q: Option<FieldPath>,
                                     b: Bindings, d: Bindings, ch: Choices, k: nat)
    requires LessPath(p, q) && LessBindings(b, d)
    ensures Among(UseAll(pr, parts, p, b, ch, k), UseAll(pr, parts, q, d, Both, k))
    decreases parts, 0
  {
    if parts != [] {
      UseWithin(pr, parts[0], p, q, b, d, ch.Part(k));
      AllWithin(pr, parts[1..], p, q, b, d, ch, k + 1);
    }
  }

  lemma {:induction false} StatementWithin(pr: Program, s: Statement, p: Option<FieldPath>, q: Option<FieldPath>,
                                           b: Bindings, d: Bindings, ch: Choices)
    requires LessPath(p, q) && LessBindings(b, d)
    ensures Within(RunStatement(pr, s, p, b, ch), RunStatement(pr, s, q, d, Both))
    decreases s, 0
  {
    RunWithin(pr, s.e, p, q, b, d, ch);
  }

  lemma {:induction false} BlockWithin(pr: Program, statements: seq<Statement>, p: Option<FieldPath>,
                                       q: Option<FieldPath>, b: Bindings, d: Bindings, ch: Choices, k: nat)
    requires LessPath(p, q) && LessBindings(b, d)
    ensures Within(RunBlock(pr, statements, p, b, ch, k), RunBlock(pr, statements, q, d, Both, k))
    decreases statements, 0
  {
    if statements != [] {
      var s := statements[0];
      var t, u := RunStatement(pr, s, p, b, ch.Part(k)), RunStatement(pr, s, q, d, Both);
      StatementWithin(pr, s, p, q, b, d, ch.Part(k));
      if |statements| > 1 {
        var b', d' := if s.Let? then b[s.name := Holding(pr, s.name, t.from)] else b,
            if s.Let? then d[s.name := Holding(pr, s.name, u.from)] else d;
        BlockWithin(pr, statements[1..], p, q, b', d', ch, k + 1);
        UsedWithin(t, u);
      }
    }
  }

  lemma {:induction false} StepsWithin(pr: Program, path: Expr, i: nat, p: Option<FieldPath>, q: Option<FieldPath>,
                                       b: Bindings, d: Bindings, ch: Choices)
    requires path.Path? && i <= |path.steps| && LessPath(p, q) && LessBindings(b, d)
    ensures Within(RunSteps(pr, path, i, p, b, ch), RunSteps(pr, path, i, q, d, Both))
    decreases path, 0, |path.steps| - i
  {
    if i < |path.steps| && ch.Part(i).Yes() {
      var t := RunOf(pr, path.steps[i], p, b, ch.Part(i).Part(0));
      RunWithin(pr, path.steps[i], p, q, b, d, ch.Part(i).Part(0));
      StepsWithin(pr, path, i + 1, t.from, RunOf(pr, path.steps[i], q, d, Both).from, b, d, ch);
    }
  }

  /** From its k-th part on, a run goes on. */
  predicate GoesOn(ch: Choices, k: nat) {
    ch.Choices? && |ch.parts| <= k
  }

  /** Going on, a result is where it is with every way taken. */
  lemma {:induction false} OnIsSame(pr: Program, e: Expr, ctx: Option<FieldPath>, b: Bindings)
    ensures RunOf(pr, e, ctx, b, GOING_ON).from == RunOf(pr, e, ctx, b, Both).from
    decreases e, 4
  {
    match e
    case Path(_) => StepsSame(pr, e, 0, ctx, b, GOING_ON);
    case Pick(base, _) => OnIsSame(pr, base, ctx, b);
    case Filter(base, _) => OnIsSame(pr, base, ctx, b);
    case Block(statements) => BlockIsSame(pr, statements, ctx, b, GOING_ON, 0);
    case _ =>
  }

  lemma {:induction false} StatementIsSame(pr: Program, s: Statement, ctx: Option<FieldPath>, b: Bindings)
    ensures RunStatement(pr, s, ctx, b, GOING_ON).from == RunStatement(pr, s, ctx, b, Both).from
    decreases s, 0
  {
    OnIsSame(pr, s.e, ctx, b);
  }

  lemma {:induction false} BlockIsSame(pr: Program, statements: seq<Statement>, ctx: Option<FieldPath>, b: Bindings,
                                       ch: Choices, k: nat)
    requires GoesOn(ch, k)
    ensures RunBlock(pr, statements, ctx, b, ch, k).from == RunBlock(pr, statements, ctx, b, Both, k).from
    decreases statements, 0
  {
    if statements != [] {
      var s := statements[0];
      StatementIsSame(pr, s, ctx, b);
      var t := RunStatement(pr, s, ctx, b, Both);
      BlockIsSame(pr, statements[1..], ctx, if s.Let? then b[s.name := Holding(pr, s.name, t.from)] else b, ch, k + 1);
    }
  }

  lemma {:induction false} StepsSame(pr: Program, path: Expr, i: nat, cur: Option<FieldPath>, b: Bindings, ch: Choices)
    requires path.Path? && i <= |path.steps| && GoesOn(ch, i)
    ensures RunSteps(pr, path, i, cur, b, ch).from == RunSteps(pr, path, i, cur, b, Both).from
    decreases path, 0, |path.steps| - i
  {
    if i < |path.steps| {
      OnIsSame(pr, path.steps[i], cur, b);
      StepsSame(pr, path, i + 1, RunOf(pr, path.steps[i], cur, b, Both).from, b, ch);
    }
  }

  /** Going on, but for the k-th part. */
  function Going(k: nat, part: Choices): (ch: Choices)
    ensures ch.Choices? && ch.Yes() && ch.Part(k) == part && GoesOn(ch, k + 1)
    ensures forall j :: 0 <= j < k ==> ch.Part(j) == GOING_ON
    ensures Decided(part) ==> Decided(ch)
  {
    Choices(true, false, seq(k, _ => GOING_ON) + [part])
  }

  /** A run's result is where it is with every way taken, and it looks at what it is meant to. */
  predicate Reaches(t: Trace, all: Trace, l: Look) {
    t.from == all.from && (l in all.looks ==> l in t.looks)
  }

  lemma UsedReaches(t: Trace, all: Trace, l: Look)
    requires Reaches(t, all, l)
    ensures l in Use(all) ==> l in Use(t)
  {
  }

  /** Of what is looked at with every way taken, each is looked at in some decided run. */
  lemma {:induction false} Reach(pr: Program, e: Expr, ctx: Option<FieldPath>, b: Bindings, l: Look)
    returns (ch: Choices)
    ensures Decided(ch) && Reaches(RunOf(pr, e, ctx, b, ch), RunOf(pr, e, ctx, b, Both), l)
    decreases e, 4
  {
    match e
    case Path(_) => ch := ReachStep(pr, e, 0, ctx, b, l);
    case Pick(base, _) =>
      var part := Reach(pr, base, ctx, b, l);
      ch := Going(0, part);
    case Filter(_, _) => ch := ReachFilter(pr, e, ctx, b, l);
    case Binary(_, left, right) =>
      var first := Reach(pr, left, ctx, b, l);
      var second := Reach(pr, right, ctx, b, l);
      ch := Choices(true, false, [first, second]);
      UsedReaches(RunOf(pr, left, ctx, b, first), RunOf(pr, left, ctx, b, Both), l);
      UsedReaches(RunOf(pr, right, ctx, b, second), RunOf(pr, right, ctx, b, Both), l);
    case Negate(operand) =>
      var part := Reach(pr, operand, ctx, b, l);
      UsedReaches(RunOf(pr, operand, ctx, b, part), RunOf(pr, operand, ctx, b, Both), l);
      ch := Going(0, part);
    case Condition(_, _, _) => ch := ReachBranch(pr, e, ctx, b, l);
    case ArrayOf(parts) => ch := ReachPart(pr, parts, ctx, b, 0, l);
    case Call(_, args) => ch := ReachPart(pr, args, ctx, b, 0, l);
    case Block(statements) => ch := ReachBlock(pr, statements, ctx, b, 0, l);
    case _ => ch := GOING_ON;
  }

  lemma {:induction false} ReachFilter(pr: Program, e: Expr, ctx: Option<FieldPath>, b: Bindings, l: Look)
    returns (ch: Choices)
    requires e.Filter?
    ensures Decided(ch) && Reaches(RunOf(pr, e, ctx, b, ch), RunOf(pr, e, ctx, b, Both), l)
    decreases e, 3
  {
    var base := Reach(pr, e.base, ctx, b, l);
    var t := RunOf(pr, e.base, ctx, b, Both);
    var test := Reach(pr, e.test, t.from, b, l);
    UsedReaches(RunOf(pr, e.test, t.from, b, test), RunOf(pr, e.test, t.from, b, Both), l);
    ch := Choices(true, false, [base, test]);
  }

  lemma {:induction false} ReachBranch(pr: Program, e: Expr, ctx: Option<FieldPath>, b: Bindings, l: Look)
    returns (ch: Choices)
    requires e.Condition?
    ensures Decided(ch) && Reaches(RunOf(pr, e, ctx, b, ch), RunOf(pr, e, ctx, b, Both), l)
    decreases e, 3
  {
    var guard := Reach(pr, e.guard, ctx, b, l);
    var yes := Reach(pr, e.yes, ctx, b, l);
    UsedReaches(RunOf(pr, e.guard, ctx, b, guard), RunOf(pr, e.guard, ctx, b, Both), l);
    UsedReaches(RunOf(pr, e.yes, ctx, b, yes), RunOf(pr, e.yes, ctx, b, Both), l);
    ch := Choices(true, false, [guard, yes]);
    if e.no.Some? && l in Use(RunOf(pr, e.no.value, ctx, b, Both)) {
      ch := ReachElse(pr, e, ctx, b, l);
    }
  }

  lemma {:induction false} ReachElse(pr: Program, e: Expr, ctx: Option<FieldPath>, b: Bindings, l: Look)
    returns (ch: Choices)
    requires e.Condition? && e.no.Some? && l in Use(RunOf(pr, e.no.value, ctx, b, Both))
    ensures Decided(ch) && Reaches(RunOf(pr, e, ctx, b, ch), RunOf(pr, e, ctx, b, Both), l)
    decreases e, 2
  {
    var no := Reach(pr, e.no.value, ctx, b, l);
    UsedReaches(RunOf(pr, e.no.value, ctx, b, no), RunOf(pr, e.no.value, ctx, b, Both), l);
    ch := Choices(false, true, [GOING_ON, GOING_ON, no]);
  }

  lemma {:induction false} ReachPart(pr: Program, parts: seq<Expr>, ctx: Option<FieldPath>, b: Bindings, k: nat,
                                     l: Look)
    returns (ch: Choices)
    ensures Decided(ch) && (forall j :: 0 <= j < k ==> ch.Part(j) == GOING_ON)
    ensures l in UseAll(pr, parts, ctx, b, Both, k) ==> l in UseAll(pr, parts, ctx, b, ch, k)
    decreases parts, 0
  {
    if parts == [] {
      ch := GOING_ON;
    } else if l in Use(RunOf(pr, parts[0], ctx, b, Both)) {
      var part := Reach(pr, parts[0], ctx, b, l);
      UsedReaches(RunOf(pr, parts[0], ctx, b, part), RunOf(pr, parts[0], ctx, b, Both), l);
      ch := Going(k, part);
    } else {
      ch := ReachPart(pr, parts[1..], ctx, b, k + 1, l);
    }
  }

  lemma {:induction false} ReachStatement(pr: Program, s: Statement, ctx: Option<FieldPath>, b: Bindings, l: Look)
    returns (ch: Choices)
    ensures Decided(ch) && Reaches(RunStatement(pr, s, ctx, b, ch), RunStatement(pr, s, ctx, b, Both), l)
    decreases s, 0
  {
    ch := Reach(pr, s.e, ctx, b, l);
  }

  lemma {:induction false} ReachBlock(pr: Program, statements: seq<Statement>, ctx: Option<FieldPath>, b: Bindings,
                                      k: nat, l: Look)
    returns (ch: Choices)
    ensures Decided(ch) && (forall j :: 0 <= j < k ==> ch.Part(j) == GOING_ON)
    ensures Reaches(RunBlock(pr, statements, ctx, b, ch, k), RunBlock(pr, statements, ctx, b, Both, k), l)
    decreases statements, 0
  {
    ch := GOING_ON;
    if statements != [] {
      var s := statements[0];
      var t := RunStatement(pr, s, ctx, b, Both);
      var next := if s.Let? then b[s.name := Holding(pr, s.name, t.from)] else b;
      if |statements| == 1 || l in if s.Let? then t.looks else Use(t) {
        var part := ReachStatement(pr, s, ctx, b, l);
        UsedReaches(RunStatement(pr, s, ctx, b, part), t, l);
        ch := Going(k, part);
        BlockIsSame(pr, statements[1..], ctx, next, ch, k + 1);
      } else {
        StatementIsSame(pr, s, ctx, b);
        ch := ReachBlock(pr, statements[1..], ctx, next, k + 1, l);
      }
    }
  }

  lemma {:induction false} ReachStep(pr: Program, path: Expr, i: nat, cur: Option<FieldPath>, b: Bindings, l: Look)
    returns (ch: Choices)
    requires path.Path? && i <= |path.steps|
    ensures Decided(ch) && (forall j :: 0 <= j < i ==> ch.Part(j) == GOING_ON)
    ensures Reaches(RunSteps(pr, path, i, cur, b, ch), RunSteps(pr, path, i, cur, b, Both), l)
    decreases path, 0, |path.steps| - i
  {
    ch := GOING_ON;
    if i < |path.steps| {
      var t := RunOf(pr, path.steps[i], cur, b, Both);
      if l in t.looks {
        var part := Reach(pr, path.steps[i], cur, b, l);
        ch := Going(i, Going(0, part));
        StepsSame(pr, path, i + 1, t.from, b, ch);
      } else {
        OnIsSame(pr, path.steps[i], cur, b);
        ch := ReachStep(pr, path, i + 1, t.from, b, l);
      }
    }
  }

  /** Some run looks at l. */
  ghost predicate LooksAt(e: Expr, readsContext: (string, ArgTypes) -> bool, l: Look) {
    exists ch :: Decided(ch) && l in LooksOf(e, readsContext, ch)
  }

  /** Taking every way is to look at what the runs look at. */
  lemma EveryWay(e: Expr, readsContext: (string, ArgTypes) -> bool, l: Look)
    ensures l in LooksOf(e, readsContext, Both) <==> LooksAt(e, readsContext, l)
  {
    var pr := Program(e, readsContext);
    var all := RunOf(pr, e, Some([]), map[], Both);
    var ch := Reach(pr, e, Some([]), map[], l);
    UsedReaches(RunOf(pr, e, Some([]), map[], ch), all, l);
    if LooksAt(e, readsContext, l) {
      var some :| Decided(some) && l in LooksOf(e, readsContext, some);
      RunWithin(pr, e, Some([]), Some([]), map[], map[], some);
      UsedWithin(RunOf(pr, e, Some([]), map[], some), all);
    }
  }
}
