/** When a run may look at anything: a matter of the variables and functions it uses. */
module PathUnknown {
  import opened Wrappers
  import opened PathEval
  import opened PathPruning
  import opened PathReads
  import opened PathRuns

  /** A variable is used that is not in scope or is bound more than once, or called, or eval is. */
  predicate UsesUnknown(whole: Expr, e: Expr, scope: set<string>)
    decreases e, 1
  {
    match e
    case Variable(name) => name !in scope || TimesBound(whole, name) > 1
    case Path(steps) => AnyUnknown(whole, steps, scope)
    case Pick(base, _) => UsesUnknown(whole, base, scope)
    case Filter(base, test) => UsesUnknown(whole, base, scope) || UsesUnknown(whole, test, scope)
    case Binary(_, left, right) => UsesUnknown(whole, left, scope) || UsesUnknown(whole, right, scope)
    case Negate(operand) => UsesUnknown(whole, operand, scope)
    case Condition(guard, yes, no) =>
      || UsesUnknown(whole, guard, scope) || UsesUnknown(whole, yes, scope)
      || (no.Some? && UsesUnknown(whole, no.value, scope))
    case ArrayOf(parts) => AnyUnknown(whole, parts, scope)
    case Call(name, args) =>
      || name in scope || (name == "eval" && TimesBound(whole, name) == 0)
      || AnyUnknown(whole, args, scope)
    case Block(statements) => StatementsUnknown(whole, statements, scope)
    case _ => false
  }

  predicate AnyUnknown(whole: Expr, parts: seq<Expr>, scope: set<string>)
    decreases parts, 0
  {
    parts != [] && (UsesUnknown(whole, parts[0], scope) || AnyUnknown(whole, parts[1..], scope))
  }

  predicate StatementUnknown(whole: Expr, s: Statement, scope: set<string>)
    decreases s, 0
  {
    UsesUnknown(whole, s.e, scope)
  }

  /** A block's variable is in scope in the statements after its own. */
  predicate StatementsUnknown(whole: Expr, statements: seq<Statement>, scope: set<string>)
    decreases statements, 0
  {
    && statements != []
    && (|| StatementUnknown(whole, statements[0], scope)
        || StatementsUnknown(whole, statements[1..],
                             if statements[0].Let? then scope + {statements[0].name} else scope))
  }

  ghost predicate Fits(whole: Expr, b: Bindings, scope: set<string>) {
    b.Keys == scope && forall x :: x in b ==> (b[x].Free? <==> TimesBound(whole, x) > 1)
  }

  /** A run may look at anything exactly when it uses something unknown. */
  lemma {:induction false} AnythingExactly(pr: Program, e: Expr, ctx: Option<FieldPath>, b: Bindings,
                                           scope: set<string>)
    requires Fits(pr.whole, b, scope)
    ensures Anything in RunOf(pr, e, ctx, b, Both).looks <==> UsesUnknown(pr.whole, e, scope)
    decreases e, 4
  {
    match e
    case Path(steps) =>
      StepsExactly(pr, e, 0, ctx, b, scope);
      assert steps[0..] == steps;
    case Pick(base, _) => AnythingExactly(pr, base, ctx, b, scope);
    case Filter(base, test) =>
      AnythingExactly(pr, base, ctx, b, scope);
      UsedExactly(pr, test, RunOf(pr, base, ctx, b, Both).from, b, scope);
    case Binary(_, left, right) =>
      UsedExactly(pr, left, ctx, b, scope);
      UsedExactly(pr, right, ctx, b, scope);
    case Negate(operand) => UsedExactly(pr, operand, ctx, b, scope);
    case Condition(_, _, _) => BranchesExactly(pr, e, ctx, b, scope);
    case ArrayOf(parts) => AllExactly(pr, parts, ctx, b, scope, 0);
    case Call(_, args) => AllExactly(pr, args, ctx, b, scope, 0);
    case Block(statements) => BlockExactly(pr, statements, ctx, b, scope, 0);
    case _ =>
  }

  lemma {:induction false} UsedExactly(pr: Program, e: Expr, ctx: Option<FieldPath>, b: Bindings, scope: set<string>)
    requires Fits(pr.whole, b, scope)
    ensures Anything in Use(RunOf(pr, e, ctx, b, Both)) <==> UsesUnknown(pr.whole, e, scope)
    decreases e, 5
  {
    AnythingExactly(pr, e, ctx, b, scope);
  }

  lemma {:induction false} BranchesExactly(pr: Program, e: Expr, ctx: Option<FieldPath>, b: Bindings,
                                           scope: set<string>)
    requires e.Condition? && Fits(pr.whole, b, scope)
    ensures Anything in RunOf(pr, e, ctx, b, Both).looks <==> UsesUnknown(pr.whole, e, scope)
    decreases e, 3
  {
    hide Use, Fits;
    UsedExactly(pr, e.guard, ctx, b, scope);
    UsedExactly(pr, e.yes, ctx, b, scope);
    if e.no.Some? {
      UsedExactly(pr, e.no.value, ctx, b, scope);
    }
  }

  lemma {:induction false} AllExactly(pr: Program, parts: seq<Expr>, ctx: Option<FieldPath>, b: Bindings,
                                      scope: set<string>, k: nat)
    requires Fits(pr.whole, b, scope)
    ensures Anything in UseAll(pr, parts, ctx, b, Both, k) <==> AnyUnknown(pr.whole, parts, scope)
    decreases parts, 0
  {
    if parts != [] {
      AnythingExactly(pr, parts[0], ctx, b, scope);
      AllExactly(pr, parts[1..], ctx, b, scope, k + 1);
    }
  }

  lemma {:induction false} StatementExactly(pr: Program, s: Statement, ctx: Option<FieldPath>, b: Bindings,
                                            scope: set<string>)
    requires Fits(pr.whole, b, scope)
    ensures Anything in RunStatement(pr, s, ctx, b, Both).looks <==> StatementUnknown(pr.whole, s, scope)
    decreases s, 0
  {
    AnythingExactly(pr, s.e, ctx, b, scope);
  }

  lemma {:induction false} BlockExactly(pr: Program, statements: seq<Statement>, ctx: Option<FieldPath>, b: Bindings,
                                        scope: set<string>, k: nat)
    requires Fits(pr.whole, b, scope)
    ensures Anything in RunBlock(pr, statements, ctx, b, Both, k).looks
            <==> StatementsUnknown(pr.whole, statements, scope)
    decreases statements, 0
  {
    if statements != [] {
      var s := statements[0];
      var t := RunStatement(pr, s, ctx, b, Both);
      StatementExactly(pr, s, ctx, b, scope);
      var next := if s.Let? then b[s.name := Holding(pr, s.name, t.from)] else b;
      BlockExactly(pr, statements[1..], ctx, next, if s.Let? then scope + {s.name} else scope, k + 1);
    }
  }

  lemma {:induction false} StepsExactly(pr: Program, path: Expr, i: nat, cur: Option<FieldPath>, b: Bindings,
                                        scope: set<string>)
    requires path.Path? && i <= |path.steps| && Fits(pr.whole, b, scope)
    ensures Anything in RunSteps(pr, path, i, cur, b, Both).looks <==> AnyUnknown(pr.whole, path.steps[i..], scope)
    decreases path, 0, |path.steps| - i
  {
    if i < |path.steps| {
      AnythingExactly(pr, path.steps[i], cur, b, scope);
      StepsExactly(pr, path, i + 1, RunOf(pr, path.steps[i], cur, b, Both).from, b, scope);
      assert path.steps[i..][1..] == path.steps[i + 1..];
    }
  }
}
