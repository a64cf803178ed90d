/** A run of an expression that follows where in the input each value is, instead of the value itself: what it looks
    at there, whatever decides the way it takes. */
module PathRuns {
  import opened Wrappers
  import opened Trees
  import opened PathEval
  import opened PathPruning
  import opened PathReads

  /** A field is looked up by name, a value is looked at as a whole, a computed filter is applied to what is at a path,
      or
      anything may be looked at. */
  datatype Look = Named(path: FieldPath) | Whole(path: FieldPath) | Filters(path: FieldPath) | Anything

  /** What a run looks at, in order, and where in the input its result is, if it is there. */
  datatype Trace = Trace(looks: seq<Look>, from: Option<FieldPath>)

  /** The way a run takes: whether it goes on where it may stop, or takes a condition's branches, over one item or
      another both of them; and so for the parts. Both is every way at once. */
  datatype Choices = Both | Choices(yes: bool, no: bool, parts: seq<Choices>) {
    predicate Yes() {
      Both? || yes
    }

    predicate No() {
      Both? || no
    }

    function Part(i: nat): Choices {
      if Both? then Both else if i < |parts| then parts[i] else GOING_ON
    }
  }

  const GOING_ON: Choices := Choices(true, false, [])

  /** The expression of which a part runs, and which builtins look at their context. */
  datatype Program = Program(whole: Expr, readsContext: (string, ArgTypes) -> bool)

  /** How often a name is bound in an expression. */
  function TimesBound(e: Expr, name: string): nat
    decreases e, 0
  {
    match e
    case Path(steps) => TimesBoundIn(steps, name)
    case Pick(base, _) => TimesBound(base, name)
    case Filter(base, test) => TimesBound(base, name) + TimesBound(test, name)
    case Binary(_, left, right) => TimesBound(left, name) + TimesBound(right, name)
    case Negate(operand) => TimesBound(operand, name)
    case Condition(guard, yes, no) =>
      TimesBound(guard, name) + TimesBound(yes, name) + if no.Some? then TimesBound(no.value, name) else 0
    case ArrayOf(parts) => TimesBoundIn(parts, name)
    case Call(_, args) => TimesBoundIn(args, name)
    case Block(statements) => TimesSet(statements, name)
    case _ => 0
  }

  function TimesBoundIn(parts: seq<Expr>, name: string): nat
    decreases parts, 0
  {
    if parts == [] then 0 else TimesBound(parts[0], name) + TimesBoundIn(parts[1..], name)
  }

  function TimesSet(statements: seq<Statement>, name: string): nat
    decreases statements, 0
  {
    if statements == [] then 0 else TimesSetBy(statements[0], name) + TimesSet(statements[1..], name)
  }

  function TimesSetBy(s: Statement, name: string): nat
    decreases s, 0
  {
    TimesBound(s.e, name) + if s.Let? && s.name == name then 1 else 0
  }

  function Seen(p: Option<FieldPath>): seq<Look> {
    if p.Some? then [Whole(p.value)] else []
  }

  /** What a run looks at whose result is used: that too. */
  function Use(t: Trace): seq<Look> {
    t.looks + Seen(t.from)
  }

  /** A literal's type in a signature. */
  function SymbolOf(e: Expr): Option<char> {
    if e.ArrayOf? then Some('a')
    else if !e.Literal? then None
    else if e.value.StrTree? then Some('s')
    else if e.value.NumTree? then Some('n')
    else if e.value.BoolTree? then Some('b')
    else if e.value.NullTree? then Some('l')
    else None
  }

  /** A step that looks fields up in its context, or passes it on. */
  predicate IsFieldStep(step: Expr) {
    match step
    case Name(_) => true
    case Context => true
    case Pick(base, _) => IsFieldStep(base)
    case Filter(base, _) => IsFieldStep(base)
    case _ => false
  }

  /** A call looks at its context if the name is bound in the expression, but not here, or is that of a builtin that
      does; a variable called may look at anything, and so may eval. */
  function CallLooks(pr: Program, name: string, args: seq<Expr>, ctx: Option<FieldPath>, vars: Bindings): seq<Look> {
    if name in vars then [Anything]
    else if TimesBound(pr.whole, name) > 0 then Seen(ctx)
    else
      (if name == "eval" then [Anything] else [])
      + if pr.readsContext(name, seq(|args|, i requires 0 <= i < |args| => SymbolOf(args[i]))) then Seen(ctx) else []
  }

  /** A variable bound more than once may hold anything. */
  function Holding(pr: Program, name: string, p: Option<FieldPath>): Binding {
    if TimesBound(pr.whole, name) > 1 then Free else Holds(p)
  }

  function RunOf(pr: Program, e: Expr, ctx: Option<FieldPath>, vars: Bindings, ch: Choices): Trace
    decreases e, 1
  {
    match e
    case Literal(_) => Trace([], None)
    case Name(field) => if ctx.None? then Trace([], None)
        else Trace([Named(ctx.value + [field])], Some(ctx.value + [field]))
    case Context => Trace([], ctx)
    case Root => Trace([], Some([]))
    case Variable(name) =>
      if name in vars && vars[name].Holds? then Trace([], vars[name].path) else Trace([Anything], None)
    case Path(steps) => RunSteps(pr, e, 0, ctx, vars, ch)
    case Pick(base, _) => RunOf(pr, base, ctx, vars, ch.Part(0))
    case Filter(base, test) =>
      var t := RunOf(pr, base, ctx, vars, ch.Part(0));
      var filters := if t.from.Some? then [Filters(t.from.value)] else [];
      var within := if ch.Yes() then Use(RunOf(pr, test, t.from, vars, ch.Part(1))) else [];
      Trace(t.looks + filters + within, t.from)
    case Binary(op, left, right) =>
      var first := Use(RunOf(pr, left, ctx, vars, ch.Part(0)));
      Trace(first + if op.Strict? || ch.Yes() then Use(RunOf(pr, right, ctx, vars, ch.Part(1))) else [], None)
    case Negate(operand) => Trace(Use(RunOf(pr, operand, ctx, vars, ch.Part(0))), None)
    case Condition(guard, yes, no) =>
      var first := Use(RunOf(pr, guard, ctx, vars, ch.Part(0)));
      var second := if ch.Yes() then Use(RunOf(pr, yes, ctx, vars, ch.Part(1))) else [];
      Trace(first + second + if ch.No() && no.Some? then Use(RunOf(pr, no.value, ctx, vars, ch.Part(2))) else [], None)
    case ArrayOf(parts) => Trace(UseAll(pr, parts, ctx, vars, ch, 0), None)
    case Call(name, args) => Trace(UseAll(pr, args, ctx, vars, ch, 0) + CallLooks(pr, name, args, ctx, vars), None)
    case Block(statements) => RunBlock(pr, statements, ctx, vars, ch, 0)
  }

  /** Every part's result is used; the k-th choice is the first part's. */
  function UseAll(pr: Program, parts: seq<Expr>, ctx: Option<FieldPath>, vars: Bindings, ch: Choices, k: nat): seq<Look>
    decreases parts, 0
  {
    if parts == [] then []
    else Use(RunOf(pr, parts[0], ctx, vars, ch.Part(k))) + UseAll(pr, parts[1..], ctx, vars, ch, k + 1)
  }

  function RunStatement(pr: Program, s: Statement, ctx: Option<FieldPath>, vars: Bindings, ch: Choices): Trace
    decreases s, 0
  {
    RunOf(pr, s.e, ctx, vars, ch)
  }

  /** A statement's result is used unless it is bound to a variable, which is used where the variable is, or is
      the block's own. */
  function RunBlock(pr: Program, statements: seq<Statement>, ctx: Option<FieldPath>, vars: Bindings, ch: Choices,
                    k: nat): Trace
    decreases statements, 0
  {
    if statements == [] then Trace([], None)
    else
      var s := statements[0];
      var t := RunStatement(pr, s, ctx, vars, ch.Part(k));
      if |statements| == 1 then t
      else
        var next := if s.Let? then vars[s.name := Holding(pr, s.name, t.from)] else vars;
        var rest := RunBlock(pr, statements[1..], ctx, next, ch, k + 1);
        Trace((if s.Let? then t.looks else Use(t)) + rest.looks, rest.from)
  }

  /** The steps from the i-th on. A step runs unless there is nothing to run it over, which is seen by looking up its
      fields or else by looking at what it would run over. */
  function RunSteps(pr: Program, path: Expr, i: nat, cur: Option<FieldPath>, vars: Bindings, ch: Choices): Trace
    requires path.Path? && i <= |path.steps|
    decreases path, 0, |path.steps| - i
  {
    if i == |path.steps| then Trace([], cur)
    else
      var step := path.steps[i];
      var before := if i > 0 && !IsFieldStep(step) && cur != Some([]) then Seen(cur) else [];
      if !ch.Part(i).Yes() then Trace(before, None)
      else
        var t := RunOf(pr, step, cur, vars, ch.Part(i).Part(0));
        var rest := RunSteps(pr, path, i + 1, t.from, vars, ch);
        Trace(before + t.looks + rest.looks, rest.from)
  }

  /** What a run of an expression on its input looks at, its result included. */
  function LooksOf(e: Expr, readsContext: (string, ArgTypes) -> bool, ch: Choices): seq<Look> {
    Use(RunOf(Program(e, readsContext), e, Some([]), map[], ch))
  }

  /** A way that goes on or stops, and takes one branch of a condition. */
  predicate Decided(ch: Choices) {
    ch.Choices? && ch.yes != ch.no && forall i :: 0 <= i < |ch.parts| ==> Decided(ch.parts[i])
  }
}
