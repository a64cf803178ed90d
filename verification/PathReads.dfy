/** What an expression reads of its input, as a function of its shape. */
module PathReads {
  import opened Wrappers
  import opened Trees
  import opened PathEval
  import opened PathPruning

  /** A call's argument types: a literal's, or none. */
  type ArgTypes = seq<Option<char>>

  /** What is known of a variable: nothing, or the path of its value, if that is the input's. */
  datatype Binding = Free | Holds(path: Option<FieldPath>)

  type Bindings = map<string, Binding>

  /** The names the expression binds, with repeats, and the builtins' signatures. */
  datatype Config = Config(bound: seq<string>, readsContext: (string, ArgTypes) -> bool) {
    predicate Unstable(name: string) {
      multiset(bound)[name] > 1
    }
  }

  /** The path of an expression's result, the paths it reads whole in order, and whether these
      are all; touched are all the paths it names, and filtered the bases of its computed filters. */
  datatype Report = Report(path: Option<FieldPath>, recorded: seq<FieldPath>, complete: bool,
                           touched: seq<FieldPath>, filtered: seq<FieldPath>) {
    /** This, and then what reading its whole result adds. */
    function Read(): Report {
      match path
      case None => this
      case Some(p) => if p == [] then this.(complete := false) else this.(recorded := recorded + [p])
    }

    /** This and then next, whose result is the result. */
    function Then(next: Report): Report {
      Report(next.path, recorded + next.recorded, complete && next.complete, touched + next.touched, filtered
             + next.filtered)
    }

    function Drop(): Report {
      this.(path := None)
    }

    /** This is the base of a computed filter. */
    function Filtered(): Report {
      if path.None? then this else this.(filtered := filtered + [path.value])
    }
  }

  function PathIs(path: Option<FieldPath>): Report {
    Report(path, [], true, [], [])
  }

  const NOTHING: Report := PathIs(None)
  const INCOMPLETE: Report := Report(None, [], false, [], [])

  function AppendField(ctx: Option<FieldPath>, field: string): Report {
    match ctx
    case None => NOTHING
    case Some(p) => Report(Some(p + [field]), [], true, [p + [field]], [])
  }

  /** Running the step over nothing at a path yields nothing, so it need not be read first. */
  predicate ReadsFields(step: Expr) {
    StepBase(step).Name? || StepBase(step).Context?
  }

  function LiteralType(e: Expr): Option<char> {
    match e
    case Literal(t) =>
      (match t
       case StrTree(_) => Some('s')
       case NumTree(_) => Some('n')
       case NullTree => Some('l')
       case BoolTree(_) => Some('b')
       case _ => None)
    case ArrayOf(_) => Some('a')
    case _ => None
  }

  function LiteralTypes(args: seq<Expr>): (types: ArgTypes)
    ensures |types| == |args|
  {
    if args == [] then [] else [LiteralType(args[0])] + LiteralTypes(args[1..])
  }

  /** What a call reads besides its arguments: its context, unless the name is a variable's, which may
      be any function, or a builtin's whose signature does not. */
  function CallReads(c: Config, name: string, args: seq<Expr>, ctx: Option<FieldPath>, b: Bindings): Report {
    if name in b then INCOMPLETE
    else if name in c.bound then PathIs(ctx).Read().Drop()
    else
      var whole := if name == "eval" then INCOMPLETE else NOTHING;
      if c.readsContext(name, LiteralTypes(args)) then whole.Then(PathIs(ctx).Read()).Drop() else whole
  }

  function Variables(name: string, b: Bindings): Report {
    if name !in b || b[name].Free? then INCOMPLETE else PathIs(b[name].path)
  }

  function Bind(c: Config, name: string, path: Option<FieldPath>, b: Bindings): Bindings {
    b[name := if c.Unstable(name) then Free else Holds(path)]
  }

  /** The steps so far decide whether a step that reads no fields of them runs. */
  function StepInput(step: Expr, first: bool, cur: Option<FieldPath>): Report {
    if !first && !ReadsFields(step) && cur != Some([]) then PathIs(cur).Read() else PathIs(cur)
  }

  function Collect(c: Config, e: Expr, ctx: Option<FieldPath>, b: Bindings): Report
    decreases e, 1
  {
    match e
    case Literal(_) => NOTHING
    case Name(field) => AppendField(ctx, field)
    case Context => PathIs(ctx)
    case Root => PathIs(Some([]))
    case Variable(name) => Variables(name, b)
    case Path(steps) => CollectSteps(c, e, 0, ctx, b)
    case Pick(base, _) => Collect(c, base, ctx, b)
    case Filter(base, test) =>
      var elements := Collect(c, base, ctx, b).Filtered();
      elements.Then(Collect(c, test, elements.path, b).Read()).(path := elements.path)
    case Binary(_, left, right) => Collect(c, left, ctx, b).Read().Then(Collect(c, right, ctx, b).Read()).Drop()
    case Negate(operand) => Collect(c, operand, ctx, b).Read().Drop()
    case Condition(guard, yes, no) =>
      var both := Collect(c, guard, ctx, b).Read().Then(Collect(c, yes, ctx, b).Read());
      (if no.None? then both else both.Then(Collect(c, no.value, ctx, b).Read())).Drop()
    case ArrayOf(parts) => CollectValues(c, parts, ctx, b)
    case Call(name, args) => CollectValues(c, args, ctx, b).Then(CallReads(c, name, args, ctx, b))
    case Block(statements) => CollectBlock(c, statements, ctx, b)
  }

  function CollectValues(c: Config, parts: seq<Expr>, ctx: Option<FieldPath>, b: Bindings): Report
    decreases parts, 0
  {
    if parts == [] then NOTHING
    else Collect(c, parts[0], ctx, b).Read().Then(CollectValues(c, parts[1..], ctx, b))
  }

  function CollectStatement(c: Config, s: Statement, ctx: Option<FieldPath>, b: Bindings): Report
    decreases s, 0
  {
    Collect(c, s.e, ctx, b)
  }

  /** A block's statements: all but the last are dropped, and read unless a variable holds them. */
  function CollectBlock(c: Config, statements: seq<Statement>, ctx: Option<FieldPath>, b: Bindings): Report
    decreases statements, 0
  {
    if statements == [] then NOTHING
    else
      var s := statements[0];
      var first := CollectStatement(c, s, ctx, b);
      if |statements| == 1 then first
      else if s.Let? then first.Then(CollectBlock(c, statements[1..], ctx, Bind(c, s.name, first.path, b)))
      else first.Read().Then(CollectBlock(c, statements[1..], ctx, b))
  }

  function CollectSteps(c: Config, path: Expr, i: nat, cur: Option<FieldPath>, b: Bindings): Report
    requires path.Path? && i <= |path.steps|
    decreases path, 0, |path.steps| - i
  {
    if i == |path.steps| then PathIs(cur)
    else
      var step := CollectStep(c, path.steps[i], i == 0, cur, b);
      step.Then(CollectSteps(c, path, i + 1, step.path, b))
  }

  function CollectStep(c: Config, step: Expr, first: bool, cur: Option<FieldPath>, b: Bindings): Report
    decreases step, 2
  {
    StepInput(step, first, cur).Then(Collect(c, step, cur, b))
  }
}
