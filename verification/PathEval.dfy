/** Evaluation of field paths, filters, variables and the expressions around them,
    over decoded JSON. What is not about paths is a parameter: the operators, the
    builtins, and how a number reads as an index or a boolean. */
module PathEval {
  import opened Wrappers
  import opened Trees

  datatype Expr =
    | Literal(value: Tree)
    | Name(field: string)
    | Context
    | Root
    | Variable(name: string)
    | Path(steps: seq<Expr>)
    | Pick(base: Expr, index: int)
    | Filter(base: Expr, test: Expr)
    | Binary(op: Operator, left: Expr, right: Expr)
    | Negate(operand: Expr)
    | Condition(guard: Expr, yes: Expr, no: Option<Expr>)
    | ArrayOf(parts: seq<Expr>)
    | Call(name: string, args: seq<Expr>)
    | Block(statements: seq<Statement>)

  datatype Statement = Do(e: Expr) | Let(name: string, e: Expr)

  datatype Operator = And | Or | Default | Coalesce | Strict(name: string)

  /** A value in an evaluation: undefined, or a tree, with whether it is the root input itself. */
  datatype Val = Undef | Def(t: Tree, root: bool)

  /** A result: an error, a value, or a sequence its expression has not collapsed. */
  datatype Outcome = Fail(code: string) | Value(v: Val) | Many(vs: seq<Tree>)

  /** How a number reads as a position: rounded down, or not at all when it is not finite. */
  datatype Index = NotNumber | Unbounded | At(i: int)

  datatype Ops = Ops(
    negate: Val -> Result<Val, string>,
    binary: (string, Val, Val) -> Result<Val, string>,
    call: (string, seq<Val>, Val) -> Result<Val, string>,
    index: string -> Index,
    nonzero: string -> bool)

  /** wrapped: where the input is an array, it counts as one context. */
  datatype Env = Env(root: Tree, wrapped: bool, vars: map<string, Val>)

  function ToOutcome(r: Result<Val, string>): Outcome {
    match r
    case Ok(v) => Value(v)
    case Err(code) => Fail(code)
  }

  function CollapseValues(vs: seq<Tree>): Val {
    if |vs| == 0 then Undef else if |vs| == 1 then Def(vs[0], false) else Def(ArrTree(vs), false)
  }

  function Collapse(o: Outcome): (r: Outcome)
    ensures !r.Many?
  {
    if o.Many? then Value(CollapseValues(o.vs)) else o
  }

  predicate IsArray(v: Val) {
    v.Def? && v.t.ArrTree?
  }

  /** v is the root input, and that is an array still wrapped; any empty array stands for an empty root. */
  predicate IsRootArray(v: Val, env: Env) {
    && IsArray(v) && env.wrapped && env.root.ArrTree?
    && |v.t.items| == |env.root.items| && (v.root || v.t.items == [])
  }

  function FromOption(t: Option<Tree>): Val {
    match t
    case None => Undef
    case Some(t) => Def(t, false)
  }

  /** A field's value in one context: over an array, the values at any depth as one sequence, collapsed. */
  function LookupValue(field: string, v: Val): Val {
    if v.Undef? then Undef
    else match v.t
      case ObjTree(fields) => FromOption(Get(fields, field))
      case ArrTree(items) => CollapseValues(LookupItems(field, items))
      case _ => Undef
  }

  /** The same for one of several contexts, keeping a sequence of several values. */
  function ItemField(field: string, item: Tree): Outcome {
    if item.ArrTree? then
      var found := LookupItems(field, item.items);
      if |found| > 1 then Many(found) else Value(CollapseValues(found))
    else Value(LookupValue(field, Def(item, false)))
  }

  function ItemFields(field: string, items: seq<Tree>): seq<Outcome> {
    if items == [] then [] else [ItemField(field, items[0])] + ItemFields(field, items[1..])
  }

  /** What one context's result adds to a step's sequence. */
  function Flattened(o: Outcome): seq<Tree> {
    match o
    case Fail(_) => []
    case Many(vs) => vs
    case Value(v) => if v.Undef? then [] else Elements(v.t)
  }

  function Flat(outs: seq<Outcome>): seq<Tree> {
    if outs == [] then [] else Flattened(outs[0]) + Flat(outs[1..])
  }

  predicate IsUndef(o: Outcome) {
    o == Value(Undef)
  }

  /** The defined results. */
  function Defined(outs: seq<Outcome>): seq<Outcome> {
    if outs == [] then []
    else (if IsUndef(outs[0]) then [] else [outs[0]]) + Defined(outs[1..])
  }

  predicate IsLoneArray(outs: seq<Outcome>) {
    |outs| == 1 && outs[0].Value? && IsArray(outs[0].v)
  }

  /** A step's result over several contexts: what each added, in one sequence, in which one
      array stays an item; but a last step's lone array passes through as it is. */
  function Gathered(outs: seq<Outcome>, lone: bool): Outcome {
    if lone && IsLoneArray(Defined(outs)) then Defined(outs)[0]
    else
      var flat := Flat(outs);
      if |flat| == 1 && flat[0].ArrTree? then Many(flat) else Value(CollapseValues(flat))
  }

  /** A variable's results over several contexts, of which no lone array stays an item. */
  function Spread(outs: seq<Outcome>, lone: bool): Outcome {
    if lone && IsLoneArray(Defined(outs)) then Defined(outs)[0] else Value(CollapseValues(Flat(outs)))
  }

  /** A field step. */
  function NameStep(field: string, input: Val, last: bool): Outcome {
    if IsArray(input) then Gathered(ItemFields(field, input.t.items), last) else Value(LookupValue(field, input))
  }

  predicate Truthy(ops: Ops, t: Tree) {
    match t
    case NullTree => false
    case BoolTree(b) => b
    case NumTree(literal) => ops.nonzero(literal)
    case StrTree(s) => s != ""
    case ArrTree(items) => AnyTruthy(ops, items)
    case ObjTree(fields) => fields != []
  }

  predicate AnyTruthy(ops: Ops, items: seq<Tree>) {
    items != [] && (Truthy(ops, items[0]) || AnyTruthy(ops, items[1..]))
  }

  predicate TruthyValue(ops: Ops, v: Val) {
    v.Def? && Truthy(ops, v.t)
  }

  function IndexOf(ops: Ops, t: Tree): Index {
    if t.NumTree? then ops.index(t.literal) else NotNumber
  }

  /** The positions a predicate's result selects. */
  datatype Positions = OutOfRange | NotPositional | Selected(at: seq<int>)

  function Resolve(i: int, length: nat): int {
    if i < 0 then i + length else i
  }

  function ResolveIndices(ops: Ops, values: seq<Tree>, length: nat): Positions {
    if values == [] then Selected([])
    else match (IndexOf(ops, values[0]), ResolveIndices(ops, values[1..], length))
      case (Unbounded, _) => OutOfRange
      case (_, OutOfRange) => OutOfRange
      case (At(i), Selected(rest)) => Selected([Resolve(i, length)] + rest)
      case _ => NotPositional
  }

  function SelectedPositions(ops: Ops, v: Val, length: nat): Positions {
    if v.Undef? || v.t == ArrTree([]) then NotPositional
    else ResolveIndices(ops, Elements(v.t), length)
  }

  function Occurrences(at: seq<int>, pos: int): nat {
    if at == [] then 0 else (if at[0] == pos then 1 else 0) + Occurrences(at[1..], pos)
  }

  const OUT_OF_RANGE := "D1001"

  /** The copies of the item at pos that v keeps: one a time v names pos, or one if v is no position but truthy. */
  function FilterMatches(ops: Ops, v: Val, pos: int, length: nat): Result<nat, string> {
    if v.Def? && v.t.BoolTree? then Ok(if v.t.b then 1 else 0)
    else match SelectedPositions(ops, v, length)
      case OutOfRange => Err(OUT_OF_RANGE)
      case Selected(at) => Ok(Occurrences(at, pos))
      case NotPositional => Ok(if TruthyValue(ops, v) then 1 else 0)
  }

  function Repeat<T>(x: T, n: nat): seq<T> {
    if n == 0 then [] else [x] + Repeat(x, n - 1)
  }

  function StepBase(e: Expr): Expr {
    if e.Filter? || e.Pick? then StepBase(e.base) else e
  }

  predicate IsSubscript(e: Expr) {
    e.Filter? || e.Pick?
  }

  predicate SubscriptsName(e: Expr) {
    StepBase(e).Name?
  }

  predicate IsVariable(e: Expr) {
    e.Context? || e.Root? || e.Variable?
  }

  /** What a subscript stage selects; kept: from an undefined base, which it took for an item. */
  datatype Stage = Stage(out: Outcome, kept: bool)

  function PickItem(items: seq<Tree>, index: int): Val {
    var i := Resolve(index, |items|);
    if 0 <= i < |items| then Def(items[i], false) else Undef
  }

  /** One item's filter, before the others'. */
  function Keep(item: Tree, matches: Result<nat, string>, rest: Outcome): Outcome {
    match matches
    case Err(code) => Fail(code)
    case Ok(n) => if rest.Many? then Many(Repeat(item, n) + rest.vs) else rest
  }

  /** The next step's input. */
  function StepContext(o: Outcome): Val {
    match o
    case Fail(_) => Undef
    case Value(v) => v
    case Many(vs) => if |vs| == 1 && vs[0].ArrTree? then Def(ArrTree(vs), false) else CollapseValues(vs)
  }

  predicate IsMapper(o: Outcome) {
    o.Many? || (o.Value? && IsArray(o.v))
  }

  /** A sequence a filter selected is passed on as one, except by a first step of another base than a field. */
  function SelectionContexts(step: Expr, o: Outcome, later: bool): Outcome {
    if o.Many? && !later && !SubscriptsName(step) then Collapse(o) else o
  }

  /** A call over several contexts that finds nothing but an empty array finds nothing. */
  function NothingFound(step: Expr, mapper: bool, o: Outcome): Outcome {
    if mapper && step.Call? && o.Value? && IsArray(o.v) && o.v.t.items == [] then Value(Undef) else o
  }

  function Eval(ops: Ops, e: Expr, top: bool, input: Val, env: Env): (r: Outcome)
    ensures !r.Many?
    decreases e, 4, 0
  {
    match e
    case Literal(t) => Value(Def(t, false))
    case Name(field) =>
      if IsRootArray(input, env) then Value(LookupValue(field, input)) else Collapse(NameStep(field, input, true))
    case Context => Value(input)
    case Root => Value(Def(env.root, true))
    case Variable(name) => Value(if name in env.vars then env.vars[name] else Undef)
    case Path(steps) => Collapse(EvalSteps(ops, e, 0, top, Value(input), false, false, env))
    case Pick(_, _) => EvalSubscript(ops, e, top, input, env)
    case Filter(_, _) => EvalSubscript(ops, e, top, input, env)
    case Binary(op, left, right) =>
      var l := Eval(ops, left, top, input, env);
      if l.Fail? then l
      else
        (match op
         case And => if TruthyValue(ops, l.v) then AsBoolean(ops, Eval(ops, right, top, input, env)) else FALSE
         case Or => if TruthyValue(ops, l.v) then TRUE else AsBoolean(ops, Eval(ops, right, top, input, env))
         case Default => if TruthyValue(ops, l.v) then l else Eval(ops, right, top, input, env)
         case Coalesce => if l.v.Def? then l else Eval(ops, right, top, input, env)
         case Strict(name) =>
           var r := Eval(ops, right, top, input, env);
           if r.Fail? then r else ToOutcome(ops.binary(name, l.v, r.v)))
    case Negate(operand) =>
      var r := Eval(ops, operand, top, input, env);
      if r.Fail? || r.v.Undef? then r else ToOutcome(ops.negate(r.v))
    case Condition(guard, yes, no) =>
      var t := Eval(ops, guard, top, input, env);
      if t.Fail? then t
      else if TruthyValue(ops, t.v) then Eval(ops, yes, top, input, env)
      else if no.Some? then Eval(ops, no.value, top, input, env)
      else Value(Undef)
    case ArrayOf(parts) =>
      var r := EvalParts(ops, parts, top, input, env);
      if r.Many? then Value(Def(ArrTree(r.vs), false)) else r
    case Call(name, args) =>
      (match EvalArgs(ops, args, top, input, env)
       case Err(code) => Fail(code)
       case Ok(vs) => if name in env.vars then Fail("T1006") else ToOutcome(ops.call(name, vs, input)))
    case Block(statements) => EvalBlock(ops, statements, top, input, env, Undef)
  }

  const TRUE: Outcome := Value(Def(BoolTree(true), false))
  const FALSE: Outcome := Value(Def(BoolTree(false), false))

  function AsBoolean(ops: Ops, o: Outcome): Outcome {
    match o
    case Value(v) => if TruthyValue(ops, v) then TRUE else FALSE
    case _ => o
  }

  /** The parts of an array constructor: a nested constructor's array is one item, any other array is spread. */
  function EvalParts(ops: Ops, parts: seq<Expr>, top: bool, input: Val, env: Env): (r: Outcome)
    ensures !r.Value?
    decreases parts, 0, 0
  {
    if parts == [] then Many([])
    else
      var first := Eval(ops, parts[0], top, input, env);
      if first.Fail? then first
      else
        var rest := EvalParts(ops, parts[1..], top, input, env);
        if rest.Fail? then rest
        else if first.v.Def? && StepBase(parts[0]).ArrayOf? then Many([first.v.t] + rest.vs)
        else Many(Flattened(first) + rest.vs)
  }

  function EvalArgs(ops: Ops, args: seq<Expr>, top: bool, input: Val, env: Env): Result<seq<Val>, string>
    decreases args, 0, 0
  {
    if args == [] then Ok([])
    else match Eval(ops, args[0], top, input, env)
      case Fail(code) => Err(code)
      case Many(_) => Err("")
      case Value(v) =>
        match EvalArgs(ops, args[1..], top, input, env)
        case Err(code) => Err(code)
        case Ok(vs) => Ok([v] + vs)
  }

  function EvalBlock(ops: Ops, statements: seq<Statement>, top: bool, input: Val, env: Env, last: Val): (r: Outcome)
    ensures !r.Many?
    decreases statements, 0, 0
  {
    if statements == [] then Value(last)
    else
      var s := statements[0];
      var r := EvalStatement(ops, s, top, input, env);
      if r.Fail? then r
      else
        var next := if s.Let? then env.(vars := env.vars[s.name := r.v]) else env;
        EvalBlock(ops, statements[1..], top, input, next, r.v)
  }

  function EvalStatement(ops: Ops, s: Statement, top: bool, input: Val, env: Env): (r: Outcome)
    ensures !r.Many?
    decreases s, 0, 0
  {
    Eval(ops, s.e, top, input, env)
  }

  /** A subscript outside a path: a field's maps over an array of contexts that is not the root. */
  function EvalSubscript(ops: Ops, e: Expr, top: bool, input: Val, env: Env): (r: Outcome)
    requires IsSubscript(e)
    ensures !r.Many?
    decreases e, 3, 0
  {
    if SubscriptsName(e) && IsArray(input) && !IsRootArray(input, env) then
      Collapse(MapStep(ops, e, input.t.items, true, env))
    else Collapse(SubscriptStage(ops, e, top, input, env).out)
  }

  function SubscriptStage(ops: Ops, e: Expr, top: bool, input: Val, env: Env): (s: Stage)
    requires IsSubscript(e)
    ensures s.kept ==> IsUndef(s.out)
    decreases e, 1, 0
  {
    Select(ops, e, StageLeft(ops, e, top, input, env), env)
  }

  /** A subscript's base, and whether an undefined one is filtered as one undefined item. */
  function StageLeft(ops: Ops, e: Expr, top: bool, input: Val, env: Env): Stage
    requires IsSubscript(e)
    decreases e, 0, 0
  {
    if IsSubscript(e.base) then SubscriptStage(ops, e.base, top, input, env)
    else if e.base.Name? then Stage(Value(LookupValue(e.base.field, input)), true)
    else Stage(Eval(ops, e.base, top, input, env), true)
  }

  function Select(ops: Ops, e: Expr, left: Stage, env: Env): (s: Stage)
    requires IsSubscript(e)
    ensures s.kept ==> IsUndef(s.out)
    decreases e, 0, 0
  {
    if left.out.Fail? then Stage(left.out, false)
    else if IsUndef(left.out) then
      if e.Filter? && left.kept then KeepsMissing(ops, e.test, env) else Stage(Value(Undef), false)
    else
      var items := Flattened(left.out);
      if items == [] then Stage(Value(Undef), false)
      else if e.Pick? then Stage(Value(PickItem(items, e.index)), false)
      else
        var kept := FilterItems(ops, e.test, items, 0, env);
        Stage(if kept == Many([]) then Value(Undef) else kept, false)
  }

  /** Runs the predicate once on the undefined item an undefined base is filtered as. */
  function KeepsMissing(ops: Ops, test: Expr, env: Env): (s: Stage)
    ensures s.kept ==> IsUndef(s.out)
    ensures s.out.Fail? || IsUndef(s.out)
    decreases test, 5, 0
  {
    var r := Eval(ops, test, false, Undef, env);
    if r.Fail? then Stage(r, false)
    else match FilterMatches(ops, r.v, 0, 1)
      case Err(code) => Stage(Fail(code), false)
      case Ok(n) => Stage(Value(Undef), n > 0)
  }

  function FilterItems(ops: Ops, test: Expr, items: seq<Tree>, k: nat, env: Env): (r: Outcome)
    requires k <= |items|
    ensures !r.Value?
    decreases test, 5, |items| - k
  {
    if k == |items| then Many([])
    else
      var r := Eval(ops, test, false, Def(items[k], false), env);
      if r.Fail? then r
      else
        var matches := FilterMatches(ops, r.v, k, |items|);
        if matches.Err? then Fail(matches.error)
        else Keep(items[k], matches, FilterItems(ops, test, items, k + 1, env))
  }

  /** The results of a step over each of several contexts. */
  function EachItem(ops: Ops, step: Expr, items: seq<Tree>, env: Env): (r: Result<seq<Outcome>, string>)
    ensures r.Ok? ==> |r.value| == |items|
    decreases step, if IsSubscript(step) then 2 else 5, |items|
  {
    if items == [] then Ok([])
    else
      var input := Def(items[0], false);
      var first :=
        if IsSubscript(step) then SubscriptStage(ops, step, false, input, env).out
        else Eval(ops, step, false, input, env);
      if first.Fail? then Err(first.code)
      else match EachItem(ops, step, items[1..], env)
        case Err(code) => Err(code)
        case Ok(rest) => Ok([first] + rest)
  }

  /** A subscript's result counts as defined even for an item it empties, so its lone array is
      one only over one item. */
  function MapStep(ops: Ops, step: Expr, items: seq<Tree>, last: bool, env: Env): Outcome
    decreases step, if IsSubscript(step) then 2 else 5, |items| + 1
  {
    match EachItem(ops, step, items, env)
    case Err(code) => Fail(code)
    case Ok(outs) => Gathered(outs, last && (IsSubscript(step) ==> |items| == 1))
  }

  function PathStep(ops: Ops, step: Expr, input: Val, env: Env, mapper: bool, last: bool): Outcome
    decreases step, 6, 0
  {
    if step.Name? then NameStep(step.field, input, last)
    else if IsVariable(step) || (step.Block? && !mapper) then Eval(ops, step, false, input, env)
    else if IsSubscript(step) && !mapper then SubscriptStage(ops, step, false, input, env).out
    else if IsArray(input) then MapStep(ops, step, input.t.items, last, env)
    else Eval(ops, step, false, input, env)
  }

  /** A variable after a path's first step, once per context. */
  function VariableStep(ops: Ops, step: Expr, input: Val, last: bool, env: Env): Outcome
    decreases step, 6, 0
  {
    if !IsArray(input) then Eval(ops, step, false, input, env)
    else match EachItem(ops, step, input.t.items, env)
      case Err(code) => Fail(code)
      case Ok(outs) => Spread(outs, last)
  }

  /** A path's first step over the root array, which it sees as one context. */
  function StepOnce(ops: Ops, step: Expr, input: Val, env: Env): Outcome
    decreases step, 6, 0
  {
    if IsSubscript(step) then Collapse(SubscriptStage(ops, step, false, input, env).out)
    else if step.Name? then Value(LookupValue(step.field, input))
    else Eval(ops, step, false, input, env)
  }

  predicate StartsRoot(top: bool, i: nat, input: Val, env: Env) {
    top && i == 0 && IsRootArray(input, env)
  }

  function RunStep(ops: Ops, step: Expr, i: nat, top: bool, input: Val, mapper: bool, last: bool, env: Env): Stage
    decreases step, 9, 0
  {
    if i == 0 then FirstStep(ops, step, top, input, mapper, last, env)
    else if IsVariable(step) then Stage(VariableStep(ops, step, input, last, env), false)
    else OrdinaryStep(ops, step, true, input, mapper, last, env)
  }

  function FirstStep(ops: Ops, step: Expr, top: bool, input: Val, mapper: bool, last: bool, env: Env): Stage
    decreases step, 8, 0
  {
    if StartsRoot(top, 0, input, env) then Stage(StepOnce(ops, step, input, env.(wrapped := false)), false)
    else if SubscriptsName(step) && IsArray(input) && !IsRootArray(input, env) then
      Stage(PathStep(ops, step, input, env, true, last), false)
    else OrdinaryStep(ops, step, false, input, mapper, last, env)
  }

  /** A subscript that another step follows selects from all the contexts at once. */
  function OrdinaryStep(ops: Ops, step: Expr, later: bool, input: Val, mapper: bool, last: bool, env: Env): Stage
    decreases step, 7, 0
  {
    if !mapper && IsSubscript(step) && !last then
      var s := SubscriptStage(ops, step, false, input, env);
      Stage(SelectionContexts(step, s.out, later), s.kept)
    else Stage(NothingFound(step, mapper, PathStep(ops, step, input, env, mapper, last)), false)
  }

  /** The steps of a path from the i-th on, over what the step before it yielded. */
  function EvalSteps(ops: Ops, path: Expr, i: nat, top: bool, cur: Outcome, kept: bool, mapper: bool, env: Env): Outcome
    requires path.Path? && i <= |path.steps|
    decreases path, 1, |path.steps| - i
  {
    if cur.Fail? || i == |path.steps| then cur
    else
      var input := StepContext(cur);
      if i > 0 && input.Undef? && !kept then Value(Undef)
      else
        var step, last := path.steps[i], i == |path.steps| - 1;
        var next := if StartsRoot(top, i, input, env) then env.(wrapped := false) else env;
        var s := RunStep(ops, step, i, top, input, mapper, last, env);
        EvalSteps(ops, path, i + 1, top, s.out, s.kept, IsMapper(s.out), next)
  }
}
