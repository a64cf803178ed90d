/** Evaluating an expression over its input pruned to the paths it reads: both runs,
    the full and the pruned, agree at every step. */
module PathSoundness {
  import opened Wrappers
  import opened Trees
  import opened PathEval
  import opened PathPruning
  import opened PathReads

  /** The recorded paths and what the runs share. strict: computed filters run over live paths
      only, and then the runs fail alike. */
  datatype Setting = Setting(paths: seq<FieldPath>, c: Config, ops: Ops, strict: bool)

  /** An argument is of its literal type. */
  predicate Fits(t: Option<char>, v: Val) {
    match t
    case None => true
    case Some(c) =>
      && v.Def?
      && (match v.t
          case NullTree => c == 'l'
          case BoolTree(_) => c == 'b'
          case NumTree(_) => c == 'n'
          case StrTree(_) => c == 's'
          case ArrTree(_) => c == 'a'
          case ObjTree(_) => c == 'o')
  }

  predicate AllFit(types: ArgTypes, args: seq<Val>) {
    |types| == |args| && forall i :: 0 <= i < |types| ==> Fits(types[i], args[i])
  }

  /** A call that readsContext denies does not depend on its context. */
  ghost predicate Honest(s: Setting) {
    forall name, types, args, v, v' ::
      !s.c.readsContext(name, types) && AllFit(types, args) ==> s.ops.call(name, args, v) == s.ops.call(name, args, v')
  }

  /** The report's reads are recorded, and complete. */
  ghost predicate Covered(s: Setting, r: Report) {
    && r.complete && (forall p :: p in r.recorded ==> p in s.paths)
    && (s.strict ==> forall p :: p in r.filtered ==> Live(s.paths, p))
  }

  /** Results that agree unless one run fails, which only a run that is not strict can do alone. */
  ghost predicate Agree(s: Setting, p: Option<FieldPath>, o: Outcome, o': Outcome) {
    if o.Fail? || o'.Fail? then s.strict ==> o == o' else SameOutcome(s.paths, p, o, o')
  }

  ghost predicate SameEnv(s: Setting, b: Bindings, env: Env, env': Env) {
    && env'.root == Prune(s.paths, [], env.root) && env'.wrapped == env.wrapped
    && env.vars.Keys == b.Keys && env'.vars.Keys == b.Keys
    && forall x :: x in b && b[x].Holds? ==> Same(s.paths, b[x].path, env.vars[x], env'.vars[x])
  }

  lemma CoveredBoth(s: Setting, r: Report, next: Report)
    requires Covered(s, r.Then(next))
    ensures Covered(s, r) && Covered(s, next)
  {
  }

  lemma CoveredRead(s: Setting, r: Report)
    requires Covered(s, r.Read())
    ensures Covered(s, r) && (r.path.Some? ==> r.path.value in s.paths)
  {
  }

  /** A result that is read is the same in both runs. */
  lemma ReadAgrees(s: Setting, r: Report, o: Outcome, o': Outcome)
    requires Covered(s, r.Read()) && Agree(s, r.path, o, o')
    ensures Agree(s, None, o, o')
  {
    CoveredRead(s, r);
    if r.path.Some? {
      ReadIsWhole(s.paths, r.path.value);
      if o.Many? {
        PruneWhole(s.paths, r.path.value, o.vs);
      }
    }
  }

  lemma RootArraySame(s: Setting, p: Option<FieldPath>, v: Val, v': Val, b: Bindings, env: Env, env': Env)
    requires Reached(s.paths, p) && Same(s.paths, p, v, v') && SameEnv(s, b, env, env')
    ensures IsArray(v) == IsArray(v') && IsRootArray(v, env) == IsRootArray(v', env')
  {
    if IsArray(v) {
      ArraySame(s.paths, p, v, v');
    }
    if env.root.ArrTree? {
      PruneElements(s.paths, [], env.root);
    }
  }

  lemma NameSame(s: Setting, field: string, top: bool, ctx: Option<FieldPath>, b: Bindings, env: Env, env': Env,
                 v: Val, v': Val)
    requires Reached(s.paths, ctx) && Same(s.paths, ctx, v, v') && SameEnv(s, b, env, env')
    ensures Agree(s, Extend(ctx, field), Eval(s.ops, Name(field), top, v, env), Eval(s.ops, Name(field), top, v', env'))
  {
    RootArraySame(s, ctx, v, v', b, env, env');
    LookupSame(s.paths, ctx, field, v, v');
    NameStepSame(s.paths, ctx, field, v, v', true);
    CollapseSame(s.paths, Extend(ctx, field), NameStep(field, v, true), NameStep(field, v', true));
  }

  ghost predicate Runs(s: Setting, ctx: Option<FieldPath>, b: Bindings, env: Env, env': Env, v: Val, v': Val) {
    Honest(s) && Reached(s.paths, ctx) && Same(s.paths, ctx, v, v') && SameEnv(s, b, env, env')
  }

  predicate IsLeaf(e: Expr) {
    e.Literal? || e.Name? || e.Context? || e.Root? || e.Variable?
  }

  lemma LeafSame(s: Setting, e: Expr, top: bool, ctx: Option<FieldPath>, b: Bindings, env: Env, env': Env,
                 v: Val, v': Val)
    requires IsLeaf(e) && Runs(s, ctx, b, env, env', v, v') && Covered(s, Collect(s.c, e, ctx, b))
    ensures Agree(s, Collect(s.c, e, ctx, b).path, Eval(s.ops, e, top, v, env), Eval(s.ops, e, top, v', env'))
  {
    if e.Name? {
      NameSame(s, e.field, top, ctx, b, env, env', v, v');
    }
  }

  /** Both runs of an expression agree on its result, which is at the path it reports. */
  lemma {:induction false} EvalSame(s: Setting, e: Expr, top: bool, ctx: Option<FieldPath>, b: Bindings, env: Env,
                                    env': Env, v: Val, v': Val)
    requires Runs(s, ctx, b, env, env', v, v') && Covered(s, Collect(s.c, e, ctx, b))
    ensures Agree(s, Collect(s.c, e, ctx, b).path, Eval(s.ops, e, top, v, env), Eval(s.ops, e, top, v', env'))
    decreases e, 4, 0
  {
    hide Runs, SameEnv, Honest, Reached;
    match e
    case Path(_) => PathSame(s, e, top, ctx, b, env, env', v, v');
    case Pick(_, _) => SubscriptSame(s, e, top, ctx, b, env, env', v, v');
    case Filter(_, _) => SubscriptSame(s, e, top, ctx, b, env, env', v, v');
    case Binary(_, _, _) => BinarySame(s, e, top, ctx, b, env, env', v, v');
    case Negate(operand) => ReadSame(s, operand, top, ctx, b, env, env', v, v');
    case Condition(_, _, _) => ConditionSame(s, e, top, ctx, b, env, env', v, v');
    case ArrayOf(parts) => PartsSame(s, parts, top, ctx, b, env, env', v, v');
    case Call(_, _) => CallSame(s, e, top, ctx, b, env, env', v, v');
    case Block(statements) => BlockSame(s, statements, top, ctx, b, env, env', v, v', Undef, Undef);
    case _ => LeafSame(s, e, top, ctx, b, env, env', v, v');
  }

  /** An operand is read whole, so both runs give it one value. */
  lemma {:induction false} ReadSame(s: Setting, e: Expr, top: bool, ctx: Option<FieldPath>, b: Bindings, env: Env,
                                    env': Env, v: Val, v': Val)
    requires Runs(s, ctx, b, env, env', v, v') && Covered(s, Collect(s.c, e, ctx, b).Read())
    ensures Agree(s, None, Eval(s.ops, e, top, v, env), Eval(s.ops, e, top, v', env'))
    decreases e, 5, 0
  {
    CoveredRead(s, Collect(s.c, e, ctx, b));
    EvalSame(s, e, top, ctx, b, env, env', v, v');
    ReadAgrees(s, Collect(s.c, e, ctx, b), Eval(s.ops, e, top, v, env), Eval(s.ops, e, top, v', env'));
  }

  lemma {:induction false} BinarySame(s: Setting, e: Expr, top: bool, ctx: Option<FieldPath>, b: Bindings, env: Env,
                                      env': Env, v: Val, v': Val)
    requires e.Binary? && Runs(s, ctx, b, env, env', v, v') && Covered(s, Collect(s.c, e, ctx, b))
    ensures Agree(s, None, Eval(s.ops, e, top, v, env), Eval(s.ops, e, top, v', env'))
    decreases e, 3, 0
  {
    hide Honest, SameEnv, Reached, Same;
    CoveredBoth(s, Collect(s.c, e.left, ctx, b).Read(), Collect(s.c, e.right, ctx, b).Read());
    ReadSame(s, e.left, top, ctx, b, env, env', v, v');
    ReadSame(s, e.right, top, ctx, b, env, env', v, v');
  }

  lemma {:induction false} ConditionSame(s: Setting, e: Expr, top: bool, ctx: Option<FieldPath>, b: Bindings, env: Env,
                                         env': Env, v: Val, v': Val)
    requires e.Condition? && Runs(s, ctx, b, env, env', v, v') && Covered(s, Collect(s.c, e, ctx, b))
    ensures Agree(s, None, Eval(s.ops, e, top, v, env), Eval(s.ops, e, top, v', env'))
    decreases e, 3, 0
  {
    var guard, yes := Collect(s.c, e.guard, ctx, b).Read(), Collect(s.c, e.yes, ctx, b).Read();
    if e.no.Some? {
      CoveredBoth(s, guard.Then(yes), Collect(s.c, e.no.value, ctx, b).Read());
      ReadSame(s, e.no.value, top, ctx, b, env, env', v, v');
    }
    CoveredBoth(s, guard, yes);
    ReadSame(s, e.guard, top, ctx, b, env, env', v, v');
    ReadSame(s, e.yes, top, ctx, b, env, env', v, v');
  }

  lemma {:induction false} PartsSame(s: Setting, parts: seq<Expr>, top: bool, ctx: Option<FieldPath>, b: Bindings,
                                     env: Env, env': Env, v: Val, v': Val)
    requires Runs(s, ctx, b, env, env', v, v') && Covered(s, CollectValues(s.c, parts, ctx, b))
    ensures Agree(s, None, EvalParts(s.ops, parts, top, v, env), EvalParts(s.ops, parts, top, v', env'))
    ensures CollectValues(s.c, parts, ctx, b).path == None
    decreases parts, 0, 0
  {
    if parts != [] {
      CoveredBoth(s, Collect(s.c, parts[0], ctx, b).Read(), CollectValues(s.c, parts[1..], ctx, b));
      ReadSame(s, parts[0], top, ctx, b, env, env', v, v');
      PartsSame(s, parts[1..], top, ctx, b, env, env', v, v');
    }
  }

  lemma {:induction false} ArgsSame(s: Setting, args: seq<Expr>, top: bool, ctx: Option<FieldPath>, b: Bindings,
                                    env: Env, env': Env, v: Val, v': Val)
    requires Runs(s, ctx, b, env, env', v, v') && Covered(s, CollectValues(s.c, args, ctx, b))
    ensures var r, r' := EvalArgs(s.ops, args, top, v, env), EvalArgs(s.ops, args, top, v', env');
            r == r' || (!s.strict && (r.Err? || r'.Err?))
    decreases args, 0, 0
  {
    if args != [] {
      CoveredBoth(s, Collect(s.c, args[0], ctx, b).Read(), CollectValues(s.c, args[1..], ctx, b));
      ReadSame(s, args[0], top, ctx, b, env, env', v, v');
      ArgsSame(s, args[1..], top, ctx, b, env, env', v, v');
    }
  }

  /** An argument that is a literal is of its type. */
  lemma LiteralFits(ops: Ops, e: Expr, top: bool, v: Val, env: Env)
    requires Eval(ops, e, top, v, env).Value?
    ensures Fits(LiteralType(e), Eval(ops, e, top, v, env).v)
  {
  }

  lemma {:induction false} LiteralsFit(ops: Ops, args: seq<Expr>, top: bool, v: Val, env: Env)
    requires EvalArgs(ops, args, top, v, env).Ok?
    ensures AllFit(LiteralTypes(args), EvalArgs(ops, args, top, v, env).value)
  {
    if args != [] {
      LiteralFits(ops, args[0], top, v, env);
      LiteralsFit(ops, args[1..], top, v, env);
    }
  }

  lemma {:induction false} CallSame(s: Setting, e: Expr, top: bool, ctx: Option<FieldPath>, b: Bindings, env: Env,
                                    env': Env, v: Val, v': Val)
    requires e.Call? && Runs(s, ctx, b, env, env', v, v') && Covered(s, Collect(s.c, e, ctx, b))
    ensures Agree(s, None, Eval(s.ops, e, top, v, env), Eval(s.ops, e, top, v', env'))
    ensures Collect(s.c, e, ctx, b).path == None
    decreases e, 3, 0
  {
    CoveredBoth(s, CollectValues(s.c, e.args, ctx, b), CallReads(s.c, e.name, e.args, ctx, b));
    ArgsSame(s, e.args, top, ctx, b, env, env', v, v');
    var r := EvalArgs(s.ops, e.args, top, v, env);
    if r.Ok? {
      LiteralsFit(s.ops, e.args, top, v, env);
      ContextSame(s, e.name, e.args, ctx, b, r.value, v, v');
    }
  }

  /** A call depends on its context only if it reads that. */
  lemma ContextSame(s: Setting, name: string, args: seq<Expr>, ctx: Option<FieldPath>, b: Bindings, values: seq<Val>,
                    v: Val, v': Val)
    requires Honest(s) && Reached(s.paths, ctx) && Same(s.paths, ctx, v, v') && AllFit(LiteralTypes(args), values)
    requires Covered(s, CallReads(s.c, name, args, ctx, b))
    ensures s.ops.call(name, values, v) == s.ops.call(name, values, v')
  {
    if name in s.c.bound || s.c.readsContext(name, LiteralTypes(args)) {
      ReadAgrees(s, PathIs(ctx), Value(v), Value(v'));
    }
  }

  lemma BindSame(s: Setting, name: string, r: Report, b: Bindings, env: Env, env': Env, o: Outcome, o': Outcome)
    requires SameEnv(s, b, env, env') && o.Value? && o'.Value? && Agree(s, r.path, o, o')
    ensures SameEnv(s, Bind(s.c, name, r.path, b), env.(vars := env.vars[name := o.v]),
                    env'.(vars := env'.vars[name := o'.v]))
  {
  }

  /** A block's result is its last statement's. */
  lemma {:induction false} BlockSame(s: Setting, statements: seq<Statement>, top: bool, ctx: Option<FieldPath>,
                                     b: Bindings, env: Env, env': Env, v: Val, v': Val, last: Val, last': Val)
    requires Runs(s, ctx, b, env, env', v, v') && Covered(s, CollectBlock(s.c, statements, ctx, b))
    requires statements == [] ==> last == last'
    ensures Agree(s, CollectBlock(s.c, statements, ctx, b).path, EvalBlock(s.ops, statements, top, v, env, last),
                  EvalBlock(s.ops, statements, top, v', env', last'))
    decreases statements, 1, 0
  {
    hide Collect, Honest, Eval;
    if statements != [] {
      var st := statements[0];
      var r := CollectStatement(s.c, st, ctx, b);
      var rest := if st.Let? then Bind(s.c, st.name, r.path, b) else b;
      if |statements| > 1 {
        CoveredBoth(s, if st.Let? then r else r.Read(), CollectBlock(s.c, statements[1..], ctx, rest));
        CoveredUnread(s, r);
      }
      StatementSame(s, st, top, ctx, b, env, env', v, v');
      var o, o' := EvalStatement(s.ops, st, top, v, env), EvalStatement(s.ops, st, top, v', env');
      if |statements| > 1 && o.Value? && o'.Value? {
        if st.Let? {
          BindSame(s, st.name, r, b, env, env', o, o');
        }
        var next := if st.Let? then env.(vars := env.vars[st.name := o.v]) else env;
        var next' := if st.Let? then env'.(vars := env'.vars[st.name := o'.v]) else env';
        BlockSame(s, statements[1..], top, ctx, rest, next, next', v, v', o.v, o'.v);
      }
    }
  }

  lemma CoveredUnread(s: Setting, r: Report)
    ensures Covered(s, r.Read()) ==> Covered(s, r)
  {
  }

  lemma {:induction false} StatementSame(s: Setting, st: Statement, top: bool, ctx: Option<FieldPath>, b: Bindings,
                                         env: Env, env': Env, v: Val, v': Val)
    requires Runs(s, ctx, b, env, env', v, v') && Covered(s, CollectStatement(s.c, st, ctx, b))
    ensures Agree(s, CollectStatement(s.c, st, ctx, b).path, EvalStatement(s.ops, st, top, v, env),
                  EvalStatement(s.ops, st, top, v', env'))
    decreases st, 0, 0
  {
    EvalSame(s, st.e, top, ctx, b, env, env', v, v');
  }

  lemma CollapseAgrees(s: Setting, p: Option<FieldPath>, o: Outcome, o': Outcome)
    requires Agree(s, p, o, o')
    ensures Agree(s, p, Collapse(o), Collapse(o'))
  {
    if !o.Fail? && !o'.Fail? {
      CollapseSame(s.paths, p, o, o');
    }
  }

  /** Both runs of a subscript stage agree, and where its path is live on whether it kept an undefined base. */
  ghost predicate StageAgree(s: Setting, p: Option<FieldPath>, st: Stage, st': Stage) {
    && Agree(s, p, st.out, st'.out)
    && (!st.out.Fail? && !st'.out.Fail? && Reached(s.paths, p) ==> st.kept == st'.kept)
  }

  lemma {:induction false} SubscriptSame(s: Setting, e: Expr, top: bool, ctx: Option<FieldPath>, b: Bindings, env: Env,
                                         env': Env, v: Val, v': Val)
    requires IsSubscript(e) && Runs(s, ctx, b, env, env', v, v') && Covered(s, Collect(s.c, e, ctx, b))
    ensures Agree(s, Collect(s.c, e, ctx, b).path, EvalSubscript(s.ops, e, top, v, env),
                  EvalSubscript(s.ops, e, top, v', env'))
    decreases e, 3, 0
  {
    var p := Collect(s.c, e, ctx, b).path;
    RootArraySame(s, ctx, v, v', b, env, env');
    if SubscriptsName(e) && IsArray(v) && !IsRootArray(v, env) {
      ArraySame(s.paths, ctx, v, v');
      MapSame(s, e, ctx, b, v.t.items, true, env, env');
      CollapseAgrees(s, p, MapStep(s.ops, e, v.t.items, true, env), MapStep(s.ops, e, v'.t.items, true, env'));
    } else {
      StageSame(s, e, top, ctx, b, env, env', v, v');
      CollapseAgrees(s, p, SubscriptStage(s.ops, e, top, v, env).out, SubscriptStage(s.ops, e, top, v', env').out);
    }
  }

  lemma {:induction false} StageSame(s: Setting, e: Expr, top: bool, ctx: Option<FieldPath>, b: Bindings, env: Env,
                                     env': Env, v: Val, v': Val)
    requires IsSubscript(e) && Runs(s, ctx, b, env, env', v, v') && Covered(s, Collect(s.c, e, ctx, b))
    ensures StageAgree(s, Collect(s.c, e, ctx, b).path, SubscriptStage(s.ops, e, top, v, env),
                       SubscriptStage(s.ops, e, top, v', env'))
    decreases e, 1, 0
  {
    BaseCovered(s, e, ctx, b);
    LeftSame(s, e, top, ctx, b, env, env', v, v');
    SelectSame(s, e, Collect(s.c, e.base, ctx, b).path, b, StageLeft(s.ops, e, top, v, env),
               StageLeft(s.ops, e, top, v', env'), env, env');
  }

  /** A computed filter's base is one, and its predicate is read over the base's path. */
  ghost predicate TestCovered(s: Setting, e: Expr, p: Option<FieldPath>, b: Bindings) {
    e.Filter? ==>
      && Covered(s, Collect(s.c, e.test, p, b).Read())
      && (s.strict ==> Reached(s.paths, p))
  }

  lemma BaseCovered(s: Setting, e: Expr, ctx: Option<FieldPath>, b: Bindings)
    requires IsSubscript(e) && Covered(s, Collect(s.c, e, ctx, b))
    ensures Covered(s, Collect(s.c, e.base, ctx, b))
            && Collect(s.c, e, ctx, b).path == Collect(s.c, e.base, ctx, b).path
    ensures TestCovered(s, e, Collect(s.c, e.base, ctx, b).path, b)
  {
    if e.Filter? {
      var elements := Collect(s.c, e.base, ctx, b);
      CoveredBoth(s, elements.Filtered(), Collect(s.c, e.test, elements.path, b).Read());
    }
  }

  lemma {:induction false} LeftSame(s: Setting, e: Expr, top: bool, ctx: Option<FieldPath>, b: Bindings, env: Env,
                                    env': Env, v: Val, v': Val)
    requires IsSubscript(e) && Runs(s, ctx, b, env, env', v, v') && Covered(s, Collect(s.c, e.base, ctx, b))
    ensures StageAgree(s, Collect(s.c, e.base, ctx, b).path, StageLeft(s.ops, e, top, v, env),
                       StageLeft(s.ops, e, top, v', env'))
    decreases e, 0, 0
  {
    if IsSubscript(e.base) {
      StageSame(s, e.base, top, ctx, b, env, env', v, v');
    } else if e.base.Name? {
      LookupSame(s.paths, ctx, e.base.field, v, v');
    } else {
      EvalSame(s, e.base, top, ctx, b, env, env', v, v');
    }
  }

  /** Selecting from bases that agree. */
  lemma {:induction false} SelectSame(s: Setting, e: Expr, p: Option<FieldPath>, b: Bindings, left: Stage,
                                      left': Stage, env: Env, env': Env)
    requires IsSubscript(e) && Honest(s) && SameEnv(s, b, env, env') && TestCovered(s, e, p, b)
             && StageAgree(s, p, left, left')
    ensures StageAgree(s, p, Select(s.ops, e, left, env), Select(s.ops, e, left', env'))
    decreases e, 0, 1
  {
    if left.out.Fail? || left'.out.Fail? {
    } else if !Reached(s.paths, p) {
    } else if IsUndef(left.out) {
      if e.Filter? && left.kept {
        ReadSame(s, e.test, false, p, b, env, env', Undef, Undef);
      }
    } else {
      SelectedSame(s, e, p, b, left.out, left'.out, env, env');
    }
  }

  lemma ItemsSame(s: Setting, p: Option<FieldPath>, o: Outcome, o': Outcome)
    requires Reached(s.paths, p) && SameOutcome(s.paths, p, o, o')
    ensures IsUndef(o) == IsUndef(o') && Flattened(o') == Pruned(s.paths, p, Flattened(o))
  {
    if p.Some? {
      FlattenedPruned(s.paths, p.value, o);
    }
  }

  lemma PickSame(s: Setting, p: Option<FieldPath>, items: seq<Tree>, index: int)
    requires Reached(s.paths, p)
    ensures Same(s.paths, p, PickItem(items, index), PickItem(Pruned(s.paths, p, items), index))
  {
    var i := Resolve(index, |items|);
    if 0 <= i < |items| {
      ItemSame(s.paths, p, items, i);
    }
  }

  lemma {:induction false} SelectedSame(s: Setting, e: Expr, p: Option<FieldPath>, b: Bindings, o: Outcome,
                                        o': Outcome, env: Env, env': Env)
    requires IsSubscript(e) && Honest(s) && SameEnv(s, b, env, env') && TestCovered(s, e, p, b)
    requires Reached(s.paths, p) && SameOutcome(s.paths, p, o, o') && !o.Fail? && !IsUndef(o)
    ensures StageAgree(s, p, Select(s.ops, e, Stage(o, true), env), Select(s.ops, e, Stage(o', true), env'))
    decreases e, 0, 0
  {
    ItemsSame(s, p, o, o');
    var items := Flattened(o);
    if e.Pick? {
      PickSame(s, p, items, e.index);
    } else {
      FilterSame(s, e.test, p, b, items, 0, env, env');
    }
  }

  lemma {:induction false} RepeatPruned(s: Setting, p: Option<FieldPath>, t: Tree, n: nat)
    ensures Pruned(s.paths, p, Repeat(t, n)) == Repeat(Pruned(s.paths, p, [t])[0], n)
  {
    if n > 0 {
      RepeatPruned(s, p, t, n - 1);
      if p.Some? {
        PruneOne(s.paths, p.value, t);
      }
    }
  }

  lemma KeepSame(s: Setting, p: Option<FieldPath>, items: seq<Tree>, k: nat, n: nat, rest: Outcome, rest': Outcome)
    requires k < |items| && Reached(s.paths, p) && Agree(s, p, rest, rest') && !rest.Value? && !rest'.Value?
    ensures Agree(s, p, Keep(items[k], Ok(n), rest), Keep(Pruned(s.paths, p, items)[k], Ok(n), rest'))
  {
    if !rest.Fail? && !rest'.Fail? && p.Some? {
      PrunedAt(s.paths, p.value, items, k);
      PruneOne(s.paths, p.value, items[k]);
      RepeatPruned(s, p, items[k], n);
      PruneJoin(s.paths, p.value, Repeat(items[k], n), rest.vs);
    }
  }

  lemma {:induction false} FilterSame(s: Setting, test: Expr, p: Option<FieldPath>, b: Bindings, items: seq<Tree>,
                                      k: nat, env: Env, env': Env)
    requires k <= |items| && Reached(s.paths, p) && Honest(s) && SameEnv(s, b, env, env')
    requires Covered(s, Collect(s.c, test, p, b).Read())
    ensures Agree(s, p, FilterItems(s.ops, test, items, k, env),
                  FilterItems(s.ops, test, Pruned(s.paths, p, items), k, env'))
    decreases test, 6, |items| - k
  {
    hide Collect, Covered, Honest, SameEnv, Eval, Report.Read, Repeat;
    var items' := Pruned(s.paths, p, items);
    if k < |items| {
      var v, v' := Def(items[k], false), Def(items'[k], false);
      ItemSame(s.paths, p, items, k);
      ReadSame(s, test, false, p, b, env, env', v, v');
      FilterSame(s, test, p, b, items, k + 1, env, env');
      var r, r' := Eval(s.ops, test, false, v, env), Eval(s.ops, test, false, v', env');
      if r.Value? && r'.Value? {
        var matches := FilterMatches(s.ops, r.v, k, |items|);
        if matches.Ok? {
          KeepSame(s, p, items, k, matches.value, FilterItems(s.ops, test, items, k + 1, env),
                   FilterItems(s.ops, test, items', k + 1, env'));
        }
      }
    }
  }

  /** Results over each context agree, or a run that is not strict fails. */
  ghost predicate EachAgree(s: Setting, p: Option<FieldPath>, r: Result<seq<Outcome>, string>,
                            r': Result<seq<Outcome>, string>) {
    if r.Err? || r'.Err? then s.strict ==> r == r' else AllSame(s.paths, p, r.value, r'.value)
  }

  /** One context's result, before the others'. */
  function Before(first: Outcome, rest: Result<seq<Outcome>, string>): Result<seq<Outcome>, string> {
    if first.Fail? then Err(first.code) else if rest.Err? then rest else Ok([first] + rest.value)
  }

  lemma BeforeAgrees(s: Setting, p: Option<FieldPath>, first: Outcome, first': Outcome,
                     rest: Result<seq<Outcome>, string>, rest': Result<seq<Outcome>, string>)
    requires Agree(s, p, first, first') && EachAgree(s, p, rest, rest')
    ensures EachAgree(s, p, Before(first, rest), Before(first', rest'))
  {
  }

  /** A step over one of several contexts. */
  function OverItem(ops: Ops, step: Expr, input: Val, env: Env): Outcome {
    if IsSubscript(step) then SubscriptStage(ops, step, false, input, env).out
    else Eval(ops, step, false, input, env)
  }

  lemma EachItemFirst(ops: Ops, step: Expr, items: seq<Tree>, env: Env)
    requires items != []
    ensures EachItem(ops, step, items, env) ==
            Before(OverItem(ops, step, Def(items[0], false), env), EachItem(ops, step, items[1..], env))
  {
  }

  lemma {:induction false} EachSame(s: Setting, step: Expr, p: Option<FieldPath>, b: Bindings, items: seq<Tree>,
                                    env: Env, env': Env)
    requires Reached(s.paths, p) && Honest(s) && SameEnv(s, b, env, env') && Covered(s, Collect(s.c, step, p, b))
    ensures EachAgree(s, Collect(s.c, step, p, b).path, EachItem(s.ops, step, items, env),
                      EachItem(s.ops, step, Pruned(s.paths, p, items), env'))
    decreases step, if IsSubscript(step) then 2 else 5, |items|
  {
    if items != [] {
      hide Agree, Covered, SameEnv, Honest, Reached, Eval, Collect;
      var items' := Pruned(s.paths, p, items);
      var v, v' := Def(items[0], false), Def(items'[0], false);
      ItemSame(s.paths, p, items, 0);
      assert items'[1..] == Pruned(s.paths, p, items[1..]);
      if IsSubscript(step) {
        StageSame(s, step, false, p, b, env, env', v, v');
      } else {
        EvalSame(s, step, false, p, b, env, env', v, v');
      }
      EachSame(s, step, p, b, items[1..], env, env');
      EachItemFirst(s.ops, step, items, env);
      EachItemFirst(s.ops, step, items', env');
      BeforeAgrees(s, Collect(s.c, step, p, b).path, OverItem(s.ops, step, v, env), OverItem(s.ops, step, v', env'),
                   EachItem(s.ops, step, items[1..], env), EachItem(s.ops, step, items'[1..], env'));
    }
  }

  lemma {:induction false} MapSame(s: Setting, step: Expr, p: Option<FieldPath>, b: Bindings, items: seq<Tree>,
                                   last: bool, env: Env, env': Env)
    requires Reached(s.paths, p) && Honest(s) && SameEnv(s, b, env, env') && Covered(s, Collect(s.c, step, p, b))
    ensures Agree(s, Collect(s.c, step, p, b).path, MapStep(s.ops, step, items, last, env),
                  MapStep(s.ops, step, Pruned(s.paths, p, items), last, env'))
    decreases step, if IsSubscript(step) then 2 else 5, |items| + 1
  {
    hide Collect, Covered, Honest, SameEnv, Reached, EachItem;
    var items' := Pruned(s.paths, p, items);
    EachSame(s, step, p, b, items, env, env');
    var r, r' := EachItem(s.ops, step, items, env), EachItem(s.ops, step, items', env');
    if r.Ok? && r'.Ok? {
      GatheredSame(s.paths, Collect(s.c, step, p, b).path, r.value, r'.value, last
                   && (IsSubscript(step) ==> |items| == 1));
    }
  }

  lemma StepContextSame(s: Setting, p: Option<FieldPath>, o: Outcome, o': Outcome)
    requires Reached(s.paths, p) && SameOutcome(s.paths, p, o, o') && !o.Fail?
    ensures Same(s.paths, p, StepContext(o), StepContext(o')) && IsMapper(o) == IsMapper(o')
  {
    if p.Some? && o.Many? {
      CollapsePruned(s.paths, p.value, o.vs);
      if |o.vs| == 1 {
        LoneItemSame(s, p.value, o.vs);
      }
    } else if p.Some? && o.v.Def? && IsArray(o.v) {
      PruneElements(s.paths, p.value, o.v.t);
    }
  }

  lemma LoneItemSame(s: Setting, p: FieldPath, vs: seq<Tree>)
    requires |vs| == 1
    ensures PruneItems(s.paths, p, vs)[0].ArrTree? == vs[0].ArrTree?
    ensures Prune(s.paths, p, ArrTree(vs)) == ArrTree(PruneItems(s.paths, p, vs))
  {
    PrunedAt(s.paths, p, vs, 0);
    PruneElements(s.paths, p, ArrTree(vs));
  }

  lemma SelectionSame(s: Setting, p: Option<FieldPath>, step: Expr, o: Outcome, o': Outcome, later: bool)
    requires Agree(s, p, o, o')
    ensures Agree(s, p, SelectionContexts(step, o, later), SelectionContexts(step, o', later))
  {
    CollapseAgrees(s, p, o, o');
  }

  lemma NothingFoundSame(s: Setting, p: Option<FieldPath>, step: Expr, mapper: bool, o: Outcome, o': Outcome)
    requires Agree(s, p, o, o')
    ensures Agree(s, p, NothingFound(step, mapper, o), NothingFound(step, mapper, o'))
  {
    if p.Some? && o.Value? && IsArray(o.v) {
      PruneElements(s.paths, p.value, o.v.t);
    }
  }

  ghost predicate StepRuns(s: Setting, step: Expr, p: Option<FieldPath>, b: Bindings, env: Env, env': Env, v: Val,
                           v': Val) {
    Runs(s, p, b, env, env', v, v') && Covered(s, Collect(s.c, step, p, b))
  }

  lemma {:induction false} PathStepSame(s: Setting, step: Expr, p: Option<FieldPath>, b: Bindings, env: Env, env': Env,
                                        v: Val, v': Val, mapper: bool, last: bool)
    requires StepRuns(s, step, p, b, env, env', v, v')
    ensures Agree(s, Collect(s.c, step, p, b).path, PathStep(s.ops, step, v, env, mapper, last),
                  PathStep(s.ops, step, v', env', mapper, last))
    decreases step, 6, 0
  {
    RootArraySame(s, p, v, v', b, env, env');
    if step.Name? {
      NameStepSame(s.paths, p, step.field, v, v', last);
    } else if IsVariable(step) || (step.Block? && !mapper) {
      EvalSame(s, step, false, p, b, env, env', v, v');
    } else if IsSubscript(step) && !mapper {
      StageSame(s, step, false, p, b, env, env', v, v');
    } else if IsArray(v) {
      ArraySame(s.paths, p, v, v');
      MapSame(s, step, p, b, v.t.items, last, env, env');
    } else {
      EvalSame(s, step, false, p, b, env, env', v, v');
    }
  }

  lemma {:induction false} VariableStepSame(s: Setting, step: Expr, p: Option<FieldPath>, b: Bindings, env: Env,
                                            env': Env, v: Val, v': Val, last: bool)
    requires StepRuns(s, step, p, b, env, env', v, v')
    ensures Agree(s, Collect(s.c, step, p, b).path, VariableStep(s.ops, step, v, last, env),
                  VariableStep(s.ops, step, v', last, env'))
    decreases step, 6, 0
  {
    hide Collect, Covered, Honest, EachItem, Eval;
    RootArraySame(s, p, v, v', b, env, env');
    if IsArray(v) {
      ArraySame(s.paths, p, v, v');
      EachSame(s, step, p, b, v.t.items, env, env');
      var r, r' := EachItem(s.ops, step, v.t.items, env), EachItem(s.ops, step, v'.t.items, env');
      if r.Ok? && r'.Ok? {
        SpreadSame(s.paths, Collect(s.c, step, p, b).path, r.value, r'.value, last);
      }
    } else {
      EvalSame(s, step, false, p, b, env, env', v, v');
    }
  }

  lemma {:induction false} StepOnceSame(s: Setting, step: Expr, p: Option<FieldPath>, b: Bindings, env: Env, env': Env,
                                        v: Val, v': Val)
    requires StepRuns(s, step, p, b, env, env', v, v')
    ensures Agree(s, Collect(s.c, step, p, b).path, StepOnce(s.ops, step, v, env), StepOnce(s.ops, step, v', env'))
    decreases step, 6, 0
  {
    var q := Collect(s.c, step, p, b).path;
    if IsSubscript(step) {
      StageSame(s, step, false, p, b, env, env', v, v');
      CollapseAgrees(s, q, SubscriptStage(s.ops, step, false, v, env).out,
                     SubscriptStage(s.ops, step, false, v', env').out);
    } else if step.Name? {
      LookupSame(s.paths, p, step.field, v, v');
    } else {
      EvalSame(s, step, false, p, b, env, env', v, v');
    }
  }

  lemma {:induction false} OrdinaryStepSame(s: Setting, step: Expr, later: bool, p: Option<FieldPath>, b: Bindings,
                                            env: Env, env': Env, v: Val, v': Val, mapper: bool, last: bool)
    requires StepRuns(s, step, p, b, env, env', v, v')
    ensures StageAgree(s, Collect(s.c, step, p, b).path,
                       OrdinaryStep(s.ops, step, later, v, mapper, last, env),
                           OrdinaryStep(s.ops, step, later, v', mapper, last, env'))
    decreases step, 7, 0
  {
    var q := Collect(s.c, step, p, b).path;
    if !mapper && IsSubscript(step) && !last {
      StageSame(s, step, false, p, b, env, env', v, v');
      SelectionSame(s, q, step, SubscriptStage(s.ops, step, false, v, env).out,
                    SubscriptStage(s.ops, step, false, v', env').out, later);
    } else {
      PathStepSame(s, step, p, b, env, env', v, v', mapper, last);
      NothingFoundSame(s, q, step, mapper, PathStep(s.ops, step, v, env, mapper, last),
                       PathStep(s.ops, step, v', env', mapper, last));
    }
  }

  lemma {:induction false} FirstStepSame(s: Setting, step: Expr, top: bool, p: Option<FieldPath>, b: Bindings,
                                         env: Env, env': Env, v: Val, v': Val, mapper: bool, last: bool)
    requires StepRuns(s, step, p, b, env, env', v, v')
    ensures StageAgree(s, Collect(s.c, step, p, b).path, FirstStep(s.ops, step, top, v, mapper, last, env),
                       FirstStep(s.ops, step, top, v', mapper, last, env'))
    decreases step, 8, 0
  {
    hide Collect, Covered, Honest, OrdinaryStep, PathStep, StepOnce;
    RootArraySame(s, p, v, v', b, env, env');
    if StartsRoot(top, 0, v, env) {
      StepOnceSame(s, step, p, b, env.(wrapped := false), env'.(wrapped := false), v, v');
    } else if SubscriptsName(step) && IsArray(v) && !IsRootArray(v, env) {
      PathStepSame(s, step, p, b, env, env', v, v', true, last);
    } else {
      OrdinaryStepSame(s, step, false, p, b, env, env', v, v', mapper, last);
    }
  }

  lemma {:induction false} RunStepSame(s: Setting, step: Expr, i: nat, top: bool, p: Option<FieldPath>, b: Bindings,
                                       env: Env, env': Env, v: Val, v': Val, mapper: bool, last: bool)
    requires StepRuns(s, step, p, b, env, env', v, v')
    ensures StageAgree(s, Collect(s.c, step, p, b).path, RunStep(s.ops, step, i, top, v, mapper, last, env),
                       RunStep(s.ops, step, i, top, v', mapper, last, env'))
    decreases step, 9, 0
  {
    if i == 0 {
      FirstStepSame(s, step, top, p, b, env, env', v, v', mapper, last);
    } else if IsVariable(step) {
      VariableStepSame(s, step, p, b, env, env', v, v', last);
    } else {
      OrdinaryStepSame(s, step, true, p, b, env, env', v, v', mapper, last);
    }
  }

  lemma {:induction false} PathSame(s: Setting, e: Expr, top: bool, ctx: Option<FieldPath>, b: Bindings, env: Env,
                                    env': Env, v: Val, v': Val)
    requires e.Path? && Runs(s, ctx, b, env, env', v, v') && Covered(s, Collect(s.c, e, ctx, b))
    ensures Agree(s, Collect(s.c, e, ctx, b).path, Eval(s.ops, e, top, v, env), Eval(s.ops, e, top, v', env'))
    decreases e, 3, 0
  {
    StepsSame(s, e, 0, top, ctx, b, env, env', Value(v), Value(v'), false, false);
    CollapseAgrees(s, Collect(s.c, e, ctx, b).path,
                   EvalSteps(s.ops, e, 0, top, Value(v), false, false, env),
                   EvalSteps(s.ops, e, 0, top, Value(v'), false, false, env'));
  }

  /** What covering the steps from i on covers: the i-th, and the steps after it. */
  lemma StepCovered(s: Setting, path: Expr, i: nat, p: Option<FieldPath>, b: Bindings)
    requires path.Path? && i < |path.steps| && Covered(s, CollectSteps(s.c, path, i, p, b))
    ensures var step := path.steps[i]; var q := Collect(s.c, step, p, b).path;
            && Covered(s, Collect(s.c, step, p, b)) && Covered(s, CollectSteps(s.c, path, i + 1, q, b))
            && CollectSteps(s.c, path, i, p, b).path == CollectSteps(s.c, path, i + 1, q, b).path
            && Covered(s, StepInput(step, i == 0, p))
  {
    var step := path.steps[i];
    var q := Collect(s.c, step, p, b).path;
    CoveredBoth(s, CollectStep(s.c, step, i == 0, p, b), CollectSteps(s.c, path, i + 1, q, b));
    CoveredBoth(s, StepInput(step, i == 0, p), Collect(s.c, step, p, b));
  }

  lemma {:induction false} StepsSame(s: Setting, path: Expr, i: nat, top: bool, p: Option<FieldPath>, b: Bindings,
                                     env: Env, env': Env, o: Outcome, o': Outcome, kept: bool, mapper: bool)
    requires path.Path? && i <= |path.steps| && Covered(s, CollectSteps(s.c, path, i, p, b))
    requires Honest(s) && SameEnv(s, b, env, env') && Reached(s.paths, p)
    requires !o.Fail? && SameOutcome(s.paths, p, o, o')
    ensures Agree(s, CollectSteps(s.c, path, i, p, b).path,
                  EvalSteps(s.ops, path, i, top, o, kept, mapper, env),
                      EvalSteps(s.ops, path, i, top, o', kept, mapper, env'))
    decreases path, 0, |path.steps| - i
  {
    if i < |path.steps| {
      StepCovered(s, path, i, p, b);
      StepContextSame(s, p, o, o');
      var v, v' := StepContext(o), StepContext(o');
      if i > 0 && v.Undef? && !kept {
        UndefSame(s, CollectSteps(s.c, path, i, p, b).path);
      } else {
        StepsSameAfter(s, path, i, top, p, b, env, env', v, v', mapper);
      }
    }
  }

  lemma UndefSame(s: Setting, p: Option<FieldPath>)
    ensures SameOutcome(s.paths, p, Value(Undef), Value(Undef))
  {
  }

  /** The steps from i on, run over an input. */
  function StepsOver(ops: Ops, path: Expr, i: nat, top: bool, v: Val, mapper: bool, env: Env): Outcome
    requires path.Path? && i < |path.steps|
  {
    var s := RunStep(ops, path.steps[i], i, top, v, mapper, i == |path.steps| - 1, env);
    EvalSteps(ops, path, i + 1, top, s.out, s.kept, IsMapper(s.out),
              if StartsRoot(top, i, v, env) then env.(wrapped := false) else env)
  }

  lemma {:induction false} StepsSameAfter(s: Setting, path: Expr, i: nat, top: bool, p: Option<FieldPath>, b: Bindings,
                                          env: Env, env': Env, v: Val, v': Val, mapper: bool)
    requires path.Path? && i < |path.steps| && Covered(s, Collect(s.c, path.steps[i], p, b))
    requires var q := Collect(s.c, path.steps[i], p, b).path; Covered(s, CollectSteps(s.c, path, i + 1, q, b))
    requires Runs(s, p, b, env, env', v, v')
    ensures var q := Collect(s.c, path.steps[i], p, b).path;
            Agree(s, CollectSteps(s.c, path, i + 1, q, b).path,
                  StepsOver(s.ops, path, i, top, v, mapper, env), StepsOver(s.ops, path, i, top, v', mapper, env'))
    decreases path, 0, |path.steps| - i, 0
  {
    hide Collect, CollectSteps, RunStep, Covered, IsMapper;
    var step, last := path.steps[i], i == |path.steps| - 1;
    var q := Collect(s.c, step, p, b).path;
    RunStepSame(s, step, i, top, p, b, env, env', v, v', mapper, last);
    RootArraySame(s, p, v, v', b, env, env');
    var r, r' := RunStep(s.ops, step, i, top, v, mapper, last, env),
        RunStep(s.ops, step, i, top, v', mapper, last, env');
    var next := if StartsRoot(top, i, v, env) then env.(wrapped := false) else env;
    var next' := if StartsRoot(top, i, v', env') then env'.(wrapped := false) else env';
    if r.out.Fail? || r'.out.Fail? {
    } else if Reached(s.paths, q) {
      MapperSame(s, q, r.out, r'.out);
      StepsSame(s, path, i + 1, top, q, b, next, next', r.out, r'.out, r.kept, IsMapper(r.out));
    } else {
      DeadSteps(s, path, i + 1, top, q.value, b, next, next', r.out, r.kept, r'.kept, IsMapper(r.out),
                IsMapper(r'.out));
    }
  }

  lemma MapperSame(s: Setting, p: Option<FieldPath>, o: Outcome, o': Outcome)
    requires Reached(s.paths, p) && SameOutcome(s.paths, p, o, o') && !o.Fail?
    ensures IsMapper(o) == IsMapper(o')
  {
    StepContextSame(s, p, o, o');
  }

  /** Steps over a path that is not recorded only read fields of it, and so pass on nothing in the pruned run. */
  lemma DeadSteps(s: Setting, path: Expr, i: nat, top: bool, p: FieldPath, b: Bindings, env: Env, env': Env,
                  o: Outcome, kept: bool, kept': bool, mapper: bool, mapper': bool)
    requires path.Path? && 0 < i <= |path.steps| && Covered(s, CollectSteps(s.c, path, i, Some(p), b))
             && !Live(s.paths, p) && !o.Fail?
    ensures Agree(s, CollectSteps(s.c, path, i, Some(p), b).path,
                  EvalSteps(s.ops, path, i, top, o, kept, mapper, env),
                  EvalSteps(s.ops, path, i, top, Value(Undef), kept', mapper', env'))
  {
    DeadPath(s, path, i, p, b);
    DeadPruned(s, path, i, top, p, b, env', kept', mapper');
    if s.strict {
      DeadTotal(s, path, i, top, p, b, env, o, kept, mapper);
      DeadTotal(s, path, i, top, p, b, env', Value(Undef), kept', mapper');
    }
  }

  lemma DeadChild(s: Setting, p: FieldPath, field: string)
    requires !Live(s.paths, p)
    ensures !Live(s.paths, p + [field])
  {
    if Live(s.paths, p + [field]) {
      LiveParent(s.paths, p, field);
    }
  }

  /** A step that reads fields of a path that is not recorded results in one. */
  lemma {:induction false} DeadStep(s: Setting, step: Expr, p: FieldPath, b: Bindings)
    requires ReadsFields(step) && !Live(s.paths, p)
    ensures var q := Collect(s.c, step, Some(p), b).path; q.Some? && !Live(s.paths, q.value)
    decreases step
  {
    if IsSubscript(step) {
      DeadStep(s, step.base, p, b);
    } else if step.Name? {
      DeadChild(s, p, step.field);
    }
  }

  lemma DeadReads(s: Setting, step: Expr, p: FieldPath)
    requires !Live(s.paths, p) && Covered(s, StepInput(step, false, Some(p)))
    ensures ReadsFields(step)
  {
    if !ReadsFields(step) {
      CoveredRead(s, PathIs(Some(p)));
      ReadIsWhole(s.paths, p);
    }
  }

  lemma {:induction false} DeadPath(s: Setting, path: Expr, i: nat, p: FieldPath, b: Bindings)
    requires path.Path? && 0 < i <= |path.steps| && Covered(s, CollectSteps(s.c, path, i, Some(p), b))
             && !Live(s.paths, p)
    ensures var q := CollectSteps(s.c, path, i, Some(p), b).path; q.Some? && !Live(s.paths, q.value)
    decreases |path.steps| - i
  {
    if i < |path.steps| {
      StepCovered(s, path, i, Some(p), b);
      DeadReads(s, path.steps[i], p);
      DeadStep(s, path.steps[i], p, b);
      DeadPath(s, path, i + 1, Collect(s.c, path.steps[i], Some(p), b).path.value, b);
    }
  }

  predicate FailsOrUndef(o: Outcome) {
    o.Fail? || IsUndef(o)
  }

  lemma BaseReads(e: Expr)
    requires IsSubscript(e) && ReadsFields(e)
    ensures ReadsFields(e.base) && (IsSubscript(e.base) || e.base.Name? || e.base.Context?)
  {
    assert StepBase(e) == StepBase(e.base);
  }

  /** A step that reads fields of undefined is undefined, unless a predicate fails. */
  lemma {:induction false} UndefStage(ops: Ops, e: Expr, top: bool, env: Env)
    requires IsSubscript(e) && ReadsFields(e)
    ensures FailsOrUndef(SubscriptStage(ops, e, top, Undef, env).out)
    decreases e
  {
    BaseReads(e);
    var left := StageLeft(ops, e, top, Undef, env);
    if IsSubscript(e.base) {
      UndefStage(ops, e.base, top, env);
    } else if e.base.Context? {
      assert Eval(ops, e.base, top, Undef, env) == Value(Undef);
    }
    assert FailsOrUndef(left.out) && FailsOrUndef(Select(ops, e, left, env).out);
  }

  lemma UndefStep(ops: Ops, step: Expr, i: nat, top: bool, mapper: bool, last: bool, env: Env)
    requires ReadsFields(step) && i > 0
    ensures FailsOrUndef(RunStep(ops, step, i, top, Undef, mapper, last, env).out)
  {
    if IsSubscript(step) {
      UndefStage(ops, step, false, env);
      assert FailsOrUndef(Eval(ops, step, false, Undef, env));
    } else {
      assert IsUndef(Eval(ops, step, false, Undef, env));
    }
    assert FailsOrUndef(PathStep(ops, step, Undef, env, mapper, last));
  }

  lemma {:induction false} DeadPruned(s: Setting, path: Expr, i: nat, top: bool, p: FieldPath, b: Bindings, env: Env,
                                      kept: bool, mapper: bool)
    requires path.Path? && 0 < i <= |path.steps| && Covered(s, CollectSteps(s.c, path, i, Some(p), b))
             && !Live(s.paths, p)
    ensures FailsOrUndef(EvalSteps(s.ops, path, i, top, Value(Undef), kept, mapper, env))
    decreases |path.steps| - i
  {
    if i < |path.steps| && kept {
      var step, last := path.steps[i], i == |path.steps| - 1;
      StepCovered(s, path, i, Some(p), b);
      DeadReads(s, step, p);
      DeadStep(s, step, p, b);
      UndefStep(s.ops, step, i, top, mapper, last, env);
      var r := RunStep(s.ops, step, i, top, Undef, mapper, last, env);
      if !r.out.Fail? {
        DeadPruned(s, path, i + 1, top, Collect(s.c, step, Some(p), b).path.value, b, env, r.kept, IsMapper(r.out));
      }
    }
  }

  /** No computed filter among the subscripts of a step. */
  predicate NoTests(step: Expr) {
    !step.Filter? && (step.Pick? ==> NoTests(step.base))
  }

  /** A strict setting has no computed filter over a path that is not recorded. */
  lemma {:induction false} StrictNoTests(s: Setting, step: Expr, p: FieldPath, b: Bindings)
    requires s.strict && ReadsFields(step) && !Live(s.paths, p) && Covered(s, Collect(s.c, step, Some(p), b))
    ensures NoTests(step)
    decreases step
  {
    if IsSubscript(step) {
      BaseCovered(s, step, Some(p), b);
      DeadStep(s, step.base, p, b);
      StrictNoTests(s, step.base, p, b);
    }
  }

  /** Field lookups and picks do not fail. */
  lemma {:induction false} PicksTotal(ops: Ops, e: Expr, top: bool, v: Val, env: Env)
    requires IsSubscript(e) && ReadsFields(e) && NoTests(e)
    ensures !SubscriptStage(ops, e, top, v, env).out.Fail?
    decreases e
  {
    BaseReads(e);
    var left := StageLeft(ops, e, top, v, env);
    if IsSubscript(e.base) {
      PicksTotal(ops, e.base, top, v, env);
    } else if e.base.Context? {
      assert Eval(ops, e.base, top, v, env) == Value(v);
    }
    assert !left.out.Fail? && !Select(ops, e, left, env).out.Fail?;
  }

  lemma {:induction false} EachTotal(ops: Ops, step: Expr, items: seq<Tree>, env: Env)
    requires ReadsFields(step) && NoTests(step)
    ensures EachItem(ops, step, items, env).Ok?
    decreases |items|
  {
    if items != [] {
      if IsSubscript(step) {
        PicksTotal(ops, step, false, Def(items[0], false), env);
      }
      EachTotal(ops, step, items[1..], env);
    }
  }

  lemma StepTotal(ops: Ops, step: Expr, i: nat, top: bool, v: Val, mapper: bool, last: bool, env: Env)
    requires ReadsFields(step) && NoTests(step) && i > 0
    ensures !RunStep(ops, step, i, top, v, mapper, last, env).out.Fail?
  {
    if IsArray(v) {
      EachTotal(ops, step, v.t.items, env);
      assert !MapStep(ops, step, v.t.items, last, env).Fail? && !MapStep(ops, step, v.t.items, true, env).Fail?;
    }
    if IsSubscript(step) {
      PicksTotal(ops, step, false, v, env);
    }
    assert !Eval(ops, step, false, v, env).Fail?;
    assert !PathStep(ops, step, v, env, mapper, last).Fail?;
  }

  lemma {:induction false} DeadTotal(s: Setting, path: Expr, i: nat, top: bool, p: FieldPath, b: Bindings, env: Env,
                                     o: Outcome, kept: bool, mapper: bool)
    requires s.strict && !o.Fail?
    requires path.Path? && 0 < i <= |path.steps| && Covered(s, CollectSteps(s.c, path, i, Some(p), b))
             && !Live(s.paths, p)
    ensures !EvalSteps(s.ops, path, i, top, o, kept, mapper, env).Fail?
    decreases |path.steps| - i
  {
    hide Covered, Collect, CollectSteps, RunStep, NoTests, Live, ReadsFields, IsMapper;
    var v := StepContext(o);
    if i < |path.steps| && (v.Def? || kept) {
      var step, last := path.steps[i], i == |path.steps| - 1;
      StepCovered(s, path, i, Some(p), b);
      DeadReads(s, step, p);
      DeadStep(s, step, p, b);
      StrictNoTests(s, step, p, b);
      StepTotal(s.ops, step, i, top, v, mapper, last, env);
      var r := RunStep(s.ops, step, i, top, v, mapper, last, env);
      DeadTotal(s, path, i + 1, top, Collect(s.c, step, Some(p), b).path.value, b, env, r.out, r.kept, IsMapper(r.out));
    }
  }
}
