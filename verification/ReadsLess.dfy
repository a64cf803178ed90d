/** What an expression reads when less is known of where its context is in the input. */
module ReadsLess {
  import opened Wrappers
  import opened PathEval
  import opened PathPruning
  import opened PathReads
  import opened PathSoundness

  /** A report made knowing less of where its context is reads no more. */
  predicate LessPath(p: Option<FieldPath>, q: Option<FieldPath>) {
    p.None? || p == q
  }

  ghost predicate Less(r: Report, t: Report) {
    && LessPath(r.path, t.path) && (t.complete ==> r.complete)
    && (forall p :: p in r.recorded ==> p in t.recorded) && (forall p :: p in r.filtered ==> p in t.filtered)
  }

  ghost predicate LessBindings(b: Bindings, d: Bindings) {
    && b.Keys == d.Keys
    && forall x :: x in b ==> b[x].Free? == d[x].Free? && (b[x].Holds? ==> LessPath(b[x].path, d[x].path))
  }

  lemma ReadLess(r: Report, t: Report)
    requires Less(r, t)
    ensures Less(r.Read(), t.Read()) && Less(r.Drop(), t.Drop()) && Less(r.Filtered(), t.Filtered())
    ensures Less(r.Read().Drop(), t.Read().Drop())
  {
  }

  lemma ThenLess(r: Report, t: Report, next: Report, after: Report)
    requires Less(r, t) && Less(next, after)
    ensures Less(r.Then(next), t.Then(after)) && Less(r.Then(next).Drop(), t.Then(after).Drop())
    ensures Less(r.Then(next).(path := r.path), t.Then(after).(path := t.path))
  {
  }

  lemma {:induction false} CollectLess(c: Config, e: Expr, p: Option<FieldPath>, q: Option<FieldPath>,
                                       b: Bindings, d: Bindings)
    requires LessPath(p, q) && LessBindings(b, d)
    ensures Less(Collect(c, e, p, b), Collect(c, e, q, d))
    decreases e, 1
  {
    match e
    case Path(_) => StepsLess(c, e, 0, p, q, b, d);
    case Pick(base, _) => CollectLess(c, base, p, q, b, d);
    case Filter(_, _) => FilterLess(c, e, p, q, b, d);
    case Binary(_, left, right) =>
      hide Less;
      CollectLess(c, left, p, q, b, d);
      CollectLess(c, right, p, q, b, d);
      BothLess(Collect(c, left, p, b), Collect(c, left, q, d), Collect(c, right, p, b), Collect(c, right, q, d));
    case Negate(operand) =>
      CollectLess(c, operand, p, q, b, d);
      ReadLess(Collect(c, operand, p, b), Collect(c, operand, q, d));
    case Condition(_, _, _) => ConditionLess(c, e, p, q, b, d);
    case ArrayOf(parts) => ValuesLess(c, parts, p, q, b, d);
    case Call(name, args) =>
      hide Less;
      ValuesLess(c, args, p, q, b, d);
      CallLess(c, name, args, p, q, b, d);
      ThenLess(CollectValues(c, args, p, b), CollectValues(c, args, q, d),
               CallReads(c, name, args, p, b), CallReads(c, name, args, q, d));
    case Block(statements) => BlockLess(c, statements, p, q, b, d);
    case _ =>
  }

  lemma {:induction false} FilterLess(c: Config, e: Expr, p: Option<FieldPath>, q: Option<FieldPath>,
                                      b: Bindings, d: Bindings)
    requires e.Filter? && LessPath(p, q) && LessBindings(b, d)
    ensures Less(Collect(c, e, p, b), Collect(c, e, q, d))
    decreases e, 0
  {
    var r, t := Collect(c, e.base, p, b).Filtered(), Collect(c, e.base, q, d).Filtered();
    CollectLess(c, e.base, p, q, b, d);
    ReadLess(Collect(c, e.base, p, b), Collect(c, e.base, q, d));
    CollectLess(c, e.test, r.path, t.path, b, d);
    hide Less;
    ReadLess(Collect(c, e.test, r.path, b), Collect(c, e.test, t.path, d));
    ThenLess(r, t, Collect(c, e.test, r.path, b).Read(), Collect(c, e.test, t.path, d).Read());
  }

  lemma {:induction false} ConditionLess(c: Config, e: Expr, p: Option<FieldPath>, q: Option<FieldPath>,
                                         b: Bindings, d: Bindings)
    requires e.Condition? && LessPath(p, q) && LessBindings(b, d)
    ensures Less(Collect(c, e, p, b), Collect(c, e, q, d))
    decreases e, 0
  {
    hide Less;
    CollectLess(c, e.guard, p, q, b, d);
    CollectLess(c, e.yes, p, q, b, d);
    var r, t := Collect(c, e.guard, p, b), Collect(c, e.guard, q, d);
    var r', t' := Collect(c, e.yes, p, b), Collect(c, e.yes, q, d);
    BothLess(r, t, r', t');
    if e.no.Some? {
      CollectLess(c, e.no.value, p, q, b, d);
      ReadLess(Collect(c, e.no.value, p, b), Collect(c, e.no.value, q, d));
      ThenLess(r.Read().Then(r'.Read()), t.Read().Then(t'.Read()),
               Collect(c, e.no.value, p, b).Read(), Collect(c, e.no.value, q, d).Read());
    }
  }

  lemma BothLess(r: Report, t: Report, next: Report, after: Report)
    requires Less(r, t) && Less(next, after)
    ensures Less(r.Read().Then(next.Read()), t.Read().Then(after.Read()))
    ensures Less(r.Read().Then(next.Read()).Drop(), t.Read().Then(after.Read()).Drop())
  {
  }

  lemma CallLess(c: Config, name: string, args: seq<Expr>, p: Option<FieldPath>, q: Option<FieldPath>,
                 b: Bindings, d: Bindings)
    requires LessPath(p, q) && LessBindings(b, d)
    ensures Less(CallReads(c, name, args, p, b), CallReads(c, name, args, q, d))
  {
  }

  lemma {:induction false} ValuesLess(c: Config, parts: seq<Expr>, p: Option<FieldPath>, q: Option<FieldPath>,
                                      b: Bindings, d: Bindings)
    requires LessPath(p, q) && LessBindings(b, d)
    ensures Less(CollectValues(c, parts, p, b), CollectValues(c, parts, q, d))
    decreases parts, 0
  {
    if parts != [] {
      CollectLess(c, parts[0], p, q, b, d);
      ValuesLess(c, parts[1..], p, q, b, d);
      ReadLess(Collect(c, parts[0], p, b), Collect(c, parts[0], q, d));
      ThenLess(Collect(c, parts[0], p, b).Read(), Collect(c, parts[0], q, d).Read(),
               CollectValues(c, parts[1..], p, b), CollectValues(c, parts[1..], q, d));
    }
  }

  lemma {:induction false} StatementLess(c: Config, s: Statement, p: Option<FieldPath>, q: Option<FieldPath>,
                                         b: Bindings, d: Bindings)
    requires LessPath(p, q) && LessBindings(b, d)
    ensures Less(CollectStatement(c, s, p, b), CollectStatement(c, s, q, d))
    decreases s, 0
  {
    CollectLess(c, s.e, p, q, b, d);
  }

  lemma {:induction false} BlockLess(c: Config, statements: seq<Statement>, p: Option<FieldPath>, q: Option<FieldPath>,
                                     b: Bindings, d: Bindings)
    requires LessPath(p, q) && LessBindings(b, d)
    ensures Less(CollectBlock(c, statements, p, b), CollectBlock(c, statements, q, d))
    decreases statements, 0
  {
    if statements != [] {
      var s := statements[0];
      var r, t := CollectStatement(c, s, p, b), CollectStatement(c, s, q, d);
      StatementLess(c, s, p, q, b, d);
      if |statements| > 1 {
        var b', d' := if s.Let? then Bind(c, s.name, r.path, b) else b,
            if s.Let? then Bind(c, s.name, t.path, d) else d;
        BlockLess(c, statements[1..], p, q, b', d');
        ReadLess(r, t);
        ThenLess(if s.Let? then r else r.Read(), if s.Let? then t else t.Read(),
                 CollectBlock(c, statements[1..], p, b'), CollectBlock(c, statements[1..], q, d'));
      }
    }
  }

  lemma {:induction false} StepsLess(c: Config, path: Expr, i: nat, p: Option<FieldPath>, q: Option<FieldPath>,
                                     b: Bindings, d: Bindings)
    requires path.Path? && i <= |path.steps| && LessPath(p, q) && LessBindings(b, d)
    ensures Less(CollectSteps(c, path, i, p, b), CollectSteps(c, path, i, q, d))
    decreases path, 0, |path.steps| - i
  {
    if i < |path.steps| {
      var step := path.steps[i];
      var r, t := CollectStep(c, step, i == 0, p, b), CollectStep(c, step, i == 0, q, d);
      CollectLess(c, step, p, q, b, d);
      ThenLess(StepInput(step, i == 0, p), StepInput(step, i == 0, q), Collect(c, step, p, b), Collect(c, step, q, d));
      StepsLess(c, path, i + 1, r.path, t.path, b, d);
      ThenLess(r, t, CollectSteps(c, path, i + 1, r.path, b), CollectSteps(c, path, i + 1, t.path, d));
    }
  }

  lemma CoveredLess(s: Setting, r: Report, t: Report)
    requires Less(r, t) && Covered(s, t)
    ensures Covered(s, r)
  {
  }
}
