/** A branch no evaluation takes is reported like any other. */
module DeadBranch {
  import opened Wrappers
  import opened Trees
  import opened PathEval
  import opened PathPruning
  import opened PathReads
  import opened PathRuns
  import opened PathLooks
  import opened PathCollector
  import opened ReferencedPaths

  /** a ? (a ? b : dead) : d */
  function Twice(dead: Expr): Expr {
    Condition(Name("a"), Condition(Name("a"), Name("b"), Some(dead)), Some(Name("d")))
  }

  /** a ? b : d */
  function Once(): Expr {
    Condition(Name("a"), Name("b"), Some(Name("d")))
  }

  lemma TwiceIsOnce(dead: Expr, ops: Ops, input: Tree)
    ensures Run(ops, Twice(dead), input) == Run(ops, Once(), input)
  {
    var v, env := Def(input, true), Env(input, true, map[]);
    var a, inner := Eval(ops, Name("a"), true, v, env), Condition(Name("a"), Name("b"), Some(dead));
    if !a.Fail? && TruthyValue(ops, a.v) {
      assert Eval(ops, inner, true, v, env) == Eval(ops, Name("b"), true, v, env);
    }
  }

  lemma FieldReads(c: Config, field: string)
    ensures Collect(c, Name(field), Some([]), map[]).Read() == Report(Some([field]), [[field]], true, [[field]], [])
  {
    assert [] + [field] == [field];
  }

  lemma OnceReads()
    ensures var r := ReadsOf(Once(), (_, _) => true);
            r.complete && r.recorded == [["a"], ["b"], ["d"]] && r.filtered == []
  {
    var c := ConfigOf(Once(), (_, _) => true);
    FieldReads(c, "a");
    FieldReads(c, "b");
    FieldReads(c, "d");
  }

  lemma TwiceReads(field: string, readsContext: (string, ArgTypes) -> bool)
    ensures var r := ReadsOf(Twice(Name(field)), readsContext);
            r.complete && r.recorded == [["a"], ["a"], ["b"], [field], ["d"]]
    ensures !ReadsOf(Twice(Root), readsContext).complete
  {
    var c := ConfigOf(Twice(Name(field)), readsContext);
    FieldReads(c, "a");
    FieldReads(c, "b");
    FieldReads(c, field);
    FieldReads(c, "d");
    var inner := Collect(c, Condition(Name("a"), Name("b"), Some(Name(field))), Some([]), map[]);
    assert inner.complete && inner.path == None && inner.recorded == [["a"], ["b"], [field]];
    assert !Collect(c, Condition(Name("a"), Name("b"), Some(Root)), Some([]), map[]).complete;
  }

  lemma OnceSuffices(ops: Ops, input: Tree)
    ensures Run(ops, Once(), input) == Run(ops, Once(), Prune([["a"], ["b"], ["d"]], [], input))
  {
    hide Run, ReadsOf, Prune;
    OnceReads();
    BindingFreeIsExact(Once(), (_, _) => true, ops, input, [["a"], ["b"], ["d"]]);
  }

  /** No evaluation of a ? (a ? b : dead) : d depends on more than a, b and d. */
  lemma DeadNeverMatters(dead: Expr, ops: Ops, input: Tree)
    ensures Run(ops, Twice(dead), input) == Run(ops, Twice(dead), Prune([["a"], ["b"], ["d"]], [], input))
  {
    hide Run, Prune, Twice, Once;
    OnceSuffices(ops, input);
    TwiceIsOnce(dead, ops, input);
    TwiceIsOnce(dead, ops, Prune([["a"], ["b"], ["d"]], [], input));
  }

  /** But some way looks at a field that is its dead branch, so that is reported; and where that branch is the input,
      what is read is not all said to be named. */
  lemma DeadBranchReported(field: string, readsContext: (string, ArgTypes) -> bool)
    ensures ReadsOf(Twice(Name(field)), readsContext).complete
    ensures [field] in AddAll([], ReadsOf(Twice(Name(field)), readsContext).recorded)
    ensures LooksAt(Twice(Name(field)), readsContext, Look.Whole([field]))
    ensures !ReadsOf(Twice(Root), readsContext).complete && !AllNamed(Twice(Root), readsContext)
  {
    hide ReadsOf, LooksAt, LooksOf, Twice, AllNamed;
    TwiceReads(field, readsContext);
    var recorded := ReadsOf(Twice(Name(field)), readsContext).recorded;
    assert recorded[3] == [field];
    Recorded(Twice(Name(field)), readsContext, [field]);
    ReadsLookedAt(Twice(Root), readsContext);
  }

  lemma Recorded(e: Expr, readsContext: (string, ArgTypes) -> bool, p: FieldPath)
    requires p in ReadsOf(e, readsContext).recorded
    ensures p in AddAll([], ReadsOf(e, readsContext).recorded) && LooksAt(e, readsContext, Look.Whole(p))
  {
    ReadsLookedAt(e, readsContext);
    AddAllHolds([], ReadsOf(e, readsContext).recorded);
  }
}
