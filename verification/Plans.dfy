/** The fast paths a batch of expressions may take, and the key they are cached under. */
module Plans {
  import opened Wrappers

  datatype Comparison = Comparison(path: string, op: string, literal: string)

  datatype FuncCall = FuncCall(name: string, path: string)

  datatype BoolOp = AndOp | OrOp | NotOp | LeafOp

  /** A boolean expression evaluated without its syntax tree: op over subtrees, or a leaf. */
  datatype BoolTree = BoolTree(op: BoolOp, left: Option<BoolTree>, right: Option<BoolTree>, path: string,
                               cmp: Option<Comparison>, func: Option<FuncCall>)

  datatype Expression = Expression(fastPath: bool, paths: seq<string>, cmpFast: Option<Comparison>,
                                   funcFast: Option<FuncCall>, boolFast: Option<BoolTree>)

  /** The expressions registered; a removed one leaves its index empty. */
  type Slice = seq<Option<Expression>>

  /** Which fast path each expression of a batch takes; a kind no expression takes has no list. */
  datatype GroupPlan = GroupPlan(fastPaths: Option<seq<string>>, exprFastPath: Option<seq<bool>>,
                                 cmpFast: Option<seq<Option<Comparison>>>,
                                 funcFast: Option<seq<Option<FuncCall>>>, boolFast: Option<seq<Option<BoolTree>>>)

  predicate UsesShadowed(b: BoolTree, shadowed: set<string>) {
    || (b.op == NotOp && "not" in shadowed)
    || (b.func.Some? && b.func.value.name in shadowed)
    || (b.left.Some? && UsesShadowed(b.left.value, shadowed))
    || (b.right.Some? && UsesShadowed(b.right.value, shadowed))
  }

  /** How an expression is evaluated: by one of its fast paths, the first that applies, or on the decoded input. */
  datatype Choice =
    | Pure(path: string) | Compare(cmp: Comparison) | Call(func: FuncCall) | Compose(tree: BoolTree) | Decode | Absent

  function ChoiceOf(e: Expression, shadowed: set<string>): Choice {
    if e.fastPath && |e.paths| == 1 then Pure(e.paths[0])
    else if e.cmpFast.Some? then Compare(e.cmpFast.value)
    else if e.funcFast.Some? && e.funcFast.value.name !in shadowed then Call(e.funcFast.value)
    else if e.boolFast.Some? && !UsesShadowed(e.boolFast.value, shadowed) then Compose(e.boolFast.value)
    else Decode
  }

  function ChoiceAt(exprs: Slice, idx: int, shadowed: set<string>): Choice {
    if 0 <= idx < |exprs| && exprs[idx].Some? then ChoiceOf(exprs[idx].value, shadowed) else Absent
  }

  /** How each expression of a batch is evaluated. */
  function ChoicesOf(exprs: Slice, indices: seq<int>, shadowed: set<string>): (r: seq<Choice>)
    ensures |r| == |indices| && forall i :: 0 <= i < |indices| ==> r[i] == ChoiceAt(exprs, indices[i], shadowed)
  {
    seq(|indices|, i requires 0 <= i < |indices| => ChoiceAt(exprs, indices[i], shadowed))
  }

  /** What a plan has for the batch's expression i: the fast path tried first when it is evaluated. */
  function Planned(plan: GroupPlan, i: nat): Choice {
    if plan.exprFastPath.Some? && i < |plan.exprFastPath.value| && plan.exprFastPath.value[i]
       && plan.fastPaths.Some? && i < |plan.fastPaths.value| && plan.fastPaths.value[i] != ""
    then Pure(plan.fastPaths.value[i])
    else if plan.cmpFast.Some? && i < |plan.cmpFast.value| && plan.cmpFast.value[i].Some?
    then Compare(plan.cmpFast.value[i].value)
    else if plan.funcFast.Some? && i < |plan.funcFast.value| && plan.funcFast.value[i].Some?
    then Call(plan.funcFast.value[i].value)
    else if plan.boolFast.Some? && i < |plan.boolFast.value| && plan.boolFast.value[i].Some?
    then Compose(plan.boolFast.value[i].value)
    else Decode
  }

  /** A list, left out if no expression of the batch needs it, has for each expression its own entry. */
  ghost predicate ListFor<T(!new)>(list: Option<seq<T>>, needed: bool, choices: seq<Choice>, entry: Choice -> T) {
    && (list.Some? <==> needed)
    && (list.Some? ==> |list.value| == |choices| && forall i :: 0 <= i < |choices| ==>
        list.value[i] == entry(choices[i]))
  }

  function PathEntry(c: Choice): string {
    if c.Pure? then c.path else ""
  }

  function PureEntry(c: Choice): bool {
    c.Pure?
  }

  function CmpEntry(c: Choice): Option<Comparison> {
    if c.Compare? then Some(c.cmp) else None
  }

  function FuncEntry(c: Choice): Option<FuncCall> {
    if c.Call? then Some(c.func) else None
  }

  function BoolEntry(c: Choice): Option<BoolTree> {
    if c.Compose? then Some(c.tree) else None
  }

  /** plan is for a batch: each expression has its own fast path and no other; compositions have none
      when an expression of the batch is decoded anyway. */
  ghost predicate PlanFor(plan: GroupPlan, choices: seq<Choice>) {
    var pure := exists i :: 0 <= i < |choices| && choices[i].Pure?;
    && ListFor(plan.fastPaths, pure, choices, PathEntry)
    && ListFor(plan.exprFastPath, pure, choices, PureEntry)
    && ListFor(plan.cmpFast, exists i :: 0 <= i < |choices| && choices[i].Compare?, choices, CmpEntry)
    && ListFor(plan.funcFast, exists i :: 0 <= i < |choices| && choices[i].Call?, choices, FuncEntry)
    && ListFor(plan.boolFast, (exists i :: 0 <= i < |choices| && choices[i].Compose?) && Decode !in choices, choices,
               BoolEntry)
  }

  lemma ListUnique<T(!new)>(a: Option<seq<T>>, b: Option<seq<T>>, needed: bool, choices: seq<Choice>,
                            entry: Choice -> T)
    requires ListFor(a, needed, choices, entry) && ListFor(b, needed, choices, entry)
    ensures a == b
  {
    if needed {
      assert a.value == b.value;
    }
  }

  /** One batch has one plan. */
  lemma PlanUnique(a: GroupPlan, b: GroupPlan, choices: seq<Choice>)
    requires PlanFor(a, choices) && PlanFor(b, choices)
    ensures a == b
  {
    hide ListFor;
    var pure := exists i :: 0 <= i < |choices| && choices[i].Pure?;
    ListUnique(a.fastPaths, b.fastPaths, pure, choices, PathEntry);
    ListUnique(a.exprFastPath, b.exprFastPath, pure, choices, PureEntry);
    ListUnique(a.cmpFast, b.cmpFast, exists i :: 0 <= i < |choices| && choices[i].Compare?, choices, CmpEntry);
    ListUnique(a.funcFast, b.funcFast, exists i :: 0 <= i < |choices| && choices[i].Call?, choices, FuncEntry);
    ListUnique(a.boolFast, b.boolFast, (exists i :: 0 <= i < |choices| && choices[i].Compose?) && Decode !in choices,
               choices, BoolEntry);
  }

  /** What a plan has for an expression is how that expression is evaluated, or else it is decoded, which
      only an empty path and a composition in a batch that decodes anyway are besides. */
  lemma PlannedIs(plan: GroupPlan, choices: seq<Choice>, i: nat)
    requires PlanFor(plan, choices) && i < |choices|
    ensures var c := choices[i];
            Planned(plan, i) == if c.Absent? || c == Pure("") || (c.Compose? && Decode in choices) then Decode else c
  {
  }

  /** The first n entries of a list are filled in; the rest are as for no expression. */
  ghost predicate Filled<T(!new)>(list: seq<T>, n: nat, choices: seq<Choice>, entry: Choice -> T) {
    && n <= |choices| == |list|
    && forall k :: 0 <= k < |list| ==> list[k] == entry(if k < n then choices[k] else Absent)
  }

  lemma FillNext<T(!new)>(list: seq<T>, more: seq<T>, n: nat, choices: seq<Choice>, entry: Choice -> T)
    requires Filled(list, n, choices, entry) && n < |choices| == |list|
    requires more == list[n := entry(choices[n])] || (more == list && entry(choices[n]) == entry(Absent))
    ensures Filled(more, n + 1, choices, entry)
  {
  }

  lemma FilledList<T(!new)>(list: seq<T>, needed: bool, choices: seq<Choice>, entry: Choice -> T)
    requires Filled(list, |choices|, choices, entry)
    ensures ListFor(if needed then Some(list) else None, needed, choices, entry)
  {
  }

  /** A plan under way: its lists, and which kinds of fast path the batch has so far. */
  datatype Draft = Draft(fastPaths: seq<string>, exprFastPath: seq<bool>, cmpFast: seq<Option<Comparison>>,
                         funcFast: seq<Option<FuncCall>>, boolFast: seq<Option<BoolTree>>,
                         hasPure: bool, hasCmp: bool, hasFunc: bool, hasBool: bool, needsDecode: bool)

  ghost predicate Lists(d: Draft, n: nat, choices: seq<Choice>) {
    && Filled(d.fastPaths, n, choices, PathEntry) && Filled(d.exprFastPath, n, choices, PureEntry)
    && Filled(d.cmpFast, n, choices, CmpEntry) && Filled(d.funcFast, n, choices, FuncEntry)
    && Filled(d.boolFast, n, choices, BoolEntry)
  }

  ghost predicate Flags(d: Draft, n: nat, choices: seq<Choice>)
    requires n <= |choices|
  {
    && (d.hasPure <==> exists k :: 0 <= k < n && choices[k].Pure?)
    && (d.hasCmp <==> exists k :: 0 <= k < n && choices[k].Compare?)
    && (d.hasFunc <==> exists k :: 0 <= k < n && choices[k].Call?)
    && (d.hasBool <==> exists k :: 0 <= k < n && choices[k].Compose?)
    && (d.needsDecode <==> exists k :: 0 <= k < n && choices[k] == Decode)
  }

  /** Adds how the batch's expression i is evaluated. */
  function Note(d: Draft, i: nat, c: Choice): Draft
    requires i < |d.fastPaths| == |d.exprFastPath| == |d.cmpFast| == |d.funcFast| == |d.boolFast|
  {
    match c
    case Pure(path) =>
        d.(fastPaths := d.fastPaths[i := path], exprFastPath := d.exprFastPath[i := true], hasPure := true)
    case Compare(cmp) => d.(cmpFast := d.cmpFast[i := Some(cmp)], hasCmp := true)
    case Call(func) => d.(funcFast := d.funcFast[i := Some(func)], hasFunc := true)
    case Compose(tree) => d.(boolFast := d.boolFast[i := Some(tree)], hasBool := true)
    case Decode => d.(needsDecode := true)
    case Absent => d
  }

  lemma NoteLists(d: Draft, i: nat, choices: seq<Choice>)
    requires Lists(d, i, choices) && i < |choices|
    ensures i < |d.fastPaths| == |d.exprFastPath| == |d.cmpFast| == |d.funcFast| == |d.boolFast|
    ensures Lists(Note(d, i, choices[i]), i + 1, choices)
  {
    hide Filled, Note, PathEntry, PureEntry, CmpEntry, FuncEntry, BoolEntry;
    ListLengths(d, i, choices);
    NoteEntries(d, i, choices[i]);
    var next := Note(d, i, choices[i]);
    FillNext(d.fastPaths, next.fastPaths, i, choices, PathEntry);
    FillNext(d.exprFastPath, next.exprFastPath, i, choices, PureEntry);
    FillNext(d.cmpFast, next.cmpFast, i, choices, CmpEntry);
    FillNext(d.funcFast, next.funcFast, i, choices, FuncEntry);
    FillNext(d.boolFast, next.boolFast, i, choices, BoolEntry);
  }

  /** Each list has its entry for the expression, or had it already. */
  lemma NoteEntries(d: Draft, i: nat, c: Choice)
    requires i < |d.fastPaths| == |d.exprFastPath| == |d.cmpFast| == |d.funcFast| == |d.boolFast|
    ensures var next := Note(d, i, c);
            && (next.fastPaths == d.fastPaths[i := PathEntry(c)]
                || (next.fastPaths == d.fastPaths && PathEntry(c) == PathEntry(Absent)))
            && (next.exprFastPath == d.exprFastPath[i := PureEntry(c)]
                || (next.exprFastPath == d.exprFastPath && PureEntry(c) == PureEntry(Absent)))
            && (next.cmpFast == d.cmpFast[i := CmpEntry(c)]
                || (next.cmpFast == d.cmpFast && CmpEntry(c) == CmpEntry(Absent)))
            && (next.funcFast == d.funcFast[i := FuncEntry(c)]
                || (next.funcFast == d.funcFast && FuncEntry(c) == FuncEntry(Absent)))
            && (next.boolFast == d.boolFast[i := BoolEntry(c)]
                || (next.boolFast == d.boolFast && BoolEntry(c) == BoolEntry(Absent)))
  {
  }

  lemma ListLengths(d: Draft, n: nat, choices: seq<Choice>)
    requires Lists(d, n, choices)
    ensures |d.fastPaths| == |d.exprFastPath| == |d.cmpFast| == |d.funcFast| == |d.boolFast| == |choices|
  {
  }

  lemma NoteFlags(d: Draft, i: nat, choices: seq<Choice>)
    requires i < |d.fastPaths| == |d.exprFastPath| == |d.cmpFast| == |d.funcFast| == |d.boolFast|
    requires i < |choices| && Flags(d, i, choices)
    ensures Flags(Note(d, i, choices[i]), i + 1, choices)
  {
  }

  /** The plan for a batch over the slice. */
  method BuildPlan(exprs: Slice, indices: seq<int>, shadowed: set<string>) returns (plan: GroupPlan)
    ensures PlanFor(plan, ChoicesOf(exprs, indices, shadowed))
  {
    hide ChoiceAt, Filled, ListFor, Lists, Flags, Note;
    ghost var choices := ChoicesOf(exprs, indices, shadowed);
    var n := |indices|;
    var d := Draft(seq(n, _ => ""), seq(n, _ => false), seq(n, _ => None), seq(n, _ => None), seq(n, _ => None),
                   false, false, false, false, false);
    Blank(d, choices);
    for i := 0 to n
      invariant Lists(d, i, choices) && Flags(d, i, choices)
    {
      NoteLists(d, i, choices);
      NoteFlags(d, i, choices);
      d := Note(d, i, ChoiceAt(exprs, indices[i], shadowed));
    }
    plan := GroupPlan(if d.hasPure then Some(d.fastPaths) else None, if d.hasPure then Some(d.exprFastPath) else None,
                      if d.hasCmp then Some(d.cmpFast) else None, if d.hasFunc then Some(d.funcFast) else None,
                      if d.hasBool && !d.needsDecode then Some(d.boolFast) else None);
    Whole(d, choices);
  }

  lemma Blank(d: Draft, choices: seq<Choice>)
    requires |d.fastPaths| == |d.exprFastPath| == |d.cmpFast| == |d.funcFast| == |d.boolFast| == |choices|
    requires forall k :: 0 <= k < |choices| ==> d.fastPaths[k] == "" && !d.exprFastPath[k]
    requires forall k :: 0 <= k < |choices| ==> d.cmpFast[k] == None && d.funcFast[k] == None && d.boolFast[k] == None
    requires !d.hasPure && !d.hasCmp && !d.hasFunc && !d.hasBool && !d.needsDecode
    ensures Lists(d, 0, choices) && Flags(d, 0, choices)
  {
  }

  lemma Whole(d: Draft, choices: seq<Choice>)
    requires Lists(d, |choices|, choices) && Flags(d, |choices|, choices)
    ensures PlanFor(GroupPlan(if d.hasPure then Some(d.fastPaths) else None,
                              if d.hasPure then Some(d.exprFastPath) else None,
                              if d.hasCmp then Some(d.cmpFast) else None, if d.hasFunc then Some(d.funcFast) else None,
                              if d.hasBool && !d.needsDecode then Some(d.boolFast) else None), choices)
  {
    hide Filled, ListFor;
    FilledList(d.fastPaths, d.hasPure, choices, PathEntry);
    FilledList(d.exprFastPath, d.hasPure, choices, PureEntry);
    FilledList(d.cmpFast, d.hasCmp, choices, CmpEntry);
    FilledList(d.funcFast, d.hasFunc, choices, FuncEntry);
    FilledList(d.boolFast, d.hasBool && !d.needsDecode, choices, BoolEntry);
  }

  /** The builtins a composition calls. */
  function Calls(b: BoolTree): set<string> {
    (if b.op.NotOp? then {"not"} else {}) + (if b.func.Some? then {b.func.value.name} else {})
    + (if b.left.Some? then Calls(b.left.value) else {}) + (if b.right.Some? then Calls(b.right.value) else {})
  }

  /** The builtins a fast path calls. */
  function CallsOf(c: Choice): set<string> {
    match c
    case Call(f) => {f.name}
    case Compose(b) => Calls(b)
    case _ => {}
  }

  lemma {:induction false} ShadowedCalls(b: BoolTree, shadowed: set<string>)
    ensures UsesShadowed(b, shadowed) <==> exists name :: name in Calls(b) && name in shadowed
  {
    if b.left.Some? {
      ShadowedCalls(b.left.value, shadowed);
    }
    if b.right.Some? {
      ShadowedCalls(b.right.value, shadowed);
    }
    if name :| name in Calls(b) && name in shadowed {
      assert name in Calls(b);
    }
    if UsesShadowed(b, shadowed) {
      if b.op == NotOp && "not" in shadowed {
        assert "not" in Calls(b);
      } else if b.func.Some? && b.func.value.name in shadowed {
        assert b.func.value.name in Calls(b);
      } else if b.left.Some? && UsesShadowed(b.left.value, shadowed) {
        var name :| name in Calls(b.left.value) && name in shadowed;
        assert name in Calls(b);
      } else {
        var name :| name in Calls(b.right.value) && name in shadowed;
        assert name in Calls(b);
      }
    }
  }

  /** A fast path of the expression that calls no shadowed builtin. */
  predicate Usable(e: Expression, c: Choice, shadowed: set<string>) {
    && CallsOf(c) !! shadowed
    && (match c
        case Pure(path) => e.fastPath && e.paths == [path]
        case Compare(cmp) => e.cmpFast == Some(cmp)
        case Call(f) => e.funcFast == Some(f)
        case Compose(b) => e.boolFast == Some(b)
        case _ => false)
  }

  /** An expression takes one of its own fast paths that calls nothing shadowed, and is decoded only without any. */
  lemma ChoiceIsUsable(e: Expression, shadowed: set<string>)
    ensures || Usable(e, ChoiceOf(e, shadowed), shadowed)
            || (ChoiceOf(e, shadowed) == Decode && forall d :: !Usable(e, d, shadowed))
  {
    if e.boolFast.Some? {
      ShadowedCalls(e.boolFast.value, shadowed);
    }
    if e.fastPath && |e.paths| == 1 {
      assert e.paths == [e.paths[0]];
    }
  }

  /** So no plan runs a builtin whose name is shadowed, or another expression's fast path. */
  lemma PlanIsUsable(plan: GroupPlan, exprs: Slice, indices: seq<int>, shadowed: set<string>, i: nat)
    requires PlanFor(plan, ChoicesOf(exprs, indices, shadowed)) && i < |indices| && Planned(plan, i) != Decode
    ensures 0 <= indices[i] < |exprs| && exprs[indices[i]].Some?
    ensures Usable(exprs[indices[i]].value, Planned(plan, i), shadowed)
  {
    hide PlanFor, Planned, ChoiceOf, Usable;
    PlannedIs(plan, ChoicesOf(exprs, indices, shadowed), i);
    ChoiceIsUsable(exprs[indices[i]].value, shadowed);
  }
}
