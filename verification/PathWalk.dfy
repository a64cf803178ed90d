/** Walking a chain of field names over a JSON document without decoding it, and
    what the evaluator gives for the same path over the decoded document. */
module PathWalk {
  import opened Wrappers
  import opened JsonSyntax
  import opened JsonParse
  import opened JsonTree
  import opened Trees
  import J = JsonWalk
  import E = PathEval

  /** A field of one of several contexts: over a nested array, what is found in it, collapsed. */
  function ItemStep(step: Text, v: Json): J.Outcome {
    if v.Arr? then J.Collapse(J.Found(step, v)) else J.FieldValue(step, v)
  }

  function AllAdd(step: Text, arr: seq<Json>): seq<Json> {
    if arr == [] then [] else J.Added(ItemStep(step, arr[0])) + AllAdd(step, arr[1..])
  }

  function Defined(step: Text, arr: seq<Json>): seq<J.Outcome> {
    if arr == [] then []
    else (if ItemStep(step, arr[0]).Missing? then [] else [ItemStep(step, arr[0])]) + Defined(step, arr[1..])
  }

  predicate PassesLone(defined: seq<J.Outcome>) {
    |defined| == 1 && defined[0].One? && defined[0].v.Arr?
  }

  /** A step over several contexts: what they add, collapsed, but a last step's lone array as it is. */
  function ArrayStep(step: Text, arr: seq<Json>, last: bool): J.Outcome {
    var defined := Defined(step, arr);
    if last && PassesLone(defined) then defined[0] else J.Collapse(AllAdd(step, arr))
  }

  /** What the contexts add is one array, which the next step of the walk maps over. */
  predicate LeavesLone(step: Text, arr: seq<Json>, last: bool) {
    && !(last && PassesLone(Defined(step, arr)))
    && |AllAdd(step, arr)| == 1 && AllAdd(step, arr)[0].Arr?
  }

  /** A step over the step before it; doc: cur is the document's root, whose array is one context. */
  function Step(step: Text, cur: J.Outcome, doc: bool, last: bool): J.Outcome {
    match cur
    case Missing => J.Missing
    case Many(vs) => ArrayStep(step, vs, last)
    case One(v) =>
      if !v.Arr? then J.FieldValue(step, v)
      else if doc then J.Collapse(J.Found(step, v))
      else ArrayStep(step, J.ItemValues(v.items), last)
  }

  function Steps(steps: seq<Text>, i: nat, cur: J.Outcome, doc: bool): J.Outcome
    requires i <= |steps|
    decreases |steps| - i
  {
    if i == |steps| || cur.Missing? then cur
    else Steps(steps, i + 1, Step(steps[i], cur, doc && i == 0, i == |steps| - 1), doc)
  }

  /** Every value of a lookup is one a document can hold. */
  ghost predicate ValidOutcome(o: J.Outcome) {
    match o
    case Missing => true
    case One(v) => ValidValue(v)
    case Many(vs) => forall i :: 0 <= i < |vs| ==> ValidValue(vs[i])
  }

  lemma {:induction false} ItemsAreValid(items: seq<Item>)
    requires ValidItems(items)
    ensures forall i :: 0 <= i < |J.ItemValues(items)| ==> ValidValue(J.ItemValues(items)[i])
  {
    if items != [] {
      ItemsAreValid(items[1..]);
    }
  }

  lemma FlatIsValid(v: Json)
    requires ValidValue(v)
    ensures forall i :: 0 <= i < |J.Flat(v)| ==> ValidValue(J.Flat(v)[i])
  {
    if v.Arr? {
      ItemsAreValid(v.items);
    }
  }

  lemma {:induction false} FieldIsValid(step: Text, members: seq<Member>)
    requires ValidMembers(members) && J.FieldOf(step, members).Some?
    ensures ValidValue(J.FieldOf(step, members).value)
  {
    if PartsValue(members[0].key.parts) != step {
      FieldIsValid(step, members[1..]);
    }
  }

  lemma {:induction false} FoundIsValid(step: Text, v: Json)
    requires ValidValue(v)
    ensures forall i :: 0 <= i < |J.Found(step, v)| ==> ValidValue(J.Found(step, v)[i])
    decreases v
  {
    match v
    case Arr(_, items) => FoundItemsValid(step, items);
    case Obj(_, members) =>
      if J.FieldOf(step, members).Some? {
        FieldIsValid(step, members);
        FlatIsValid(J.FieldOf(step, members).value);
      }
    case _ =>
  }

  lemma {:induction false} FoundItemsValid(step: Text, items: seq<Item>)
    requires ValidItems(items)
    ensures forall i :: 0 <= i < |J.FoundItems(step, items)| ==> ValidValue(J.FoundItems(step, items)[i])
    decreases items
  {
    if items != [] {
      FoundIsValid(step, items[0].value);
      FoundItemsValid(step, items[1..]);
    }
  }

  /** A valid value's text reads as that value. */
  lemma TextParses(v: Json)
    requires ValidValue(v)
    ensures ParseValue(ValueText(v), 0) == Some(Parsed(v, |ValueText(v)|)) && ValueText(v) != []
  {
    var t := ValueText(v);
    assert t[0..|t|] == t;
    ValueStarts(v);
    ValueComplete(t, 0, |t|, v);
  }

  method StepInArray(step: Text, v: Json) returns (r: J.Outcome)
    requires v.Arr? && ValidValue(v)
    ensures r == J.Collapse(J.Found(step, v)) && ValidOutcome(r)
  {
    TextParses(v);
    FoundIsValid(step, v);
    r := J.StepNestedArray(step, ValueText(v), Parsed(v, |ValueText(v)|));
  }

  method ObjectField(step: Text, v: Json) returns (r: J.Outcome)
    requires ValidValue(v)
    ensures r == J.FieldValue(step, v) && ValidOutcome(r)
  {
    TextParses(v);
    r := J.ObjectField(step, ValueText(v));
    if r.One? {
      FieldIsValid(step, v.members);
    }
  }

  method StepItem(step: Text, v: Json) returns (r: J.Outcome)
    requires ValidValue(v)
    ensures r == ItemStep(step, v) && ValidOutcome(r)
  {
    if v.Arr? {
      r := StepInArray(step, v);
    } else {
      r := ObjectField(step, v);
    }
  }

  ghost predicate AllValid(vs: seq<Json>) {
    forall i :: 0 <= i < |vs| ==> ValidValue(vs[i])
  }

  lemma AddedIsValid(o: J.Outcome)
    requires ValidOutcome(o)
    ensures AllValid(J.Added(o))
  {
    if o.One? {
      FlatIsValid(o.v);
    }
  }

  lemma ItemStepValid(step: Text, v: Json)
    requires ValidValue(v)
    ensures ValidOutcome(ItemStep(step, v)) && AllValid(J.Added(ItemStep(step, v)))
  {
    FoundIsValid(step, v);
    if v.Obj? && J.FieldOf(step, v.members).Some? {
      FieldIsValid(step, v.members);
    }
    AddedIsValid(ItemStep(step, v));
  }

  lemma {:induction false} ArrayStepValid(step: Text, arr: seq<Json>)
    requires AllValid(arr)
    ensures AllValid(AllAdd(step, arr)) && forall i :: 0 <= i < |Defined(step, arr)| ==>
            ValidOutcome(Defined(step, arr)[i])
  {
    if arr != [] {
      ItemStepValid(step, arr[0]);
      ArrayStepValid(step, arr[1..]);
    }
  }

  /** Adds one context's lookup to the frame. */
  method AddItem(step: Text, v: Json, frame: J.RawArrayFrame) returns (val: J.Outcome)
    requires ValidValue(v)
    modifies frame
    ensures val == ItemStep(step, v) && frame.flat == old(frame.flat) + J.Added(val)
  {
    val := StepItem(step, v);
    frame.Add(val);
  }

  lemma Associates<T>(a: seq<T>, b: seq<T>, c: seq<T>)
    ensures a + (b + c) == a + b + c
  {
  }

  /** The contexts from the i-th on, one at a time. */
  lemma NextContext(step: Text, arr: seq<Json>, i: nat, flat: seq<Json>, seen: seq<J.Outcome>)
    requires i < |arr|
    ensures var o := ItemStep(step, arr[i]);
            && flat + AllAdd(step, arr[i..]) == flat + J.Added(o) + AllAdd(step, arr[i + 1..])
            && seen + Defined(step, arr[i..]) == seen + (if o.Missing? then [] else [o]) + Defined(step, arr[i + 1..])
  {
    var o := ItemStep(step, arr[i]);
    assert arr[i..][1..] == arr[i + 1..];
    Associates(flat, J.Added(o), AllAdd(step, arr[i + 1..]));
    Associates(seen, if o.Missing? then [] else [o], Defined(step, arr[i + 1..]));
  }

  /** Refines ArrayStep, one frame a nested array. */
  method StepArray(step: Text, arr: seq<Json>, last: bool) returns (r: J.Outcome)
    requires AllValid(arr)
    ensures r == ArrayStep(step, arr, last) && ValidOutcome(r)
  {
    ArrayStepValid(step, arr);
    var frame := new J.RawArrayFrame();
    var defined := 0;
    var lone := J.Missing;
    ghost var seen: seq<J.Outcome> := [];
    for i := 0 to |arr|
      invariant frame.flat + AllAdd(step, arr[i..]) == AllAdd(step, arr)
      invariant seen + Defined(step, arr[i..]) == Defined(step, arr)
      invariant defined == |seen| && (seen != [] ==> lone == seen[|seen| - 1])
    {
      NextContext(step, arr, i, frame.flat, seen);
      var val := AddItem(step, arr[i], frame);
      seen := seen + if val.Missing? then [] else [val];
      if !val.Missing? {
        defined := defined + 1;
        lone := val;
      }
    }
    if last && defined == 1 && lone.One? && lone.v.Arr? {
      return lone;
    }
    r := frame.Result();
  }

  /** Applies a step to the value of the one before it. */
  method StepValue(step: Text, cur: J.Outcome, doc: bool, last: bool) returns (r: J.Outcome)
    requires ValidOutcome(cur) && !cur.Missing?
    ensures r == Step(step, cur, doc, last) && ValidOutcome(r)
  {
    match cur
    case One(v) =>
      if !v.Arr? {
        r := ObjectField(step, v);
      } else if doc {
        r := StepInArray(step, v);
      } else {
        ItemsAreValid(v.items);
        r := StepArray(step, J.ItemValues(v.items), last);
      }
    case Many(vs) => r := StepArray(step, vs, last);
  }

  /** Walks all the steps, from the document's root if doc. */
  method WalkPureSteps(steps: seq<Text>, root: Json, doc: bool) returns (r: J.Outcome)
    requires ValidValue(root)
    ensures r == Steps(steps, 0, J.One(root), doc)
  {
    r := J.One(root);
    for i := 0 to |steps|
      invariant !r.Missing? && ValidOutcome(r) && Steps(steps, i, r, doc) == Steps(steps, 0, J.One(root), doc)
    {
      r := StepValue(steps[i], r, doc && i == 0, i == |steps| - 1);
      if r.Missing? {
        return;
      }
    }
  }

  ghost predicate DistinctAll(vs: seq<Json>) {
    forall i :: 0 <= i < |vs| ==> J.DistinctKeys(vs[i])
  }

  ghost predicate DistinctOutcome(o: J.Outcome) {
    match o
    case Missing => true
    case One(v) => J.DistinctKeys(v)
    case Many(vs) => DistinctAll(vs)
  }

  lemma {:induction false} ItemsDistinct(items: seq<Item>)
    requires J.DistinctItems(items)
    ensures DistinctAll(J.ItemValues(items))
  {
    if items != [] {
      ItemsDistinct(items[1..]);
    }
  }

  lemma {:induction false} FieldDistinct(step: Text, members: seq<Member>)
    requires J.DistinctMembers(members) && J.FieldOf(step, members).Some?
    ensures J.DistinctKeys(J.FieldOf(step, members).value)
  {
    if PartsValue(members[0].key.parts) != step {
      FieldDistinct(step, members[1..]);
    }
  }

  lemma FlatDistinct(v: Json)
    requires J.DistinctKeys(v)
    ensures DistinctAll(J.Flat(v))
  {
    if v.Arr? {
      ItemsDistinct(v.items);
    }
  }

  lemma {:induction false} FoundDistinct(step: Text, v: Json)
    requires J.DistinctKeys(v)
    ensures DistinctAll(J.Found(step, v))
    decreases v
  {
    match v
    case Arr(_, items) => FoundItemsDistinct(step, items);
    case Obj(_, members) =>
      if J.FieldOf(step, members).Some? {
        FieldDistinct(step, members);
        FlatDistinct(J.FieldOf(step, members).value);
      }
    case _ =>
  }

  lemma {:induction false} FoundItemsDistinct(step: Text, items: seq<Item>)
    requires J.DistinctItems(items)
    ensures DistinctAll(J.FoundItems(step, items))
    decreases items
  {
    if items != [] {
      FoundDistinct(step, items[0].value);
      FoundItemsDistinct(step, items[1..]);
    }
  }

  lemma ItemStepDistinct(step: Text, v: Json)
    requires J.DistinctKeys(v)
    ensures DistinctOutcome(ItemStep(step, v)) && DistinctAll(J.Added(ItemStep(step, v)))
  {
    FoundDistinct(step, v);
    if v.Obj? && J.FieldOf(step, v.members).Some? {
      FieldDistinct(step, v.members);
    }
    if ItemStep(step, v).One? {
      FlatDistinct(ItemStep(step, v).v);
    }
  }

  lemma {:induction false} AllAddDistinct(step: Text, arr: seq<Json>)
    requires DistinctAll(arr)
    ensures DistinctAll(AllAdd(step, arr))
    ensures forall i :: 0 <= i < |Defined(step, arr)| ==> DistinctOutcome(Defined(step, arr)[i])
  {
    if arr != [] {
      ItemStepDistinct(step, arr[0]);
      AllAddDistinct(step, arr[1..]);
    }
  }

  /** The value the evaluator gives for what the walker finds. */
  function ToVal(o: J.Outcome): E.Val {
    match o
    case Missing => E.Undef
    case One(v) => E.Def(Meaning(v), false)
    case Many(vs) => E.Def(ArrTree(J.Meanings(vs)), false)
  }

  /** The evaluator's outcome for what the walker finds; lone: the one array a step came to, which the
      evaluator still holds as a sequence of one. */
  function EvalOf(o: J.Outcome, lone: bool): E.Outcome {
    if lone && o.One? then E.Many([Meaning(o.v)]) else E.Value(ToVal(o))
  }

  lemma {:induction false} MeaningAt(vs: seq<Json>, i: nat)
    requires i < |vs|
    ensures |J.Meanings(vs)| == |vs| && J.Meanings(vs)[i] == Meaning(vs[i])
  {
    if i > 0 {
      MeaningAt(vs[1..], i - 1);
    } else if |vs| > 1 {
      MeaningAt(vs[1..], 0);
    }
  }

  /** Collapsing commutes with decoding. */
  lemma CollapseMeaning(vs: seq<Json>)
    ensures E.CollapseValues(J.Meanings(vs)) == ToVal(J.Collapse(vs))
  {
    if vs != [] {
      MeaningAt(vs, 0);
    }
  }

  lemma ArrayMeaning(v: Json)
    requires v.Arr?
    ensures Meaning(v) == ArrTree(J.Meanings(J.ItemValues(v.items)))
  {
    J.ItemsValues(v.items);
  }

  lemma FieldAgrees(step: Text, v: Json, root: bool)
    requires J.DistinctKeys(v) && !v.Arr?
    ensures E.LookupValue(step, E.Def(Meaning(v), root)) == ToVal(J.FieldValue(step, v))
  {
    if v.Obj? {
      J.GatherGet(v.members, [], step);
    }
  }

  /** What is found in an array taken as one context. */
  lemma InArrayAgrees(step: Text, v: Json, root: bool)
    requires J.DistinctKeys(v) && v.Arr?
    ensures J.Meanings(J.Found(step, v)) == LookupItems(step, Meaning(v).items)
    ensures E.LookupValue(step, E.Def(Meaning(v), root)) == ToVal(J.Collapse(J.Found(step, v)))
  {
    J.FoundMeaning(step, v);
    CollapseMeaning(J.Found(step, v));
  }

  lemma AddedMeaning(o: J.Outcome)
    ensures E.Flattened(E.Value(ToVal(o))) == J.Meanings(J.Added(o))
  {
    if o.One? {
      J.FlatMeaning(o.v);
    }
  }

  /** The evaluator's outcome for one context, which keeps a sequence of several values. */
  function SequenceOf(o: J.Outcome): E.Outcome {
    if o.Many? then E.Many(J.Meanings(o.vs)) else E.Value(ToVal(o))
  }

  lemma ItemAgrees(step: Text, v: Json)
    requires J.DistinctKeys(v)
    ensures E.ItemField(step, Meaning(v)) == SequenceOf(ItemStep(step, v))
    ensures E.Flattened(E.ItemField(step, Meaning(v))) == J.Meanings(J.Added(ItemStep(step, v)))
  {
    if v.Arr? {
      var found := J.Found(step, v);
      InArrayAgrees(step, v, false);
      if found != [] {
        MeaningAt(found, 0);
      }
    } else {
      FieldAgrees(step, v, false);
      NotArray(v);
    }
    AddedMeaning(ItemStep(step, v));
  }

  /** Each context's lookup, and what they add to the step's, in both. */
  lemma {:induction false} ItemsAgree(step: Text, arr: seq<Json>)
    requires DistinctAll(arr)
    ensures E.Flat(E.ItemFields(step, J.Meanings(arr))) == J.Meanings(AllAdd(step, arr))
  {
    if arr != [] {
      ItemAgrees(step, arr[0]);
      ItemsAgree(step, arr[1..]);
      J.MeaningsJoin(J.Added(ItemStep(step, arr[0])), AllAdd(step, arr[1..]));
    }
  }

  lemma {:induction false} DefinedAgree(step: Text, arr: seq<Json>)
    requires DistinctAll(arr)
    ensures E.Defined(E.ItemFields(step, J.Meanings(arr))) == Sequences(Defined(step, arr))
  {
    if arr != [] {
      ItemAgrees(step, arr[0]);
      DefinedAgree(step, arr[1..]);
      var rest := Defined(step, arr[1..]);
      assert ([ItemStep(step, arr[0])] + rest)[1..] == rest && [] + rest == rest;
    }
  }

  function Sequences(outs: seq<J.Outcome>): seq<E.Outcome> {
    if outs == [] then [] else [SequenceOf(outs[0])] + Sequences(outs[1..])
  }

  lemma NotArray(v: Json)
    ensures Meaning(v).ArrTree? == v.Arr?
  {
  }

  /** A defined result alone is a lone array in both. */
  lemma LoneAgrees(defined: seq<J.Outcome>)
    ensures |Sequences(defined)| == |defined|
    ensures E.IsLoneArray(Sequences(defined)) == PassesLone(defined)
    ensures PassesLone(defined) ==> Sequences(defined)[0] == E.Value(ToVal(defined[0]))
  {
    if |defined| > 0 {
      LoneAgrees(defined[1..]);
    }
    if |defined| == 1 && defined[0].One? {
      NotArray(defined[0].v);
    }
  }

  /** A step over several contexts is the evaluator's, which goes on with a lone array as one context. */
  lemma ArrayStepAgrees(step: Text, arr: seq<Json>, last: bool)
    requires DistinctAll(arr)
    ensures E.Gathered(E.ItemFields(step, J.Meanings(arr)), last) ==
            EvalOf(ArrayStep(step, arr, last), LeavesLone(step, arr, last))
  {
    var flat, defined := AllAdd(step, arr), Defined(step, arr);
    ItemsAgree(step, arr);
    DefinedAgree(step, arr);
    LoneAgrees(defined);
    CollapseMeaning(flat);
    if |flat| > 0 {
      MeaningAt(flat, 0);
      NotArray(flat[0]);
    }
  }

  lemma StepDistinct(step: Text, cur: J.Outcome, doc: bool, last: bool)
    requires DistinctOutcome(cur)
    ensures DistinctOutcome(Step(step, cur, doc, last))
  {
    match cur
    case Missing =>
    case Many(vs) => AllAddDistinct(step, vs);
    case One(v) =>
      if v.Arr? {
        FoundDistinct(step, v);
        ItemsDistinct(v.items);
        AllAddDistinct(step, J.ItemValues(v.items));
      } else {
        ItemStepDistinct(step, v);
      }
  }

  /** The contexts a step after the first maps over; a single value is none of several. */
  function Contexts(cur: J.Outcome): seq<Json> {
    match cur
    case Missing => []
    case One(v) => if v.Arr? then J.ItemValues(v.items) else []
    case Many(vs) => vs
  }

  /** The evaluator's value for a field step is the walker's. */
  lemma NameStepAgrees(step: Text, cur: J.Outcome, v: E.Val, last: bool)
    requires DistinctOutcome(cur) && !cur.Missing? && v.Def? && v.t == ToVal(cur).t
    ensures E.NameStep(step, v, last) ==
            EvalOf(Step(step, cur, false, last), LeavesLone(step, Contexts(cur), last))
  {
    if cur.One? && !cur.v.Arr? {
      FieldAgrees(step, cur.v, v.root);
      NotArray(cur.v);
    } else {
      var arr := Contexts(cur);
      if cur.One? {
        ArrayMeaning(cur.v);
        ItemsDistinct(cur.v.items);
      }
      ArrayStepAgrees(step, arr, last);
    }
  }

  /** A path of field names. */
  function Names(steps: seq<Text>): (names: seq<E.Expr>)
    ensures |names| == |steps|
  {
    if steps == [] then [] else [E.Name(steps[0])] + Names(steps[1..])
  }

  lemma {:induction false} NameAt(steps: seq<Text>, i: nat)
    requires i < |steps|
    ensures Names(steps)[i] == E.Name(steps[i])
  {
    if i > 0 {
      NameAt(steps[1..], i - 1);
    }
  }

  /** A field step is run as one, except over the wrapped root array. */
  lemma RunName(ops: E.Ops, field: Text, i: nat, top: bool, v: E.Val, mapper: bool, last: bool, env: E.Env)
    ensures E.RunStep(ops, E.Name(field), i, top, v, mapper, last, env) ==
            E.Stage(if E.StartsRoot(top, i, v, env) then E.Value(E.LookupValue(field, v))
                    else E.NameStep(field, v, last), false)
  {
    var name := E.Name(field);
    assert E.PathStep(ops, name, v, env, mapper, last) == E.NameStep(field, v, last);
    assert E.PathStep(ops, name, v, env, true, last) == E.NameStep(field, v, last);
    assert E.StepOnce(ops, name, v, env.(wrapped := false)) == E.Value(E.LookupValue(field, v));
    assert E.OrdinaryStep(ops, name, i > 0, v, mapper, last, env) == E.Stage(E.NameStep(field, v, last), false);
  }

  /** The first step, over the document's root. */
  lemma RootStepAgrees(ops: E.Ops, step: Text, root: Json, last: bool)
    requires J.DistinctKeys(root)
    ensures var t := Meaning(root); var next := Step(step, J.One(root), true, last);
            && E.RunStep(ops, E.Name(step), 0, true, E.Def(t, true), false, last, E.Env(t, true, map[])) ==
                E.Stage(E.Value(ToVal(next)), false)
            && DistinctOutcome(next)
  {
    var t := Meaning(root);
    RunName(ops, step, 0, true, E.Def(t, true), false, last, E.Env(t, true, map[]));
    StepDistinct(step, J.One(root), true, last);
    NotArray(root);
    if root.Arr? {
      InArrayAgrees(step, root, true);
    } else {
      FieldAgrees(step, root, true);
    }
  }
}
