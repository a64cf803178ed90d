/** Pruning an input to field paths, and how looking fields up commutes with it. */
module PathPruning {
  import opened Wrappers
  import opened Trees
  import opened PathEval

  type FieldPath = seq<string>

  /** A recorded path ends at or above p, so values there are kept whole. */
  ghost predicate Whole(paths: seq<FieldPath>, p: FieldPath) {
    exists r :: r in paths && r <= p
  }

  /** p is the root, or on or below the way to a recorded path. */
  ghost predicate Live(paths: seq<FieldPath>, p: FieldPath) {
    p == [] || Whole(paths, p) || exists r :: r in paths && p <= r
  }

  /** t, a value at path p, with only the fields on the way to the recorded paths; arrays
      keep their items. */
  ghost function Prune(paths: seq<FieldPath>, p: FieldPath, t: Tree): Tree
    decreases t
  {
    if Whole(paths, p) then t
    else match t
      case ArrTree(items) => ArrTree(PruneItems(paths, p, items))
      case ObjTree(fields) => ObjTree(PruneFields(paths, p, fields))
      case _ => t
  }

  ghost function PruneItems(paths: seq<FieldPath>, p: FieldPath, items: seq<Tree>): (r: seq<Tree>)
    ensures |r| == |items|
    decreases items
  {
    if items == [] then [] else [Prune(paths, p, items[0])] + PruneItems(paths, p, items[1..])
  }

  ghost function PruneFields(paths: seq<FieldPath>, p: FieldPath, fields: seq<Field>): seq<Field>
    decreases fields
  {
    if fields == [] then []
    else
      var key, rest := fields[0].key, PruneFields(paths, p, fields[1..]);
      if Live(paths, p + [key]) then [Field(key, Prune(paths, p + [key], fields[0].value))] + rest else rest
  }

  ghost function PruneValue(paths: seq<FieldPath>, p: FieldPath, v: Val): Val {
    if v.Undef? then Undef else Def(Prune(paths, p, v.t), v.root)
  }

  ghost function PruneOutcome(paths: seq<FieldPath>, p: FieldPath, o: Outcome): Outcome {
    match o
    case Fail(_) => o
    case Value(v) => Value(PruneValue(paths, p, v))
    case Many(vs) => Many(PruneItems(paths, p, vs))
  }

  lemma WholeChild(paths: seq<FieldPath>, p: FieldPath, key: string)
    requires Whole(paths, p)
    ensures Whole(paths, p + [key])
  {
    var r :| r in paths && r <= p;
    assert r <= p + [key];
  }

  /** A path is reached only through its parent. */
  lemma LiveParent(paths: seq<FieldPath>, p: FieldPath, key: string)
    requires Live(paths, p + [key])
    ensures Live(paths, p)
  {
    if Whole(paths, p + [key]) {
      var r :| r in paths && r <= p + [key];
      if r == p + [key] {
        assert p <= r;
      } else {
        assert r <= p;
      }
    } else {
      var r :| r in paths && p + [key] <= r;
      assert p <= r;
    }
  }

  lemma ReadIsWhole(paths: seq<FieldPath>, p: FieldPath)
    requires p in paths
    ensures Whole(paths, p) && Live(paths, p)
  {
    assert p <= p;
  }

  lemma {:induction false} PruneWhole(paths: seq<FieldPath>, p: FieldPath, items: seq<Tree>)
    requires Whole(paths, p)
    ensures PruneItems(paths, p, items) == items
  {
    if items != [] {
      PruneWhole(paths, p, items[1..]);
    }
  }

  lemma {:induction false} PrunedAt(paths: seq<FieldPath>, p: FieldPath, items: seq<Tree>, i: nat)
    requires i < |items|
    ensures PruneItems(paths, p, items)[i] == Prune(paths, p, items[i])
  {
    if i > 0 {
      PrunedAt(paths, p, items[1..], i - 1);
    }
  }

  lemma {:induction false} PruneJoin(paths: seq<FieldPath>, p: FieldPath, a: seq<Tree>, b: seq<Tree>)
    ensures PruneItems(paths, p, a + b) == PruneItems(paths, p, a) + PruneItems(paths, p, b)
  {
    if a == [] {
      assert a + b == b;
    } else {
      assert (a + b)[1..] == a[1..] + b;
      PruneJoin(paths, p, a[1..], b);
    }
  }

  lemma PruneOne(paths: seq<FieldPath>, p: FieldPath, t: Tree)
    ensures PruneItems(paths, p, [t]) == [Prune(paths, p, t)]
  {
    assert [t][1..] == [];
  }

  lemma PruneElements(paths: seq<FieldPath>, p: FieldPath, t: Tree)
    ensures Elements(Prune(paths, p, t)) == PruneItems(paths, p, Elements(t))
  {
    PruneOne(paths, p, t);
    if Whole(paths, p) {
      PruneWhole(paths, p, Elements(t));
    }
  }

  ghost function PruneOption(paths: seq<FieldPath>, p: FieldPath, t: Option<Tree>): Option<Tree> {
    match t
    case None => None
    case Some(t) => Some(Prune(paths, p, t))
  }

  /** A field survives pruning exactly when its path is live. */
  lemma {:induction false} GetPruned(paths: seq<FieldPath>, p: FieldPath, fields: seq<Field>, key: string)
    ensures Get(PruneFields(paths, p, fields), key) ==
            if Live(paths, p + [key]) then PruneOption(paths, p + [key], Get(fields, key)) else None
  {
    if fields != [] {
      GetPruned(paths, p, fields[1..], key);
      var rest := PruneFields(paths, p, fields[1..]);
      if Live(paths, p + [fields[0].key]) {
        assert PruneFields(paths, p, fields)[1..] == rest;
      }
    }
  }

  /** A lookup over arrays at any depth finds in the pruned value the pruned values it finds in the full one. */
  lemma {:induction false} LookupPruned(paths: seq<FieldPath>, p: FieldPath, key: string, t: Tree)
    ensures Live(paths, p + [key]) ==>
              Lookup(key, Prune(paths, p, t)) == PruneItems(paths, p + [key], Lookup(key, t))
    ensures !Live(paths, p + [key]) ==> Lookup(key, Prune(paths, p, t)) == []
    decreases t
  {
    if Whole(paths, p) {
      WholeChild(paths, p, key);
      PruneWhole(paths, p + [key], Lookup(key, t));
    } else if t.ArrTree? {
      LookupItemsPruned(paths, p, key, t.items);
    } else if t.ObjTree? {
      GetPruned(paths, p, t.fields, key);
      var found := Get(t.fields, key);
      if found.Some? {
        PruneElements(paths, p + [key], found.value);
      }
    }
  }

  lemma {:induction false} LookupItemsPruned(paths: seq<FieldPath>, p: FieldPath, key: string, items: seq<Tree>)
    ensures Live(paths, p + [key]) ==>
              LookupItems(key, PruneItems(paths, p, items)) == PruneItems(paths, p + [key], LookupItems(key, items))
    ensures !Live(paths, p + [key]) ==> LookupItems(key, PruneItems(paths, p, items)) == []
    decreases items
  {
    if items != [] {
      assert PruneItems(paths, p, items)[1..] == PruneItems(paths, p, items[1..]);
      LookupPruned(paths, p, key, items[0]);
      LookupItemsPruned(paths, p, key, items[1..]);
      PruneJoin(paths, p + [key], Lookup(key, items[0]), LookupItems(key, items[1..]));
    }
  }

  lemma CollapsePruned(paths: seq<FieldPath>, p: FieldPath, vs: seq<Tree>)
    ensures CollapseValues(PruneItems(paths, p, vs)) == PruneValue(paths, p, CollapseValues(vs))
  {
    if |vs| == 1 {
      PrunedAt(paths, p, vs, 0);
    } else if Whole(paths, p) {
      PruneWhole(paths, p, vs);
    }
  }

  /** What is at path p, as the full and the pruned input give it; a None path's value is not the input's. */
  ghost predicate Same(paths: seq<FieldPath>, p: Option<FieldPath>, v: Val, v': Val) {
    match p
    case None => v == v'
    case Some(p) => v' == if Live(paths, p) then PruneValue(paths, p, v) else Undef
  }

  ghost predicate SameOutcome(paths: seq<FieldPath>, p: Option<FieldPath>, o: Outcome, o': Outcome) {
    match p
    case None => o == o'
    case Some(p) => if Live(paths, p) then o' == PruneOutcome(paths, p, o) else IsUndef(o')
  }

  /** Items at path p, in the pruned input. */
  ghost function Pruned(paths: seq<FieldPath>, p: Option<FieldPath>, items: seq<Tree>): (r: seq<Tree>)
    ensures |r| == |items|
  {
    if p.None? then items else PruneItems(paths, p.value, items)
  }

  lemma ItemSame(paths: seq<FieldPath>, p: Option<FieldPath>, items: seq<Tree>, k: nat)
    requires Reached(paths, p) && k < |items|
    ensures Same(paths, p, Def(items[k], false), Def(Pruned(paths, p, items)[k], false))
  {
    if p.Some? {
      PrunedAt(paths, p.value, items, k);
    }
  }

  ghost predicate Reached(paths: seq<FieldPath>, p: Option<FieldPath>) {
    p.Some? ==> Live(paths, p.value)
  }

  function Extend(p: Option<FieldPath>, key: string): Option<FieldPath> {
    match p
    case None => None
    case Some(p) => Some(p + [key])
  }

  lemma LookupSame(paths: seq<FieldPath>, p: Option<FieldPath>, key: string, v: Val, v': Val)
    requires Same(paths, p, v, v')
    ensures Same(paths, Extend(p, key), LookupValue(key, v), LookupValue(key, v'))
  {
    if p.Some? && !Live(paths, p.value) {
      if Live(paths, p.value + [key]) {
        LiveParent(paths, p.value, key);
      }
    } else if p.Some? && v.Def? {
      LookupTreeSame(paths, p.value, key, v.t, v.root);
    }
  }

  lemma LookupTreeSame(paths: seq<FieldPath>, p: FieldPath, key: string, t: Tree, root: bool)
    requires Live(paths, p)
    ensures Same(paths, Some(p + [key]), LookupValue(key, Def(t, root)),
                 LookupValue(key, Def(Prune(paths, p, t), root)))
  {
    if t.ArrTree? {
      PruneElements(paths, p, t);
      LookupItemsPruned(paths, p, key, t.items);
      CollapsePruned(paths, p + [key], LookupItems(key, t.items));
    } else if t.ObjTree? {
      if Whole(paths, p) {
        WholeChild(paths, p, key);
      } else {
        GetPruned(paths, p, t.fields, key);
      }
    }
  }

  lemma ItemFieldSame(paths: seq<FieldPath>, p: FieldPath, key: string, t: Tree)
    requires Live(paths, p)
    ensures SameOutcome(paths, Some(p + [key]), ItemField(key, t), ItemField(key, Prune(paths, p, t)))
  {
    if t.ArrTree? {
      PruneElements(paths, p, t);
      LookupItemsPruned(paths, p, key, t.items);
      CollapsePruned(paths, p + [key], LookupItems(key, t.items));
    } else {
      LookupTreeSame(paths, p, key, t, false);
    }
  }

  /** Results over each context, in the full and the pruned input. */
  ghost predicate AllSame(paths: seq<FieldPath>, p: Option<FieldPath>, outs: seq<Outcome>, outs': seq<Outcome>) {
    |outs| == |outs'| && forall i :: 0 <= i < |outs| ==> SameOutcome(paths, p, outs[i], outs'[i])
  }

  lemma {:induction false} ItemFieldsSame(paths: seq<FieldPath>, p: Option<FieldPath>, key: string, items: seq<Tree>,
                                          items': seq<Tree>)
    requires Reached(paths, p) && items' == Pruned(paths, p, items)
    ensures AllSame(paths, Extend(p, key), ItemFields(key, items), ItemFields(key, items'))
  {
    if items != [] {
      assert p.Some? ==> items'[1..] == PruneItems(paths, p.value, items[1..]);
      ItemFieldsSame(paths, p, key, items[1..], items'[1..]);
      if p.Some? {
        ItemFieldSame(paths, p.value, key, items[0]);
      }
    }
  }

  lemma FlattenedPruned(paths: seq<FieldPath>, p: FieldPath, o: Outcome)
    ensures Flattened(PruneOutcome(paths, p, o)) == PruneItems(paths, p, Flattened(o))
  {
    if o.Value? && o.v.Def? {
      PruneElements(paths, p, o.v.t);
    }
  }

  lemma {:induction false} FlatSame(paths: seq<FieldPath>, p: FieldPath, outs: seq<Outcome>, outs': seq<Outcome>)
    requires AllSame(paths, Some(p), outs, outs')
    ensures Flat(outs') == if Live(paths, p) then PruneItems(paths, p, Flat(outs)) else []
  {
    if outs != [] {
      assert SameOutcome(paths, Some(p), outs[0], outs'[0]);
      assert AllSame(paths, Some(p), outs[1..], outs'[1..]);
      FlatSame(paths, p, outs[1..], outs'[1..]);
      if Live(paths, p) {
        FlattenedPruned(paths, p, outs[0]);
        PruneJoin(paths, p, Flattened(outs[0]), Flat(outs[1..]));
      }
    }
  }

  lemma {:induction false} DefinedSame(paths: seq<FieldPath>, p: FieldPath, outs: seq<Outcome>, outs': seq<Outcome>)
    requires AllSame(paths, Some(p), outs, outs')
    ensures Live(paths, p) ==> AllSame(paths, Some(p), Defined(outs), Defined(outs'))
    ensures !Live(paths, p) ==> Defined(outs') == []
  {
    if outs != [] {
      assert SameOutcome(paths, Some(p), outs[0], outs'[0]);
      assert AllSame(paths, Some(p), outs[1..], outs'[1..]);
      DefinedSame(paths, p, outs[1..], outs'[1..]);
    }
  }

  /** One lone array among the defined results is one in both inputs. */
  lemma LoneSame(paths: seq<FieldPath>, p: FieldPath, outs: seq<Outcome>, outs': seq<Outcome>)
    requires AllSame(paths, Some(p), outs, outs') && Live(paths, p)
    ensures IsLoneArray(Defined(outs)) == IsLoneArray(Defined(outs'))
    ensures IsLoneArray(Defined(outs)) ==> SameOutcome(paths, Some(p), Defined(outs)[0], Defined(outs')[0])
  {
    DefinedSame(paths, p, outs, outs');
    var d, d' := Defined(outs), Defined(outs');
    if |d| == 1 {
      assert SameOutcome(paths, Some(p), d[0], d'[0]);
    }
  }

  lemma AllEqual(paths: seq<FieldPath>, outs: seq<Outcome>, outs': seq<Outcome>)
    requires AllSame(paths, None, outs, outs')
    ensures outs == outs'
  {
  }

  /** Gathering a step's results commutes with pruning. */
  lemma GatheredSame(paths: seq<FieldPath>, p: Option<FieldPath>, outs: seq<Outcome>, outs': seq<Outcome>, lone: bool)
    requires AllSame(paths, p, outs, outs')
    ensures SameOutcome(paths, p, Gathered(outs, lone), Gathered(outs', lone))
  {
    if p.None? {
      AllEqual(paths, outs, outs');
    } else {
      FlatSame(paths, p.value, outs, outs');
      if Live(paths, p.value) {
        LoneSame(paths, p.value, outs, outs');
        GatheredFlat(paths, p.value, Flat(outs));
      } else {
        DefinedSame(paths, p.value, outs, outs');
      }
    }
  }

  lemma GatheredFlat(paths: seq<FieldPath>, p: FieldPath, flat: seq<Tree>)
    ensures var flat' := PruneItems(paths, p, flat);
            && CollapseValues(flat') == PruneValue(paths, p, CollapseValues(flat))
            && (|flat| == 1 ==> flat'[0].ArrTree? == flat[0].ArrTree?)
  {
    CollapsePruned(paths, p, flat);
    if |flat| == 1 {
      PrunedAt(paths, p, flat, 0);
    }
  }

  lemma SpreadSame(paths: seq<FieldPath>, p: Option<FieldPath>, outs: seq<Outcome>, outs': seq<Outcome>, lone: bool)
    requires AllSame(paths, p, outs, outs')
    ensures SameOutcome(paths, p, Spread(outs, lone), Spread(outs', lone))
  {
    if p.None? {
      AllEqual(paths, outs, outs');
    } else {
      FlatSame(paths, p.value, outs, outs');
      if Live(paths, p.value) {
        LoneSame(paths, p.value, outs, outs');
        CollapsePruned(paths, p.value, Flat(outs));
      } else {
        DefinedSame(paths, p.value, outs, outs');
      }
    }
  }

  lemma CollapseSame(paths: seq<FieldPath>, p: Option<FieldPath>, o: Outcome, o': Outcome)
    requires SameOutcome(paths, p, o, o')
    ensures SameOutcome(paths, p, Collapse(o), Collapse(o'))
  {
    if p.Some? && o.Many? {
      CollapsePruned(paths, p.value, o.vs);
    }
  }

  /** A field step over the pruned value gives the pruned result. */
  lemma NameStepSame(paths: seq<FieldPath>, p: Option<FieldPath>, key: string, v: Val, v': Val, last: bool)
    requires Reached(paths, p) && Same(paths, p, v, v')
    ensures SameOutcome(paths, Extend(p, key), NameStep(key, v, last), NameStep(key, v', last))
  {
    LookupSame(paths, p, key, v, v');
    if IsArray(v) {
      ArraySame(paths, p, v, v');
      ItemFieldsSame(paths, p, key, v.t.items, v'.t.items);
      GatheredSame(paths, Extend(p, key), ItemFields(key, v.t.items), ItemFields(key, v'.t.items), last);
    }
  }

  /** An array stays one, with its items pruned. */
  lemma ArraySame(paths: seq<FieldPath>, p: Option<FieldPath>, v: Val, v': Val)
    requires Reached(paths, p) && Same(paths, p, v, v') && IsArray(v)
    ensures IsArray(v') && v'.t.items == Pruned(paths, p, v.t.items)
  {
    if p.Some? {
      PruneElements(paths, p.value, v.t);
    }
  }
}
