/** Batches evaluated while expressions are registered and changed: every interleaving of the steps
    each takes. A step is one access to the slice of expressions or to the cache. */
module StreamRuns {
  import opened Wrappers
  import opened Plans
  import opened PlanKey
  import opened PlanCache

  /** A batch being evaluated, with the slice of expressions it loaded. */
  datatype Reader =
    | Loaded(exprs: Slice, schema: string, indices: seq<int>)
    | Missed(exprs: Slice, schema: string, indices: seq<int>)
    | Using(exprs: Slice, indices: seq<int>, plan: GroupPlan)

  /** A change to the expressions: one more at the end, another or none at an index, or none at all. */
  datatype Edit = Append(expr: Expression) | Change(idx: nat, now: Option<Expression>) | Clear

  /** What a writer that holds the lock has published but not yet cleared the cache for. */
  datatype Writer = Unlocked | Published(edit: Edit)

  datatype State = State(exprs: Slice, cache: seq<CacheEntry>, writer: Writer, readers: map<nat, Reader>)

  datatype Step =
    | Load(id: nat, schema: string, indices: seq<int>)
    | LookUp(id: nat)
    | Store(id: nat)
    | Finish(id: nat)
    | Publish(edit: Edit)
    | Invalidate

  function Edited(exprs: Slice, edit: Edit): Slice {
    match edit
    case Append(expr) => exprs + [Some(expr)]
    case Change(idx, now) => if idx < |exprs| then exprs[idx := now] else exprs
    case Clear => []
  }

  ghost predicate Initial(s: State) {
    s.cache == [] && s.writer.Unlocked? && s.readers == map[]
  }

  ghost predicate Steps(s: State, step: Step, t: State, capacity: nat, shadowed: set<string>)
    requires capacity > 0
  {
    match step
    case Load(id, schema, indices) =>
      id !in s.readers && indices != [] && t == s.(readers := s.readers[id := Loaded(s.exprs, schema, indices)])
    case LookUp(id) =>
      && id in s.readers && s.readers[id].Loaded?
      && var r := s.readers[id];
      && var hit := if r.schema == "" then None else Find(s.cache, KeyOf(r.schema, r.indices));
      && if hit.Some? then t == s.(readers := s.readers[id := Using(r.exprs, r.indices, hit.value)])
         else if r.schema != "" then t == s.(readers := s.readers[id := Missed(r.exprs, r.schema, r.indices)])
         else Built(s, id, r.exprs, r.indices, s.cache, t, shadowed)
    case Store(id) =>
      && id in s.readers && s.readers[id].Missed?
      && id in t.readers && t.readers[id].Using?
      && var r := s.readers[id];
      && Built(s, id, r.exprs, r.indices, Put(s.cache, capacity, KeyOf(r.schema, r.indices), t.readers[id].plan), t,
               shadowed)
    case Finish(id) =>
      id in s.readers && s.readers[id].Using? && t == s.(readers := map k | k in s.readers && k != id :: s.readers[k])
    case Publish(edit) =>
      s.writer.Unlocked? && t == s.(exprs := Edited(s.exprs, edit), writer := Published(edit))
    case Invalidate =>
      s.writer.Published? && t == s.(cache := [], writer := Unlocked)
  }

  /** A batch goes on with the plan built from the slice it loaded. */
  ghost predicate Built(s: State, id: nat, exprs: Slice, indices: seq<int>, cache: seq<CacheEntry>, t: State,
                        shadowed: set<string>) {
    && id in t.readers && t.readers[id].Using? && PlanFor(t.readers[id].plan, ChoicesOf(exprs, indices, shadowed))
    && t == s.(cache := cache, readers := s.readers[id := Using(exprs, indices, t.readers[id].plan)])
  }

  /** A change other than an addition is made while no batch is evaluated: none begins or goes on
      until the cache is cleared. */
  ghost predicate Orderly(s: State, step: Step) {
    && (step.Publish? && !step.edit.Append? ==> s.readers == map[])
    && (step.Load? ==> s.writer.Unlocked? || s.writer.edit.Append?)
  }

  ghost predicate Run(states: seq<State>, steps: seq<Step>, capacity: nat, shadowed: set<string>)
    requires capacity > 0
  {
    && |states| == |steps| + 1 && Initial(states[0])
    && forall i :: 0 <= i < |steps| ==> Steps(states[i], steps[i], states[i + 1], capacity, shadowed)
  }

  /** The plan a batch uses carries only fast paths of the expressions of the slice it loaded: what it
      tries for an expression is how that expression is evaluated. */
  ghost predicate SoundFor(plan: GroupPlan, exprs: Slice, indices: seq<int>, shadowed: set<string>) {
    forall i :: 0 <= i < |indices| ==> SoundAt(plan, exprs, indices, shadowed, i)
  }

  ghost predicate SoundAt(plan: GroupPlan, exprs: Slice, indices: seq<int>, shadowed: set<string>, i: nat)
    requires i < |indices|
  {
    var c := ChoiceAt(exprs, indices[i], shadowed);
    c.Absent? || Planned(plan, i) == Decode || Planned(plan, i) == c
  }

  /** plan was built from a slice that began as exprs does. */
  ghost predicate FromPrefix(plan: GroupPlan, exprs: Slice, indices: seq<int>, shadowed: set<string>) {
    exists older: Slice :: older <= exprs && PlanFor(plan, ChoicesOf(older, indices, shadowed))
  }

  /** A plan from a slice and the slice a batch loaded agree where both began as one later slice does. */
  lemma PrefixSound(plan: GroupPlan, exprs: Slice, loaded: Slice, indices: seq<int>, shadowed: set<string>)
    requires FromPrefix(plan, exprs, indices, shadowed) && loaded <= exprs
    ensures SoundFor(plan, loaded, indices, shadowed)
  {
    hide PlanFor, Planned;
    var older: Slice :| older <= exprs && PlanFor(plan, ChoicesOf(older, indices, shadowed));
    forall i | 0 <= i < |indices|
      ensures SoundAt(plan, loaded, indices, shadowed, i)
    {
      var idx := indices[i];
      PlannedIs(plan, ChoicesOf(older, indices, shadowed), i);
      if 0 <= idx < |older| && idx < |loaded| {
        assert older[idx] == exprs[idx] == loaded[idx];
      }
    }
  }

  ghost predicate EntryFromPrefix(e: CacheEntry, exprs: Slice, shadowed: set<string>) {
    exists schema, indices :: e.key == KeyOf(schema, indices) && FromPrefix(e.plan, exprs, indices, shadowed)
  }

  /** A change that is not an addition is published, and the cache not yet cleared for it. */
  predicate Changing(s: State) {
    s.writer.Published? && !s.writer.edit.Append?
  }

  /** What every step of an orderly run keeps: the cache, unless it is about to be cleared for a change
      that is not an addition, and every batch under way go back to slices that the present one extends. */
  ghost predicate Inv(s: State, shadowed: set<string>) {
    && (Changing(s) ==> s.readers == map[])
    && (!Changing(s) ==> CacheInv(s.cache, s.exprs, shadowed))
    && forall id :: id in s.readers ==> ReaderInv(s.readers[id], s.exprs, shadowed)
  }

  ghost predicate CacheInv(cache: seq<CacheEntry>, exprs: Slice, shadowed: set<string>) {
    forall i :: 0 <= i < |cache| ==> EntryFromPrefix(cache[i], exprs, shadowed)
  }

  ghost predicate ReaderInv(r: Reader, exprs: Slice, shadowed: set<string>) {
    r.exprs <= exprs && (r.Using? ==> FromPrefix(r.plan, exprs, r.indices, shadowed))
  }

  lemma PrefixMore(plan: GroupPlan, exprs: Slice, more: Slice, indices: seq<int>, shadowed: set<string>)
    requires FromPrefix(plan, exprs, indices, shadowed) && exprs <= more
    ensures FromPrefix(plan, more, indices, shadowed)
  {
    hide PlanFor, ChoicesOf;
    var older: Slice :| older <= exprs && PlanFor(plan, ChoicesOf(older, indices, shadowed));
    assert older <= more;
  }

  lemma CacheMore(cache: seq<CacheEntry>, exprs: Slice, more: Slice, shadowed: set<string>)
    requires CacheInv(cache, exprs, shadowed) && exprs <= more
    ensures CacheInv(cache, more, shadowed)
  {
    hide FromPrefix, KeyOf;
    forall i | 0 <= i < |cache|
      ensures EntryFromPrefix(cache[i], more, shadowed)
    {
      var schema, indices :| cache[i].key == KeyOf(schema, indices)
          && FromPrefix(cache[i].plan, exprs, indices, shadowed);
      PrefixMore(cache[i].plan, exprs, more, indices, shadowed);
    }
  }

  /** A hit is a plan for the batch asked for, from some slice the present one extends. */
  lemma {:induction false} HitFromPrefix(cache: seq<CacheEntry>, exprs: Slice, shadowed: set<string>, schema: string,
                                         indices: seq<int>)
    requires CacheInv(cache, exprs, shadowed)
    ensures var hit := Find(cache, KeyOf(schema, indices)); hit.Some? ==>
            FromPrefix(hit.value, exprs, indices, shadowed)
  {
    hide FromPrefix, KeyOf;
    if cache != [] {
      if cache[0].key == KeyOf(schema, indices) {
        var s, a :| cache[0].key == KeyOf(s, a) && FromPrefix(cache[0].plan, exprs, a, shadowed);
        KeyInjective(s, a, schema, indices);
      } else {
        HitFromPrefix(cache[1..], exprs, shadowed, schema, indices);
      }
    }
  }

  lemma PutFromPrefix(cache: seq<CacheEntry>, capacity: nat, plan: GroupPlan, exprs: Slice, shadowed: set<string>,
                      schema: string, indices: seq<int>)
    requires capacity > 0 && CacheInv(cache, exprs, shadowed) && FromPrefix(plan, exprs, indices, shadowed)
    ensures CacheInv(Put(cache, capacity, KeyOf(schema, indices), plan), exprs, shadowed)
  {
    hide FromPrefix, KeyOf, Find;
    var after := Put(cache, capacity, KeyOf(schema, indices), plan);
    assert EntryFromPrefix(CacheEntry(KeyOf(schema, indices), plan), exprs, shadowed);
    forall i | 0 <= i < |after|
      ensures EntryFromPrefix(after[i], exprs, shadowed)
    {
      assert after[i] in cache || after[i] == CacheEntry(KeyOf(schema, indices), plan);
    }
  }

  lemma ReadersMore(s: State, more: Slice, shadowed: set<string>)
    requires Inv(s, shadowed) && s.exprs <= more
    ensures forall id :: id in s.readers ==> ReaderInv(s.readers[id], more, shadowed)
  {
    hide FromPrefix;
    forall id | id in s.readers
      ensures ReaderInv(s.readers[id], more, shadowed)
    {
      assert ReaderInv(s.readers[id], s.exprs, shadowed);
      if s.readers[id].Using? {
        PrefixMore(s.readers[id].plan, s.exprs, more, s.readers[id].indices, shadowed);
      }
    }
  }

  /** An orderly step keeps the invariant. */
  lemma StepKeeps(s: State, step: Step, t: State, capacity: nat, shadowed: set<string>)
    requires capacity > 0 && Inv(s, shadowed) && Steps(s, step, t, capacity, shadowed) && Orderly(s, step)
    ensures Inv(t, shadowed)
  {
    match step
    case Load(_, _, _) =>
      KeepsReaders(s, step, t, shadowed);
    case LookUp(id) =>
      LookUpKeeps(s, id, t, capacity, shadowed);
    case Store(id) =>
      StoreKeeps(s, id, t, capacity, shadowed);
    case Finish(_) =>
      KeepsReaders(s, step, t, shadowed);
    case Publish(edit) =>
      PublishKeeps(s, edit, t, shadowed);
    case Invalidate =>
  }

  lemma KeepsReaders(s: State, step: Step, t: State, shadowed: set<string>)
    requires Inv(s, shadowed) && (step.Load? || step.Finish?) && Orderly(s, step) && Steps(s, step, t, 1, shadowed)
    ensures Inv(t, shadowed)
  {
    hide FromPrefix, CacheInv, KeyOf;
    forall id | id in t.readers
      ensures ReaderInv(t.readers[id], t.exprs, shadowed)
    {
      assert id in s.readers ==> ReaderInv(s.readers[id], s.exprs, shadowed);
    }
  }

  lemma LookUpKeeps(s: State, id: nat, t: State, capacity: nat, shadowed: set<string>)
    requires capacity > 0 && Inv(s, shadowed) && Steps(s, LookUp(id), t, capacity, shadowed)
    ensures Inv(t, shadowed)
  {
    hide FromPrefix, CacheInv, KeyOf, PlanFor, ChoicesOf, Find;
    var r := s.readers[id];
    assert ReaderInv(r, s.exprs, shadowed) && !Changing(s);
    HitFromPrefix(s.cache, s.exprs, shadowed, r.schema, r.indices);
    if t.readers[id].Using? && r.schema == "" {
      FromLoaded(t.readers[id].plan, r.exprs, s.exprs, r.indices, shadowed);
    }
    forall k | k in t.readers
      ensures ReaderInv(t.readers[k], t.exprs, shadowed)
    {
      assert k in s.readers && ReaderInv(s.readers[k], s.exprs, shadowed);
    }
  }

  lemma FromLoaded(plan: GroupPlan, loaded: Slice, exprs: Slice, indices: seq<int>, shadowed: set<string>)
    requires loaded <= exprs && PlanFor(plan, ChoicesOf(loaded, indices, shadowed))
    ensures FromPrefix(plan, exprs, indices, shadowed)
  {
    hide PlanFor, ChoicesOf;
  }

  lemma StoreKeeps(s: State, id: nat, t: State, capacity: nat, shadowed: set<string>)
    requires capacity > 0 && Inv(s, shadowed) && Steps(s, Store(id), t, capacity, shadowed)
    ensures Inv(t, shadowed)
  {
    hide FromPrefix, CacheInv, KeyOf, PlanFor, ChoicesOf, Put;
    var r := s.readers[id];
    assert ReaderInv(r, s.exprs, shadowed) && !Changing(s);
    FromLoaded(t.readers[id].plan, r.exprs, s.exprs, r.indices, shadowed);
    PutFromPrefix(s.cache, capacity, t.readers[id].plan, s.exprs, shadowed, r.schema, r.indices);
    forall k | k in t.readers
      ensures ReaderInv(t.readers[k], t.exprs, shadowed)
    {
      assert k in s.readers && ReaderInv(s.readers[k], s.exprs, shadowed);
    }
  }

  lemma PublishKeeps(s: State, edit: Edit, t: State, shadowed: set<string>)
    requires Inv(s, shadowed) && Steps(s, Publish(edit), t, 1, shadowed) && Orderly(s, Publish(edit))
    ensures Inv(t, shadowed)
  {
    hide FromPrefix, CacheInv, KeyOf;
    if edit.Append? {
      assert s.exprs <= t.exprs;
      ReadersMore(s, t.exprs, shadowed);
      CacheMore(s.cache, s.exprs, t.exprs, shadowed);
    }
  }

  lemma {:induction false} RunKeeps(states: seq<State>, steps: seq<Step>, capacity: nat, shadowed: set<string>, n: nat)
    requires capacity > 0 && Run(states, steps, capacity, shadowed) && n < |states|
    requires forall i :: 0 <= i < |steps| ==> Orderly(states[i], steps[i])
    ensures Inv(states[n], shadowed)
  {
    if n == 0 {
      assert CacheInv(states[0].cache, states[0].exprs, shadowed);
    } else {
      hide Steps, Orderly, Inv;
      RunKeeps(states, steps, capacity, shadowed, n - 1);
      StepKeeps(states[n - 1], steps[n - 1], states[n], capacity, shadowed);
    }
  }

  /** In every run in which expressions are added at any time, but changed or removed only while no batch
      is evaluated, every batch at every moment uses a plan that is sound for the slice it loaded. */
  lemma RunsAreSound(states: seq<State>, steps: seq<Step>, capacity: nat, shadowed: set<string>, n: nat, id: nat)
    requires capacity > 0 && Run(states, steps, capacity, shadowed) && n < |states|
    requires forall i :: 0 <= i < |steps| ==> Orderly(states[i], steps[i])
    requires id in states[n].readers && states[n].readers[id].Using?
    ensures var r := states[n].readers[id]; SoundFor(r.plan, r.exprs, r.indices, shadowed)
  {
    hide Steps, Orderly, FromPrefix, SoundFor, CacheInv;
    RunKeeps(states, steps, capacity, shadowed, n);
    var r := states[n].readers[id];
    assert ReaderInv(r, states[n].exprs, shadowed);
    PrefixSound(r.plan, states[n].exprs, r.exprs, r.indices, shadowed);
  }

  /** With additions alone every run is orderly. */
  lemma AddingIsOrderly(s: State, step: Step)
    requires (step.Publish? ==> step.edit.Append?) && (s.writer.Published? ==> s.writer.edit.Append?)
    ensures Orderly(s, step)
  {
  }
}
