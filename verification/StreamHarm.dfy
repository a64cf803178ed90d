/** A change of the expressions made while batches are evaluated: exactly when it can make one of them use a plan
    of other expressions than those it loaded. */
module StreamHarm {
  import opened Wrappers
  import opened Plans
  import opened PlanKey
  import opened PlanCache
  import opened StreamRuns

  /** What the plan of a batch has for its expression i. */
  function Tried(choices: seq<Choice>, i: nat): Choice
    requires i < |choices|
  {
    var c := choices[i];
    if c.Absent? || c == Pure("") || (c.Compose? && Decode in choices) then Decode else c
  }

  function TriedAt(exprs: Slice, indices: seq<int>, shadowed: set<string>, i: nat): Choice
    requires i < |indices|
  {
    Tried(ChoicesOf(exprs, indices, shadowed), i)
  }

  /** A plan that has p for an expression is wrong for a batch that evaluates it as c. */
  predicate Wrong(p: Choice, c: Choice) {
    !c.Absent? && p != Decode && p != c
  }

  function ListOf<T>(needed: bool, choices: seq<Choice>, entry: Choice -> T): Option<seq<T>> {
    if needed then Some(seq(|choices|, i requires 0 <= i < |choices| => entry(choices[i]))) else None
  }

  /** The plan of a batch. */
  ghost function PlanOf(choices: seq<Choice>): (plan: GroupPlan)
    ensures PlanFor(plan, choices)
  {
    var pure := exists i :: 0 <= i < |choices| && choices[i].Pure?;
    GroupPlan(ListOf(pure, choices, PathEntry), ListOf(pure, choices, PureEntry),
              ListOf(exists i :: 0 <= i < |choices| && choices[i].Compare?, choices, CmpEntry),
              ListOf(exists i :: 0 <= i < |choices| && choices[i].Call?, choices, FuncEntry),
              ListOf((exists i :: 0 <= i < |choices| && choices[i].Compose?) && Decode !in choices, choices, BoolEntry))
  }

  /** The batch can still store the plan of the slice it loaded where others look plans up. */
  predicate Pending(r: Reader) {
    !r.Using? && r.schema != ""
  }

  /** A batch under way can store a plan that is wrong for those that load the changed slice. */
  predicate StoresWrong(r: Reader, now: Slice, shadowed: set<string>) {
    && Pending(r)
    && exists i :: 0 <= i < |r.indices| &&
         Wrong(TriedAt(r.exprs, r.indices, shadowed, i), ChoiceAt(now, r.indices[i], shadowed))
  }

  /** A batch under way can look up a plan of the changed slice that is wrong for it. */
  predicate LooksUpWrong(r: Reader, now: Slice, shadowed: set<string>) {
    && r.Loaded? && r.schema != ""
    && exists i :: 0 <= i < |r.indices| &&
         Wrong(TriedAt(now, r.indices, shadowed, i), ChoiceAt(r.exprs, r.indices[i], shadowed))
  }

  /** A cached plan is wrong for a batch that loads the changed slice and asks for it. */
  predicate CachedWrong(cache: seq<CacheEntry>, schema: string, indices: seq<int>, now: Slice, shadowed: set<string>) {
    var hit := Find(cache, KeyOf(schema, indices));
    && schema != "" && hit.Some?
    && exists i :: 0 <= i < |indices| && Wrong(Planned(hit.value, i), ChoiceAt(now, indices[i], shadowed))
  }

  /** A batch under way can store a plan that is wrong for another that can look it up. */
  predicate StoresWrongFor(r: Reader, other: Reader, shadowed: set<string>) {
    && !r.Using? && other.Loaded? && r.schema == other.schema && r.indices == other.indices
    && StoresWrong(r, other.exprs, shadowed)
  }

  /** The batches under way and the cached plans are at odds already. */
  ghost predicate Amiss(s: State, shadowed: set<string>) {
    || Harmed(s, shadowed)
    || (exists id :: id in s.readers && HitsWrong(s.cache, s.readers[id], shadowed))
    || (exists id, k :: id in s.readers && k in s.readers && StoresWrongFor(s.readers[id], s.readers[k], shadowed))
  }

  predicate HitsWrong(cache: seq<CacheEntry>, r: Reader, shadowed: set<string>) {
    r.Loaded? && CachedWrong(cache, r.schema, r.indices, r.exprs, shadowed)
  }

  /** The edit is at odds with a batch under way or with a cached plan, or these are with each other. */
  ghost predicate Conflict(s: State, edit: Edit, shadowed: set<string>) {
    var now := Edited(s.exprs, edit);
    || Amiss(s, shadowed)
    || (exists id :: id in s.readers && StoresWrong(s.readers[id], now, shadowed))
    || (exists schema, indices :: CachedWrong(s.cache, schema, indices, now, shadowed))
    || (exists id :: id in s.readers && LooksUpWrong(s.readers[id], now, shadowed))
  }

  ghost predicate Harmed(s: State, shadowed: set<string>) {
    exists id :: id in s.readers && HarmedReader(s.readers[id], shadowed)
  }

  ghost predicate HarmedReader(r: Reader, shadowed: set<string>) {
    r.Using? && !SoundFor(r.plan, r.exprs, r.indices, shadowed)
  }

  ghost predicate QuietStep(s: State, step: Step, t: State, capacity: nat, shadowed: set<string>)
    requires capacity > 0
  {
    !step.Publish? && Steps(s, step, t, capacity, shadowed)
  }

  /** In n steps, of which none publishes anything, a batch comes to harm. */
  ghost predicate Leads(s: State, n: nat, capacity: nat, shadowed: set<string>)
    requires capacity > 0
    decreases n
  {
    if n == 0 then Harmed(s, shadowed)
    else exists step, t :: QuietStep(s, step, t, capacity, shadowed) && Leads(t, n - 1, capacity, shadowed)
  }

  /** Once the edit is published, and nothing after it, a batch can come to harm. */
  ghost predicate CanHarm(s: State, edit: Edit, capacity: nat, shadowed: set<string>)
    requires capacity > 0
  {
    exists n :: Leads(After(s, edit), n, capacity, shadowed)
  }

  function After(s: State, edit: Edit): State {
    s.(exprs := Edited(s.exprs, edit), writer := Published(edit))
  }

  lemma LeadsOn(s: State, step: Step, t: State, n: nat, capacity: nat, shadowed: set<string>)
    requires capacity > 0 && !step.Publish? && Steps(s, step, t, capacity, shadowed) && Leads(t, n, capacity, shadowed)
    ensures Leads(s, n + 1, capacity, shadowed)
  {
    hide Steps;
    assert QuietStep(s, step, t, capacity, shadowed);
  }

  /** An identity no batch has. */
  lemma FreshId(readers: map<nat, Reader>) returns (id: nat)
    ensures id !in readers
  {
    id := 0;
    var left := readers.Keys;
    while left != {}
      invariant forall k :: k in readers && k !in left ==> k < id
      decreases left
    {
      var k :| k in left;
      id := if k < id then id else k + 1;
      left := left - {k};
    }
  }

  lemma WrongShows(plan: GroupPlan, exprs: Slice, indices: seq<int>, shadowed: set<string>, i: nat)
    requires i < |indices| && Wrong(Planned(plan, i), ChoiceAt(exprs, indices[i], shadowed))
    ensures !SoundFor(plan, exprs, indices, shadowed)
  {
    assert !SoundAt(plan, exprs, indices, shadowed, i);
  }

  lemma PlanTries(plan: GroupPlan, exprs: Slice, indices: seq<int>, shadowed: set<string>, i: nat)
    requires PlanFor(plan, ChoicesOf(exprs, indices, shadowed)) && i < |indices|
    ensures Planned(plan, i) == TriedAt(exprs, indices, shadowed, i)
  {
    PlannedIs(plan, ChoicesOf(exprs, indices, shadowed), i);
  }

  lemma UsesWrong(s: State, id: nat, i: nat, capacity: nat, shadowed: set<string>)
    requires capacity > 0 && id in s.readers && s.readers[id].Using? && i < |s.readers[id].indices|
    requires var r := s.readers[id]; Wrong(Planned(r.plan, i), ChoiceAt(r.exprs, r.indices[i], shadowed))
    ensures Leads(s, 0, capacity, shadowed)
  {
    hide SoundFor;
    WrongShows(s.readers[id].plan, s.readers[id].exprs, s.readers[id].indices, shadowed, i);
    assert HarmedReader(s.readers[id], shadowed);
  }

  /** A new batch uses a wrong plan that it finds in the cache. */
  lemma HitHarms(s: State, schema: string, indices: seq<int>, i: nat, capacity: nat, shadowed: set<string>)
    requires capacity > 0 && i < |indices| && schema != ""
    requires var hit := Find(s.cache, KeyOf(schema, indices));
             hit.Some? && Wrong(Planned(hit.value, i), ChoiceAt(s.exprs, indices[i], shadowed))
    ensures Leads(s, 2, capacity, shadowed)
  {
    hide KeyOf, Planned, Find, Leads;
    var plan := Find(s.cache, KeyOf(schema, indices)).value;
    var other := FreshId(s.readers);
    var loaded := s.(readers := s.readers[other := Loaded(s.exprs, schema, indices)]);
    var used := s.(readers := s.readers[other := Using(s.exprs, indices, plan)]);
    UsesWrong(used, other, i, capacity, shadowed);
    assert loaded.readers[other := Using(s.exprs, indices, plan)] == used.readers;
    LeadsOn(loaded, LookUp(other), used, 0, capacity, shadowed);
    LeadsOn(s, Load(other, schema, indices), loaded, 1, capacity, shadowed);
  }

  /** A batch under way has stored the plan of its slice in a cleared cache. */
  function Stored(s: State, id: nat, plan: GroupPlan): State
    requires id in s.readers && !s.readers[id].Using?
  {
    var r := s.readers[id];
    s.(cache := [CacheEntry(KeyOf(r.schema, r.indices), plan)],
       readers := s.readers[id := Using(r.exprs, r.indices, plan)])
  }

  function Cleared(s: State, edit: Edit): State {
    After(s, edit).(cache := [], writer := Unlocked)
  }

  /** Whatever follows once it has, can follow after the change. */
  lemma PendingStores(s: State, edit: Edit, id: nat, plan: GroupPlan, n: nat, capacity: nat, shadowed: set<string>)
    requires capacity > 0 && id in s.readers && Pending(s.readers[id])
    requires PlanFor(plan, ChoicesOf(s.readers[id].exprs, s.readers[id].indices, shadowed))
    requires Leads(Stored(Cleared(s, edit), id, plan), n, capacity, shadowed)
    ensures CanHarm(s, edit, capacity, shadowed)
  {
    hide KeyOf, PlanFor, ChoicesOf, Leads;
    var r, cleared := s.readers[id], Cleared(s, edit);
    var missed := cleared.(readers := s.readers[id := Missed(r.exprs, r.schema, r.indices)]);
    var stored := Stored(cleared, id, plan);
    assert missed.readers[id := Using(r.exprs, r.indices, plan)] == stored.readers;
    LeadsOn(missed, Store(id), stored, n, capacity, shadowed);
    if r.Loaded? {
      LeadsOn(cleared, LookUp(id), missed, n + 1, capacity, shadowed);
      LeadsOn(After(s, edit), Invalidate, cleared, n + 2, capacity, shadowed);
    } else {
      assert missed.readers == s.readers;
      LeadsOn(After(s, edit), Invalidate, cleared, n + 1, capacity, shadowed);
    }
  }

  /** A change made while a batch is evaluated leaves the plan of its slice in the cache, which a later batch uses:
      the first stores it after the cache is cleared. */
  lemma StaleAfterChange(s: State, edit: Edit, id: nat, capacity: nat, shadowed: set<string>)
    requires capacity > 0 && id in s.readers && StoresWrong(s.readers[id], Edited(s.exprs, edit), shadowed)
    ensures CanHarm(s, edit, capacity, shadowed)
  {
    hide KeyOf, PlanFor, ChoicesOf, Planned, TriedAt, Leads, CanHarm;
    var now, r := Edited(s.exprs, edit), s.readers[id];
    var i :| 0 <= i < |r.indices|
      && Wrong(TriedAt(r.exprs, r.indices, shadowed, i), ChoiceAt(now, r.indices[i], shadowed));
    var plan := PlanOf(ChoicesOf(r.exprs, r.indices, shadowed));
    PlanTries(plan, r.exprs, r.indices, shadowed, i);
    HitHarms(Stored(Cleared(s, edit), id, plan), r.schema, r.indices, i, capacity, shadowed);
    PendingStores(s, edit, id, plan, 2, capacity, shadowed);
  }

  /** A batch that begins once a change is published uses a cached plan, which it looks up before the cache is
      cleared. */
  lemma StaleBeforeClear(s: State, edit: Edit, schema: string, indices: seq<int>, capacity: nat, shadowed: set<string>)
    requires capacity > 0 && CachedWrong(s.cache, schema, indices, Edited(s.exprs, edit), shadowed)
    ensures CanHarm(s, edit, capacity, shadowed)
  {
    hide KeyOf, Planned, Find, Leads;
    var now, plan := Edited(s.exprs, edit), Find(s.cache, KeyOf(schema, indices)).value;
    var i :| 0 <= i < |indices| && Wrong(Planned(plan, i), ChoiceAt(now, indices[i], shadowed));
    HitHarms(After(s, edit), schema, indices, i, capacity, shadowed);
  }

  /** A batch looks up the plan another has just stored, which is wrong for it. */
  lemma LookUpHarms(s: State, id: nat, plan: GroupPlan, i: nat, capacity: nat, shadowed: set<string>)
    requires capacity > 0 && id in s.readers && s.readers[id].Loaded? && s.readers[id].schema != ""
    requires var r := s.readers[id];
             && s.cache == [CacheEntry(KeyOf(r.schema, r.indices), plan)] && i < |r.indices|
             && Wrong(Planned(plan, i), ChoiceAt(r.exprs, r.indices[i], shadowed))
    ensures Leads(s, 1, capacity, shadowed)
  {
    hide KeyOf, Planned, Leads;
    var r := s.readers[id];
    var used := s.(readers := s.readers[id := Using(r.exprs, r.indices, plan)]);
    UsesWrong(used, id, i, capacity, shadowed);
    LeadsOn(s, LookUp(id), used, 0, capacity, shadowed);
  }

  /** A new batch stores the plan of its slice in a cleared cache. */
  lemma NewStores(s: State, other: nat, schema: string, indices: seq<int>, plan: GroupPlan, n: nat, capacity: nat,
                  shadowed: set<string>)
    requires capacity > 0 && s.cache == [] && other !in s.readers && schema != "" && indices != []
    requires PlanFor(plan, ChoicesOf(s.exprs, indices, shadowed))
    requires Leads(s.(cache := [CacheEntry(KeyOf(schema, indices), plan)],
                      readers := s.readers[other := Using(s.exprs, indices, plan)]), n, capacity, shadowed)
    ensures Leads(s, n + 3, capacity, shadowed)
  {
    hide KeyOf, PlanFor, ChoicesOf, Leads;
    var loaded := s.(readers := s.readers[other := Loaded(s.exprs, schema, indices)]);
    var missed := s.(readers := s.readers[other := Missed(s.exprs, schema, indices)]);
    var stored := s.(cache := [CacheEntry(KeyOf(schema, indices), plan)],
                     readers := s.readers[other := Using(s.exprs, indices, plan)]);
    assert missed.readers[other := Using(s.exprs, indices, plan)] == stored.readers;
    LeadsOn(missed, Store(other), stored, n, capacity, shadowed);
    assert loaded.readers[other := Missed(s.exprs, schema, indices)] == missed.readers;
    LeadsOn(loaded, LookUp(other), missed, n + 1, capacity, shadowed);
    LeadsOn(s, Load(other, schema, indices), loaded, n + 2, capacity, shadowed);
  }

  /** A batch that loaded the slice before a change uses the plan a later batch stored for the changed one. */
  lemma AheadOfBatch(s: State, edit: Edit, id: nat, capacity: nat, shadowed: set<string>)
    requires capacity > 0 && id in s.readers && LooksUpWrong(s.readers[id], Edited(s.exprs, edit), shadowed)
    ensures CanHarm(s, edit, capacity, shadowed)
  {
    hide KeyOf, PlanFor, ChoicesOf, Planned, TriedAt, Leads;
    var now, r := Edited(s.exprs, edit), s.readers[id];
    var i :| 0 <= i < |r.indices|
      && Wrong(TriedAt(now, r.indices, shadowed, i), ChoiceAt(r.exprs, r.indices[i], shadowed));
    var plan := PlanOf(ChoicesOf(now, r.indices, shadowed));
    var other := FreshId(s.readers);
    var cleared := Cleared(s, edit);
    PlanTries(plan, now, r.indices, shadowed, i);
    LookUpHarms(cleared.(cache := [CacheEntry(KeyOf(r.schema, r.indices), plan)],
                         readers := s.readers[other := Using(now, r.indices, plan)]), id, plan, i, capacity, shadowed);
    NewStores(cleared, other, r.schema, r.indices, plan, 1, capacity, shadowed);
    LeadsOn(After(s, edit), Invalidate, cleared, 4, capacity, shadowed);
  }

  /** A batch that can look it up uses a wrong plan that another under way stores. */
  lemma StoredForOther(s: State, edit: Edit, id: nat, k: nat, capacity: nat, shadowed: set<string>)
    requires capacity > 0 && id in s.readers && k in s.readers
    requires StoresWrongFor(s.readers[id], s.readers[k], shadowed)
    ensures CanHarm(s, edit, capacity, shadowed)
  {
    hide KeyOf, PlanFor, ChoicesOf, Planned, TriedAt, Leads, CanHarm, ChoiceAt;
    var r, other := s.readers[id], s.readers[k];
    var i :| 0 <= i < |r.indices|
      && Wrong(TriedAt(r.exprs, r.indices, shadowed, i), ChoiceAt(other.exprs, r.indices[i], shadowed));
    var plan := PlanOf(ChoicesOf(r.exprs, r.indices, shadowed));
    PlanTries(plan, r.exprs, r.indices, shadowed, i);
    OwnRight(r.exprs, r.indices, shadowed, i);
    LookUpHarms(Stored(Cleared(s, edit), id, plan), k, plan, i, capacity, shadowed);
    PendingStores(s, edit, id, plan, 1, capacity, shadowed);
  }

  lemma OwnRight(exprs: Slice, indices: seq<int>, shadowed: set<string>, i: nat)
    requires i < |indices|
    ensures !Wrong(TriedAt(exprs, indices, shadowed, i), ChoiceAt(exprs, indices[i], shadowed))
  {
  }

  lemma AmissHarms(s: State, edit: Edit, capacity: nat, shadowed: set<string>)
    requires capacity > 0 && Amiss(s, shadowed)
    ensures CanHarm(s, edit, capacity, shadowed)
  {
    hide KeyOf, Planned, Find, StoresWrongFor, HarmedReader, ChoiceAt;
    if Harmed(s, shadowed) {
      assert Harmed(After(s, edit), shadowed);
      assert Leads(After(s, edit), 0, capacity, shadowed);
    } else if id :| id in s.readers && HitsWrong(s.cache, s.readers[id], shadowed) {
      hide Leads;
      var r := s.readers[id];
      var plan := Find(s.cache, KeyOf(r.schema, r.indices)).value;
      var i :| 0 <= i < |r.indices| && Wrong(Planned(plan, i), ChoiceAt(r.exprs, r.indices[i], shadowed));
      var used := After(s, edit).(readers := s.readers[id := Using(r.exprs, r.indices, plan)]);
      UsesWrong(used, id, i, capacity, shadowed);
      LeadsOn(After(s, edit), LookUp(id), used, 0, capacity, shadowed);
    } else {
      var id, k :| id in s.readers && k in s.readers && StoresWrongFor(s.readers[id], s.readers[k], shadowed);
      StoredForOther(s, edit, id, k, capacity, shadowed);
    }
  }

  /** r goes back to a batch that was under way at s. */
  ghost predicate Older(s: State, r: Reader) {
    exists k :: k in s.readers && SameBatch(s.readers[k], r)
  }

  predicate SameBatch(old_: Reader, r: Reader) {
    && !old_.Using? && !r.Using? && (r.Loaded? ==> old_.Loaded?)
    && old_.exprs == r.exprs && old_.schema == r.schema && old_.indices == r.indices
  }

  ghost predicate ReaderSafe(s: State, now: Slice, r: Reader, shadowed: set<string>) {
    if r.Using? then SoundFor(r.plan, r.exprs, r.indices, shadowed) else r.exprs == now || Older(s, r)
  }

  /** A batch with this slice may have stored this plan. */
  ghost predicate StoredBy(e: CacheEntry, exprs: Slice, schema: string, indices: seq<int>, shadowed: set<string>) {
    e.key == KeyOf(schema, indices) && PlanFor(e.plan, ChoicesOf(exprs, indices, shadowed))
  }

  ghost predicate FromOlder(s: State, e: CacheEntry, shadowed: set<string>) {
    exists k :: k in s.readers && !s.readers[k].Using? &&
      StoredBy(e, s.readers[k].exprs, s.readers[k].schema, s.readers[k].indices, shadowed)
  }

  ghost predicate FromNow(now: Slice, e: CacheEntry, shadowed: set<string>) {
    exists schema, indices :: StoredBy(e, now, schema, indices, shadowed)
  }

  ghost predicate EntrySafe(s: State, now: Slice, e: CacheEntry, shadowed: set<string>) {
    e in s.cache || FromOlder(s, e, shadowed) || FromNow(now, e, shadowed)
  }

  /** What every step after the change keeps, if there is no conflict: a batch has the changed slice or that of one
      under way before, a cached plan is from before or from such a batch, and no batch is harmed. */
  ghost predicate Safe(s: State, now: Slice, t: State, shadowed: set<string>) {
    && t.exprs == now
    && (forall id :: id in t.readers ==> ReaderSafe(s, now, t.readers[id], shadowed))
    && (forall i :: 0 <= i < |t.cache| ==> EntrySafe(s, now, t.cache[i], shadowed))
  }

  /** No change is under way; the cache, as always, has a key once. */
  ghost predicate Ready(s: State) {
    s.writer.Unlocked? && DistinctKeys(s.cache)
  }

  lemma {:induction false} FindIn(cache: seq<CacheEntry>, key: string)
    requires Find(cache, key).Some?
    ensures exists i :: 0 <= i < |cache| && cache[i] == CacheEntry(key, Find(cache, key).value)
  {
    if cache[0].key == key {
      assert cache[0] == CacheEntry(key, Find(cache, key).value);
    } else {
      FindIn(cache[1..], key);
      var i :| 0 <= i < |cache[1..]| && cache[1..][i] == CacheEntry(key, Find(cache, key).value);
      assert cache[i + 1] == cache[1..][i];
    }
  }

  lemma OwnSound(plan: GroupPlan, exprs: Slice, indices: seq<int>, shadowed: set<string>)
    requires PlanFor(plan, ChoicesOf(exprs, indices, shadowed))
    ensures SoundFor(plan, exprs, indices, shadowed)
  {
    hide PlanFor, ChoicesOf, Planned;
    forall i | 0 <= i < |indices|
      ensures SoundAt(plan, exprs, indices, shadowed, i)
    {
      PlanTries(plan, exprs, indices, shadowed, i);
      assert ChoicesOf(exprs, indices, shadowed)[i] == ChoiceAt(exprs, indices[i], shadowed);
    }
  }

  lemma NotWrongSound(plan: GroupPlan, exprs: Slice, indices: seq<int>, shadowed: set<string>)
    requires forall i :: 0 <= i < |indices| ==> !Wrong(Planned(plan, i), ChoiceAt(exprs, indices[i], shadowed))
    ensures SoundFor(plan, exprs, indices, shadowed)
  {
    hide Planned, ChoiceAt;
    forall i | 0 <= i < |indices|
      ensures SoundAt(plan, exprs, indices, shadowed, i)
    {
      assert !Wrong(Planned(plan, i), ChoiceAt(exprs, indices[i], shadowed));
    }
  }

  lemma HitInCache(s: State, now: Slice, r: Reader, plan: GroupPlan, edit: Edit, shadowed: set<string>)
    requires Ready(s) && now == Edited(s.exprs, edit) && !Conflict(s, edit, shadowed)
    requires r.Loaded? && r.schema != "" && ReaderSafe(s, now, r, shadowed)
    requires CacheEntry(KeyOf(r.schema, r.indices), plan) in s.cache
    ensures SoundFor(plan, r.exprs, r.indices, shadowed)
  {
    hide KeyOf, Planned, Find, DistinctKeys, SoundFor, ChoiceAt;
    FindAt(s.cache, KeyOf(r.schema, r.indices));
    assert Find(s.cache, KeyOf(r.schema, r.indices)) == Some(plan);
    if r.exprs == now {
      assert !CachedWrong(s.cache, r.schema, r.indices, now, shadowed);
    } else {
      var k :| k in s.readers && SameBatch(s.readers[k], r);
      assert !HitsWrong(s.cache, s.readers[k], shadowed);
    }
    NotWrongSound(plan, r.exprs, r.indices, shadowed);
  }

  lemma HitFromOlder(s: State, now: Slice, r: Reader, plan: GroupPlan, edit: Edit, shadowed: set<string>)
    requires now == Edited(s.exprs, edit) && !Conflict(s, edit, shadowed)
    requires r.Loaded? && r.schema != "" && ReaderSafe(s, now, r, shadowed)
    requires FromOlder(s, CacheEntry(KeyOf(r.schema, r.indices), plan), shadowed)
    ensures SoundFor(plan, r.exprs, r.indices, shadowed)
  {
    hide KeyOf, Planned, PlanFor, ChoicesOf, TriedAt, SoundFor, ChoiceAt;
    var e := CacheEntry(KeyOf(r.schema, r.indices), plan);
    var k :| k in s.readers && !s.readers[k].Using? &&
      StoredBy(e, s.readers[k].exprs, s.readers[k].schema, s.readers[k].indices, shadowed);
    var old_ := s.readers[k];
    KeyInjective(old_.schema, old_.indices, r.schema, r.indices);
    if r.exprs == now {
      assert !StoresWrong(old_, now, shadowed);
    } else {
      var l :| l in s.readers && SameBatch(s.readers[l], r);
      assert !StoresWrongFor(old_, s.readers[l], shadowed);
    }
    forall i | 0 <= i < |r.indices|
      ensures !Wrong(Planned(plan, i), ChoiceAt(r.exprs, r.indices[i], shadowed))
    {
      PlanTries(plan, old_.exprs, r.indices, shadowed, i);
      assert !Wrong(TriedAt(old_.exprs, old_.indices, shadowed, i), ChoiceAt(r.exprs, old_.indices[i], shadowed));
    }
    NotWrongSound(plan, r.exprs, r.indices, shadowed);
  }

  lemma HitFromNow(s: State, now: Slice, r: Reader, plan: GroupPlan, edit: Edit, shadowed: set<string>)
    requires now == Edited(s.exprs, edit) && !Conflict(s, edit, shadowed)
    requires r.Loaded? && r.schema != "" && ReaderSafe(s, now, r, shadowed)
    requires FromNow(now, CacheEntry(KeyOf(r.schema, r.indices), plan), shadowed)
    ensures SoundFor(plan, r.exprs, r.indices, shadowed)
  {
    hide KeyOf, Planned, PlanFor, ChoicesOf, TriedAt;
    var schema, indices :| StoredBy(CacheEntry(KeyOf(r.schema, r.indices), plan), now, schema, indices, shadowed);
    KeyInjective(schema, indices, r.schema, r.indices);
    if r.exprs == now {
      OwnSound(plan, now, r.indices, shadowed);
    } else {
      var k :| k in s.readers && SameBatch(s.readers[k], r);
      assert !LooksUpWrong(s.readers[k], now, shadowed);
      forall i | 0 <= i < |r.indices|
        ensures SoundAt(plan, r.exprs, r.indices, shadowed, i)
      {
        PlanTries(plan, now, r.indices, shadowed, i);
        assert !Wrong(TriedAt(now, s.readers[k].indices, shadowed, i),
                      ChoiceAt(s.readers[k].exprs, s.readers[k].indices[i], shadowed));
      }
    }
  }

  /** Without a conflict every hit is sound. */
  lemma HitSound(s: State, now: Slice, t: State, r: Reader, edit: Edit, shadowed: set<string>)
    requires Ready(s) && now == Edited(s.exprs, edit) && !Conflict(s, edit, shadowed)
    requires Safe(s, now, t, shadowed) && r.Loaded? && r.schema != "" && ReaderSafe(s, now, r, shadowed)
    requires Find(t.cache, KeyOf(r.schema, r.indices)).Some?
    ensures SoundFor(Find(t.cache, KeyOf(r.schema, r.indices)).value, r.exprs, r.indices, shadowed)
  {
    hide KeyOf, SoundFor, Conflict, Ready, ReaderSafe, FromOlder, FromNow, Find;
    var key := KeyOf(r.schema, r.indices);
    var plan := Find(t.cache, key).value;
    FindIn(t.cache, key);
    var i :| 0 <= i < |t.cache| && t.cache[i] == CacheEntry(key, plan);
    assert EntrySafe(s, now, t.cache[i], shadowed);
    if t.cache[i] in s.cache {
      HitInCache(s, now, r, plan, edit, shadowed);
    } else if FromOlder(s, t.cache[i], shadowed) {
      HitFromOlder(s, now, r, plan, edit, shadowed);
    } else {
      HitFromNow(s, now, r, plan, edit, shadowed);
    }
  }

  lemma LookUpSafe(s: State, edit: Edit, id: nat, t: State, t': State, capacity: nat, shadowed: set<string>)
    requires capacity > 0 && Ready(s) && !Conflict(s, edit, shadowed)
    requires Safe(s, Edited(s.exprs, edit), t, shadowed) && Steps(t, LookUp(id), t', capacity, shadowed)
    ensures Safe(s, Edited(s.exprs, edit), t', shadowed)
  {
    hide KeyOf, SoundFor, Conflict, Ready, EntrySafe, PlanFor, ChoicesOf, Find;
    var now, r := Edited(s.exprs, edit), t.readers[id];
    assert ReaderSafe(s, now, r, shadowed);
    if r.schema == "" {
      OwnSound(t'.readers[id].plan, r.exprs, r.indices, shadowed);
    } else if Find(t.cache, KeyOf(r.schema, r.indices)).Some? {
      HitSound(s, now, t, r, edit, shadowed);
    } else if r.exprs != now {
      var k :| k in s.readers && SameBatch(s.readers[k], r);
      assert SameBatch(s.readers[k], t'.readers[id]);
    }
    OthersSafe(s, now, id, t, t', shadowed);
  }

  lemma OthersSafe(s: State, now: Slice, id: nat, t: State, t': State, shadowed: set<string>)
    requires forall k :: k in t.readers ==> ReaderSafe(s, now, t.readers[k], shadowed)
    requires forall k :: k in t'.readers && k != id ==> k in t.readers && t'.readers[k] == t.readers[k]
    requires id in t'.readers ==> ReaderSafe(s, now, t'.readers[id], shadowed)
    ensures forall k :: k in t'.readers ==> ReaderSafe(s, now, t'.readers[k], shadowed)
  {
    hide ReaderSafe;
  }

  lemma StoreSafe(s: State, edit: Edit, id: nat, t: State, t': State, capacity: nat, shadowed: set<string>)
    requires capacity > 0 && Safe(s, Edited(s.exprs, edit), t, shadowed)
    requires Steps(t, Store(id), t', capacity, shadowed)
    ensures Safe(s, Edited(s.exprs, edit), t', shadowed)
  {
    hide KeyOf, SoundFor, PlanFor, ChoicesOf, Find;
    var now, r := Edited(s.exprs, edit), t.readers[id];
    var e := CacheEntry(KeyOf(r.schema, r.indices), t'.readers[id].plan);
    assert ReaderSafe(s, now, r, shadowed);
    OwnSound(e.plan, r.exprs, r.indices, shadowed);
    if r.exprs == now {
      assert StoredBy(e, now, r.schema, r.indices, shadowed);
    } else {
      var k :| k in s.readers && SameBatch(s.readers[k], r);
      assert StoredBy(e, s.readers[k].exprs, s.readers[k].schema, s.readers[k].indices, shadowed);
    }
    OthersSafe(s, now, id, t, t', shadowed);
    hide EntrySafe;
    forall i | 0 <= i < |t'.cache|
      ensures EntrySafe(s, now, t'.cache[i], shadowed)
    {
      assert t'.cache[i] in t.cache || t'.cache[i] == e;
    }
  }

  /** Without a conflict every step after the change keeps all batches safe. */
  lemma StepSafe(s: State, edit: Edit, t: State, step: Step, t': State, capacity: nat, shadowed: set<string>)
    requires capacity > 0 && Ready(s) && !Conflict(s, edit, shadowed)
    requires Safe(s, Edited(s.exprs, edit), t, shadowed) && !step.Publish?
    requires Steps(t, step, t', capacity, shadowed)
    ensures Safe(s, Edited(s.exprs, edit), t', shadowed)
  {
    match step
    case LookUp(id) => LookUpSafe(s, edit, id, t, t', capacity, shadowed);
    case Store(id) => StoreSafe(s, edit, id, t, t', capacity, shadowed);
    case Load(id, _, _) => OthersSafe(s, Edited(s.exprs, edit), id, t, t', shadowed);
    case Finish(id) => OthersSafe(s, Edited(s.exprs, edit), id, t, t', shadowed);
    case Invalidate =>
  }

  lemma StartSafe(s: State, edit: Edit, shadowed: set<string>)
    requires !Conflict(s, edit, shadowed)
    ensures Safe(s, Edited(s.exprs, edit), After(s, edit), shadowed)
  {
    hide SoundFor;
    forall id | id in s.readers
      ensures ReaderSafe(s, Edited(s.exprs, edit), s.readers[id], shadowed)
    {
      var r := s.readers[id];
      assert !HarmedReader(r, shadowed);
      assert !r.Using? ==> SameBatch(r, r);
    }
  }

  lemma {:induction false} SafeForever(s: State, edit: Edit, t: State, n: nat, capacity: nat, shadowed: set<string>)
    requires capacity > 0 && Ready(s) && !Conflict(s, edit, shadowed)
    requires Safe(s, Edited(s.exprs, edit), t, shadowed)
    ensures !Leads(t, n, capacity, shadowed)
    decreases n
  {
    hide Steps, Conflict, Ready, SoundFor, EntrySafe;
    if n > 0 && Leads(t, n, capacity, shadowed) {
      var step, t' :| QuietStep(t, step, t', capacity, shadowed) && Leads(t', n - 1, capacity, shadowed);
      StepSafe(s, edit, t, step, t', capacity, shadowed);
      SafeForever(s, edit, t', n - 1, capacity, shadowed);
    }
  }

  /** Published in any state where no change is under way, an edit can do harm, before anything else is published,
      if and only if it conflicts with a batch under way or with a cached plan. */
  lemma HarmExactly(s: State, edit: Edit, capacity: nat, shadowed: set<string>)
    requires capacity > 0 && Ready(s)
    ensures CanHarm(s, edit, capacity, shadowed) <==> Conflict(s, edit, shadowed)
  {
    hide StoresWrong, LooksUpWrong, CachedWrong, Amiss, Ready, Leads;
    var now := Edited(s.exprs, edit);
    if Amiss(s, shadowed) {
      AmissHarms(s, edit, capacity, shadowed);
    } else if Conflict(s, edit, shadowed) {
      if id :| id in s.readers && StoresWrong(s.readers[id], now, shadowed) {
        StaleAfterChange(s, edit, id, capacity, shadowed);
      } else if schema, indices :| CachedWrong(s.cache, schema, indices, now, shadowed) {
        StaleBeforeClear(s, edit, schema, indices, capacity, shadowed);
      } else {
        var id :| id in s.readers && LooksUpWrong(s.readers[id], now, shadowed);
        AheadOfBatch(s, edit, id, capacity, shadowed);
      }
    } else if CanHarm(s, edit, capacity, shadowed) {
      var n :| Leads(After(s, edit), n, capacity, shadowed);
      StartSafe(s, edit, shadowed);
      SafeForever(s, edit, After(s, edit), n, capacity, shadowed);
    }
  }

  lemma PutDistinct(entries: seq<CacheEntry>, capacity: nat, key: string, plan: GroupPlan)
    requires capacity > 0 && DistinctKeys(entries)
    ensures DistinctKeys(Put(entries, capacity, key, plan))
  {
    hide DistinctKeys, Find;
    if Find(entries, key).None? {
      PlanCache.Kept(entries, capacity, key);
      Added(Room(entries, capacity), key, plan);
    }
  }

  lemma {:induction false} RunDistinct(states: seq<State>, steps: seq<Step>, capacity: nat, shadowed: set<string>,
                                       n: nat)
    requires capacity > 0 && Run(states, steps, capacity, shadowed) && n < |states|
    ensures DistinctKeys(states[n].cache)
  {
    if n > 0 {
      hide DistinctKeys, KeyOf, PlanFor, ChoicesOf;
      RunDistinct(states, steps, capacity, shadowed, n - 1);
      var s, step := states[n - 1], steps[n - 1];
      assert Steps(s, step, states[n], capacity, shadowed);
      match step
      case Store(id) =>
        PutDistinct(s.cache, capacity, KeyOf(s.readers[id].schema, s.readers[id].indices), states[n].readers[id].plan);
      case Invalidate => NoneDistinct();
      case _ =>
    }
  }

  lemma NoneDistinct()
    ensures DistinctKeys([])
  {
  }

  /** At any moment of any run when no change is under way, an edit can do harm if and only if it conflicts. */
  lemma HarmInRun(states: seq<State>, steps: seq<Step>, capacity: nat, shadowed: set<string>, n: nat, edit: Edit)
    requires capacity > 0 && Run(states, steps, capacity, shadowed) && n < |states| && states[n].writer.Unlocked?
    ensures CanHarm(states[n], edit, capacity, shadowed) <==> Conflict(states[n], edit, shadowed)
  {
    hide Steps, DistinctKeys, Conflict, CanHarm;
    RunDistinct(states, steps, capacity, shadowed, n);
    HarmExactly(states[n], edit, capacity, shadowed);
  }

  /** An orderly run comes to s, and no change is under way. */
  ghost predicate Settled(s: State, shadowed: set<string>) {
    Inv(s, shadowed) && Ready(s)
  }

  lemma OrderlySettles(states: seq<State>, steps: seq<Step>, capacity: nat, shadowed: set<string>, n: nat)
    requires capacity > 0 && Run(states, steps, capacity, shadowed) && n < |states| && states[n].writer.Unlocked?
    requires forall i :: 0 <= i < |steps| ==> Orderly(states[i], steps[i])
    ensures Settled(states[n], shadowed)
  {
    hide Inv, Steps, Orderly, DistinctKeys;
    RunKeeps(states, steps, capacity, shadowed, n);
    RunDistinct(states, steps, capacity, shadowed, n);
  }

  lemma SoundNotWrong(plan: GroupPlan, exprs: Slice, indices: seq<int>, shadowed: set<string>, i: nat)
    requires SoundFor(plan, exprs, indices, shadowed) && i < |indices|
    ensures !Wrong(Planned(plan, i), ChoiceAt(exprs, indices[i], shadowed))
  {
    hide Planned, ChoiceAt;
    assert SoundAt(plan, exprs, indices, shadowed, i);
  }

  /** After an orderly run nothing is amiss. */
  lemma SettledIsWell(s: State, shadowed: set<string>)
    requires Settled(s, shadowed)
    ensures !Amiss(s, shadowed)
  {
    hide FromPrefix, SoundFor, CacheInv, DistinctKeys, KeyOf, Find, Planned, PlanFor, ChoicesOf, TriedAt, ChoiceAt;
    forall id | id in s.readers
      ensures !HarmedReader(s.readers[id], shadowed) && !HitsWrong(s.cache, s.readers[id], shadowed)
    {
      var r := s.readers[id];
      assert ReaderInv(r, s.exprs, shadowed);
      if r.Using? {
        PrefixSound(r.plan, s.exprs, r.exprs, r.indices, shadowed);
      } else if HitsWrong(s.cache, r, shadowed) {
        var plan := Find(s.cache, KeyOf(r.schema, r.indices)).value;
        HitFromPrefix(s.cache, s.exprs, shadowed, r.schema, r.indices);
        PrefixSound(plan, s.exprs, r.exprs, r.indices, shadowed);
        var i :| 0 <= i < |r.indices| && Wrong(Planned(plan, i), ChoiceAt(r.exprs, r.indices[i], shadowed));
        SoundNotWrong(plan, r.exprs, r.indices, shadowed, i);
      }
    }
    forall id, k | id in s.readers && k in s.readers
      ensures !StoresWrongFor(s.readers[id], s.readers[k], shadowed)
    {
      var r, other := s.readers[id], s.readers[k];
      assert ReaderInv(r, s.exprs, shadowed) && ReaderInv(other, s.exprs, shadowed);
      if StoresWrongFor(r, other, shadowed) {
        var plan := PlanOf(ChoicesOf(r.exprs, r.indices, shadowed));
        FromLoaded(plan, r.exprs, s.exprs, r.indices, shadowed);
        PrefixSound(plan, s.exprs, other.exprs, r.indices, shadowed);
        var i :| 0 <= i < |r.indices|
          && Wrong(TriedAt(r.exprs, r.indices, shadowed, i), ChoiceAt(other.exprs, r.indices[i], shadowed));
        PlanTries(plan, r.exprs, r.indices, shadowed, i);
        SoundNotWrong(plan, other.exprs, r.indices, shadowed, i);
      }
    }
  }

  /** Two slices do not evaluate the expression at an index in two ways. */
  predicate Compatible(a: Slice, b: Slice, idx: int, shadowed: set<string>) {
    var c, d := ChoiceAt(a, idx, shadowed), ChoiceAt(b, idx, shadowed);
    c == d || c.Absent? || d.Absent?
  }

  lemma TriedRight(a: Slice, b: Slice, indices: seq<int>, shadowed: set<string>, i: nat)
    requires i < |indices| && Compatible(a, b, indices[i], shadowed)
    ensures !Wrong(TriedAt(a, indices, shadowed, i), ChoiceAt(b, indices[i], shadowed))
  {
  }

  lemma OlderCompatible(older: Slice, exprs: Slice, now: Slice, idx: int, shadowed: set<string>)
    requires older <= exprs && Compatible(exprs, now, idx, shadowed)
    ensures Compatible(older, now, idx, shadowed)
  {
    assert 0 <= idx < |older| ==> older[idx] == exprs[idx];
  }

  /** Only where the change leaves an expression evaluated in two ways is anything wrong. */
  lemma WrongWhereChanged(s: State, now: Slice, r: Reader, shadowed: set<string>, i: nat)
    requires ReaderInv(r, s.exprs, shadowed) && i < |r.indices| && Compatible(s.exprs, now, r.indices[i], shadowed)
    ensures !Wrong(TriedAt(r.exprs, r.indices, shadowed, i), ChoiceAt(now, r.indices[i], shadowed))
    ensures !Wrong(TriedAt(now, r.indices, shadowed, i), ChoiceAt(r.exprs, r.indices[i], shadowed))
  {
    hide ChoiceAt, TriedAt, FromPrefix;
    OlderCompatible(r.exprs, s.exprs, now, r.indices[i], shadowed);
    TriedRight(r.exprs, now, r.indices, shadowed, i);
    TriedRight(now, r.exprs, r.indices, shadowed, i);
  }

  lemma CachedWhereChanged(s: State, now: Slice, schema: string, indices: seq<int>, shadowed: set<string>, i: nat)
    requires CacheInv(s.cache, s.exprs, shadowed) && Find(s.cache, KeyOf(schema, indices)).Some?
    requires i < |indices| && Compatible(s.exprs, now, indices[i], shadowed)
    ensures !Wrong(Planned(Find(s.cache, KeyOf(schema, indices)).value, i), ChoiceAt(now, indices[i], shadowed))
  {
    hide ChoiceAt, TriedAt, PlanFor, ChoicesOf, Planned, Find, KeyOf;
    var plan := Find(s.cache, KeyOf(schema, indices)).value;
    HitFromPrefix(s.cache, s.exprs, shadowed, schema, indices);
    var older: Slice :| older <= s.exprs && PlanFor(plan, ChoicesOf(older, indices, shadowed));
    PlanTries(plan, older, indices, shadowed, i);
    OlderCompatible(older, s.exprs, now, indices[i], shadowed);
    TriedRight(older, now, indices, shadowed, i);
  }

  /** An edit that leaves nothing evaluated in two ways does not conflict: an addition, and, until something else is
      published, removing an expression or all of them. */
  lemma CompatibleHarmless(s: State, edit: Edit, capacity: nat, shadowed: set<string>)
    requires capacity > 0 && Settled(s, shadowed)
    requires forall idx :: Compatible(s.exprs, Edited(s.exprs, edit), idx, shadowed)
    ensures !CanHarm(s, edit, capacity, shadowed)
  {
    hide Compatible, TriedAt, ChoiceAt, Planned, Find, KeyOf, ReaderInv, CacheInv, CanHarm;
    var now := Edited(s.exprs, edit);
    forall id | id in s.readers
      ensures !StoresWrong(s.readers[id], now, shadowed) && !LooksUpWrong(s.readers[id], now, shadowed)
    {
      var r := s.readers[id];
      forall i | 0 <= i < |r.indices|
        ensures !Wrong(TriedAt(r.exprs, r.indices, shadowed, i), ChoiceAt(now, r.indices[i], shadowed))
        ensures !Wrong(TriedAt(now, r.indices, shadowed, i), ChoiceAt(r.exprs, r.indices[i], shadowed))
      {
        assert Compatible(s.exprs, now, r.indices[i], shadowed);
        WrongWhereChanged(s, now, r, shadowed, i);
      }
    }
    forall schema, indices
      ensures !CachedWrong(s.cache, schema, indices, now, shadowed)
    {
      if Find(s.cache, KeyOf(schema, indices)).Some? {
        forall i | 0 <= i < |indices|
          ensures !Wrong(Planned(Find(s.cache, KeyOf(schema, indices)).value, i), ChoiceAt(now, indices[i], shadowed))
        {
          assert Compatible(s.exprs, now, indices[i], shadowed);
          CachedWhereChanged(s, now, schema, indices, shadowed, i);
        }
      }
    }
    SettledIsWell(s, shadowed);
    HarmExactly(s, edit, capacity, shadowed);
  }

  lemma RemovalHarmless(s: State, edit: Edit, capacity: nat, shadowed: set<string>)
    requires capacity > 0 && Settled(s, shadowed) && (edit.Append? || edit.Clear? || edit.now.None?)
    ensures !CanHarm(s, edit, capacity, shadowed)
  {
    CompatibleHarmless(s, edit, capacity, shadowed);
  }

  /** Replacing the expression at idx conflicts with a batch that asks for idx: one that can store a plan of the old
      expression, one whose plan of it is cached, or one that can look up a plan of the new expression. */
  ghost predicate ReplaceConflict(s: State, idx: nat, now: Expression, shadowed: set<string>)
    requires idx < |s.exprs|
  {
    var c, exprs := ChoiceOf(now, shadowed), s.exprs[idx := Some(now)];
    || (exists id, i :: id in s.readers && StoresFor(s.readers[id], idx, i, c, shadowed))
    || (exists schema, indices, i :: CachedFor(s.cache, schema, indices, idx, i, c))
    || (exists id, i :: id in s.readers && LooksUpFor(s.readers[id], idx, i, exprs, shadowed))
  }

  predicate StoresFor(r: Reader, idx: nat, i: nat, c: Choice, shadowed: set<string>) {
    && Pending(r) && i < |r.indices| && r.indices[i] == idx
    && TriedAt(r.exprs, r.indices, shadowed, i) != Decode && TriedAt(r.exprs, r.indices, shadowed, i) != c
  }

  predicate CachedFor(cache: seq<CacheEntry>, schema: string, indices: seq<int>, idx: nat, i: nat, c: Choice) {
    var hit := Find(cache, KeyOf(schema, indices));
    && schema != "" && hit.Some? && i < |indices| && indices[i] == idx
    && Planned(hit.value, i) != Decode && Planned(hit.value, i) != c
  }

  predicate LooksUpFor(r: Reader, idx: nat, i: nat, now: Slice, shadowed: set<string>) {
    && r.Loaded? && r.schema != "" && i < |r.indices| && r.indices[i] == idx
    && !ChoiceAt(r.exprs, idx, shadowed).Absent?
    && TriedAt(now, r.indices, shadowed, i) != Decode
    && TriedAt(now, r.indices, shadowed, i) != ChoiceAt(r.exprs, idx, shadowed)
  }

  lemma ElsewhereCompatible(exprs: Slice, idx: nat, now: Expression, j: int, shadowed: set<string>)
    requires idx < |exprs|
    ensures j != idx ==> Compatible(exprs, exprs[idx := Some(now)], j, shadowed)
    ensures ChoiceAt(exprs[idx := Some(now)], idx, shadowed) == ChoiceOf(now, shadowed) != Absent
  {
  }

  /** Exactly when replacing an expression can harm a batch. */
  lemma ReplaceHarms(s: State, idx: nat, now: Expression, capacity: nat, shadowed: set<string>)
    requires capacity > 0 && Settled(s, shadowed) && idx < |s.exprs|
    ensures CanHarm(s, Change(idx, Some(now)), capacity, shadowed) <==> ReplaceConflict(s, idx, now, shadowed)
  {
    hide Compatible, TriedAt, ChoiceAt, ChoiceOf, Planned, Find, KeyOf, ReaderInv, CacheInv, CanHarm;
    var exprs, c := s.exprs[idx := Some(now)], ChoiceOf(now, shadowed);
    ElsewhereCompatible(s.exprs, idx, now, idx, shadowed);
    forall id | id in s.readers
      ensures StoresWrong(s.readers[id], exprs, shadowed) <==> exists i :: StoresFor(s.readers[id], idx, i, c, shadowed)
      ensures LooksUpWrong(s.readers[id], exprs, shadowed) <==>
              exists i :: LooksUpFor(s.readers[id], idx, i, exprs, shadowed)
    {
      ReaderWrongAt(s, s.readers[id], idx, now, shadowed);
    }
    forall schema, indices
      ensures CachedWrong(s.cache, schema, indices, exprs, shadowed) <==>
              exists i :: CachedFor(s.cache, schema, indices, idx, i, c)
    {
      CachedWrongAt(s, schema, indices, idx, now, shadowed);
    }
    hide StoresWrong, LooksUpWrong, CachedWrong, StoresFor, LooksUpFor, CachedFor, Amiss;
    SettledIsWell(s, shadowed);
    if Conflict(s, Change(idx, Some(now)), shadowed) {
      if id :| id in s.readers && StoresWrong(s.readers[id], exprs, shadowed) {
        var i :| StoresFor(s.readers[id], idx, i, c, shadowed);
      } else if schema, indices :| CachedWrong(s.cache, schema, indices, exprs, shadowed) {
        var i :| CachedFor(s.cache, schema, indices, idx, i, c);
      } else {
        var id :| id in s.readers && LooksUpWrong(s.readers[id], exprs, shadowed);
        var i :| LooksUpFor(s.readers[id], idx, i, exprs, shadowed);
      }
      assert ReplaceConflict(s, idx, now, shadowed);
    }
    if ReplaceConflict(s, idx, now, shadowed) {
      if id, i :| id in s.readers && StoresFor(s.readers[id], idx, i, c, shadowed) {
        assert StoresWrong(s.readers[id], exprs, shadowed);
      } else if schema, indices, i :| CachedFor(s.cache, schema, indices, idx, i, c) {
        assert CachedWrong(s.cache, schema, indices, exprs, shadowed);
      } else {
        var id, i :| id in s.readers && LooksUpFor(s.readers[id], idx, i, exprs, shadowed);
        assert LooksUpWrong(s.readers[id], exprs, shadowed);
      }
      assert Conflict(s, Change(idx, Some(now)), shadowed);
    }
    HarmExactly(s, Change(idx, Some(now)), capacity, shadowed);
  }

  lemma ReaderWrongAt(s: State, r: Reader, idx: nat, now: Expression, shadowed: set<string>)
    requires idx < |s.exprs| && ReaderInv(r, s.exprs, shadowed)
    ensures var exprs := s.exprs[idx := Some(now)];
            && (StoresWrong(r, exprs, shadowed) <==>
                exists i :: StoresFor(r, idx, i, ChoiceOf(now, shadowed), shadowed))
            && (LooksUpWrong(r, exprs, shadowed) <==> exists i :: LooksUpFor(r, idx, i, exprs, shadowed))
  {
    hide Compatible, TriedAt, ChoiceAt, ChoiceOf, ReaderInv;
    var exprs := s.exprs[idx := Some(now)];
    ElsewhereCompatible(s.exprs, idx, now, idx, shadowed);
    forall i: nat | i < |r.indices|
      ensures Wrong(TriedAt(r.exprs, r.indices, shadowed, i), ChoiceAt(exprs, r.indices[i], shadowed)) ==>
                r.indices[i] == idx
      ensures Wrong(TriedAt(exprs, r.indices, shadowed, i), ChoiceAt(r.exprs, r.indices[i], shadowed)) ==>
                r.indices[i] == idx
    {
      if r.indices[i] != idx {
        ElsewhereCompatible(s.exprs, idx, now, r.indices[i], shadowed);
        WrongWhereChanged(s, exprs, r, shadowed, i);
      }
    }
    if i: nat :| StoresFor(r, idx, i, ChoiceOf(now, shadowed), shadowed) {
      assert Wrong(TriedAt(r.exprs, r.indices, shadowed, i), ChoiceAt(exprs, r.indices[i], shadowed));
    }
    if i: nat :| LooksUpFor(r, idx, i, exprs, shadowed) {
      assert Wrong(TriedAt(exprs, r.indices, shadowed, i), ChoiceAt(r.exprs, r.indices[i], shadowed));
    }
    if StoresWrong(r, exprs, shadowed) {
      var i :| 0 <= i < |r.indices|
        && Wrong(TriedAt(r.exprs, r.indices, shadowed, i), ChoiceAt(exprs, r.indices[i], shadowed));
      assert StoresFor(r, idx, i, ChoiceOf(now, shadowed), shadowed);
    }
    if LooksUpWrong(r, exprs, shadowed) {
      var i :| 0 <= i < |r.indices|
        && Wrong(TriedAt(exprs, r.indices, shadowed, i), ChoiceAt(r.exprs, r.indices[i], shadowed));
      assert LooksUpFor(r, idx, i, exprs, shadowed);
    }
  }

  lemma CachedWrongAt(s: State, schema: string, indices: seq<int>, idx: nat, now: Expression, shadowed: set<string>)
    requires idx < |s.exprs| && CacheInv(s.cache, s.exprs, shadowed)
    ensures CachedWrong(s.cache, schema, indices, s.exprs[idx := Some(now)], shadowed) <==>
            exists i :: CachedFor(s.cache, schema, indices, idx, i, ChoiceOf(now, shadowed))
  {
    hide Compatible, ChoiceAt, ChoiceOf, Planned, Find, KeyOf, CacheInv;
    var exprs, c := s.exprs[idx := Some(now)], ChoiceOf(now, shadowed);
    var hit := Find(s.cache, KeyOf(schema, indices));
    ElsewhereCompatible(s.exprs, idx, now, idx, shadowed);
    if CachedWrong(s.cache, schema, indices, exprs, shadowed) {
      var i :| 0 <= i < |indices| && Wrong(Planned(hit.value, i), ChoiceAt(exprs, indices[i], shadowed));
      if indices[i] != idx {
        ElsewhereCompatible(s.exprs, idx, now, indices[i], shadowed);
        CachedWhereChanged(s, exprs, schema, indices, shadowed, i);
      }
      assert CachedFor(s.cache, schema, indices, idx, i, c);
    }
    if i: nat :| CachedFor(s.cache, schema, indices, idx, i, c) {
      assert Wrong(Planned(hit.value, i), ChoiceAt(exprs, indices[i], shadowed));
    }
  }

  function PathExpression(path: string): Expression {
    Expression(true, [path], None, None, None)
  }

  /** Such a change exists: while a batch that asks for the path a is about to store its plan, a becomes b. */
  lemma ReplaceCanHarm() returns (states: seq<State>, steps: seq<Step>)
    ensures Run(states, steps, 1, {}) && |steps| == 2 && forall i :: 0 <= i < |steps| ==> Orderly(states[i], steps[i])
    ensures CanHarm(states[2], Change(0, Some(PathExpression("b"))), 1, {})
  {
    hide KeyOf, CanHarm;
    var a := [Some(PathExpression("a"))];
    steps := [Load(0, "s", [0]), LookUp(0)];
    states := [State(a, [], Unlocked, map[]),
               State(a, [], Unlocked, map[0 := Loaded(a, "s", [0])]),
               State(a, [], Unlocked, map[0 := Missed(a, "s", [0])])];
    assert TriedAt(a, [0], {}, 0) == Pure("a");
    StaleAfterChange(states[2], Change(0, Some(PathExpression("b"))), 0, 1, {});
  }
}
