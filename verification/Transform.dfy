/** The document a transform changes: its updates are merged into objects of a clone without
    making the clone contain itself. */
module Transform {
  import opened Wrappers
  import opened Trees
  import opened ObjectGraph
  import opened Detach
  import opened TreeSearch
  import opened Merging
  import opened Fields

  /** A search for the target keeps what it may skip from leading to the target. */
  ghost predicate Safe(h: Heap, s: Search, v: Value) {
    s.Target? ==> LeafSafe(h, s, v)
  }

  ghost predicate AllSafe(h: Heap, s: Search, stack: seq<Cursor>) {
    forall j :: 0 <= j < |stack| ==> Safe(h, s, Ref(stack[j].id))
  }

  lemma ChildSafe(h: Heap, s: Search, stack: seq<Cursor>)
    requires AllSafe(h, s, stack) && stack != [] && stack[|stack| - 1].index < |KidsAt(h, stack[|stack| - 1])|
    ensures Safe(h, s, KidsAt(h, stack[|stack| - 1])[stack[|stack| - 1].index])
  {
    hide Reaches;
    var top := stack[|stack| - 1];
    assert Safe(h, s, Ref(top.id));
    if s.Target? {
      LeafSafeChild(h, s, Ref(top.id), top.index);
    }
  }

  /** The search is over: every container open holds the match. */
  lemma FoundUnder(h: Heap, rank: map<Id, nat>, s: Search, stack: seq<Cursor>)
    requires Chain(h, rank, stack) && stack != [] && stack[|stack| - 1].index < |KidsAt(h, stack[|stack| - 1])|
    requires Answer(h, s, KidsAt(h, stack[|stack| - 1])[stack[|stack| - 1].index])
    ensures forall j :: 0 <= j < |stack| ==> Answer(h, s, Ref(stack[j].id))
  {
    hide Answer;
    var top := stack[|stack| - 1];
    AnswerChild(h, s, Ref(top.id), top.index);
    forall j | 0 <= j < |stack|
      ensures Answer(h, s, Ref(stack[j].id))
    {
      AllHold(h, rank, s, stack, j);
    }
  }

  /** What a clause evaluates to, perhaps nothing, and memory with what it put there; or its error. */
  datatype Evaluation = Evaluated(heap: Heap, next: Id, value: Option<Value>) | Failed(error: Error)

  datatype Error = EvalError(code: string) | UpdateError | DeleteError

  /** A clause, evaluated in a memory, where an id is next, with an object as its context. */
  type Clause = (Heap, Id, Id) -> Evaluation

  /** An update clause, and a delete clause. */
  datatype Clauses = Clauses(update: Option<Clause>, delete: Option<Clause>)

  ghost predicate Bounded(h: Heap, next: Id) {
    forall id :: id in h ==> id < next
  }

  /** The clone's objects that v holds are target and those target holds. */
  ghost predicate HoldsUnder(h: Heap, owned: set<Id>, target: Id, v: Value) {
    forall o :: o in owned && Reaches(h, v, o) ==> Reaches(h, Ref(target), o)
  }

  /** Evaluation changes no object that is in memory and makes none that holds itself; with ownedLeaf,
      what it gives holds no object of the clone but its context's. */
  ghost predicate Sound(clause: Clause, owned: set<Id>, ownedLeaf: bool) {
    forall h: Heap, next: Id, focus: Id :: SoundAt(clause, owned, ownedLeaf, h, next, focus)
  }

  ghost predicate SoundAt(clause: Clause, owned: set<Id>, ownedLeaf: bool, h: Heap, next: Id, focus: Id) {
    var r := clause(h, next, focus);
    Acyclic(h) && Bounded(h, next) && focus in h && r.Evaluated? ==>
      && Extends(h, r.heap) && Acyclic(r.heap) && Bounded(r.heap, r.next)
      && (r.value.Some? ==> IsIn(r.heap, r.value.value))
      && (r.value.Some? && ownedLeaf ==> HoldsUnder(r.heap, owned, focus, r.value.value))
  }

  ghost predicate SoundClauses(clauses: Clauses, owned: set<Id>, ownedLeaf: bool) {
    && (clauses.update.Some? ==> Sound(clauses.update.value, owned, ownedLeaf))
    && (clauses.delete.Some? ==> Sound(clauses.delete.value, owned, ownedLeaf))
  }

  /** What a value stands for in memory where none holds itself. */
  ghost function Meaning(h: Heap, v: Value): Tree
    requires Acyclic(h) && IsIn(h, v)
  {
    var rank :| Ranked(h, rank);
    Unfold(h, rank, v)
  }

  lemma MeaningIs(h: Heap, rank: map<Id, nat>, v: Value)
    requires Ranked(h, rank) && IsIn(h, v)
    ensures Acyclic(h) && Meaning(h, v) == Unfold(h, rank, v)
  {
    var other :| Ranked(h, other) && Meaning(h, v) == Unfold(h, other, v);
    UnfoldMore(h, other, h, rank, v);
  }

  predicate IsNull(v: Option<Value>) {
    v.None? || v.value == Leaf(NullTree)
  }

  /** The error of an update clause, which must give an object, null or nothing. */
  function UpdateFails(r: Evaluation): Option<Error> {
    match r
    case Failed(error) => Some(error)
    case Evaluated(h, _, v) => if IsNull(v) || IsObject(h, v.value) then None else Some(UpdateError)
  }

  /** The keys a delete clause gives: a string's, those of an array of strings, or none. */
  function DeleteKeys(h: Heap, v: Option<Value>): Result<seq<string>, Error> {
    if IsNull(v) then Ok([])
    else match v.value
      case Leaf(StrTree(s)) => Ok([s])
      case Leaf(_) => Err(DeleteError)
      case Ref(id) => if IsArray(h, v.value) then KeysOf(h[id].items) else Err(DeleteError)
  }

  function KeysOf(items: seq<Value>): Result<seq<string>, Error> {
    if items == [] then Ok([])
    else if items[0].Leaf? && items[0].scalar.StrTree? then
      match KeysOf(items[1..])
      case Ok(keys) => Ok([items[0].scalar.s] + keys)
      case Err(e) => Err(e)
    else Err(DeleteError)
  }

  function DeleteFails(r: Evaluation): Option<Error> {
    match r
    case Failed(error) => Some(error)
    case Evaluated(h, _, v) => (match DeleteKeys(h, v) case Ok(_) => None case Err(e) => Some(e))
  }

  /** The fields of an object of the clone once an update is merged. */
  ghost function UpdatedFields(h: Heap, r: Evaluation, target: Id): seq<Field>
    requires Acyclic(h) && target in h && r.Evaluated? && Acyclic(r.heap)
             && (r.value.Some? ==> IsIn(r.heap, r.value.value))
  {
    var was := Meaning(h, Ref(target));
    if !was.ObjTree? then []
    else if IsNull(r.value) then was.fields
    else
      var given := Meaning(r.heap, r.value.value);
      if given.ObjTree? then SetFields(was.fields, given.fields) else was.fields
  }

  ghost function DeletedFields(h: Heap, r: Evaluation, target: Id): seq<Field>
    requires Acyclic(h) && target in h && r.Evaluated? && DeleteFails(r).None?
  {
    var was := Meaning(h, Ref(target));
    if was.ObjTree? then DropFields(was.fields, DeleteKeys(r.heap, r.value).value) else []
  }

  datatype Memory = Memory(heap: Heap, next: Id)

  /** What an object becomes: an object that the clause gives is merged into it, null or nothing leaves it as it is,
      and anything else is an error. */
  ghost predicate UpdateDone(was: Tree, r: Evaluation, err: Option<Error>, now: Tree)
    requires r.Evaluated? ==> Acyclic(r.heap) && (r.value.Some? ==> IsIn(r.heap, r.value.value))
  {
    match r
    case Failed(error) => err == Some(error)
    case Evaluated(_, _, None) => err == None && now == was
    case Evaluated(_, _, Some(Leaf(t))) => if t.NullTree? then err == None && now == was else err == Some(UpdateError)
    case Evaluated(h, _, Some(Ref(id))) =>
      if h[id].ArrNode? then err == Some(UpdateError)
      else
        var given := Meaning(h, Ref(id));
        && err == None && was.ObjTree? && given.ObjTree? && now.ObjTree?
        && IsMerged(was.fields, given.fields, now.fields)
  }

  /** The keys named are those of some values, which are all strings. */
  predicate Names(items: seq<Value>, keys: seq<string>) {
    |items| == |keys| && forall i :: 0 <= i < |items| ==> items[i] == Leaf(StrTree(keys[i]))
  }

  /** What an object becomes: without the key a string names, or those that an array of strings does; null or nothing
      leaves it as it is, and anything else is an error. */
  ghost predicate DeleteDone(was: Tree, r: Evaluation, err: Option<Error>, now: Tree) {
    match r
    case Failed(error) => err == Some(error)
    case Evaluated(_, _, None) => err == None && now == was
    case Evaluated(_, _, Some(Leaf(t))) =>
      if t.NullTree? then err == None && now == was
      else if t.StrTree? then err == None && was.ObjTree? && now.ObjTree? && IsWithout(was.fields, [t.s], now.fields)
      else err == Some(DeleteError)
    case Evaluated(h, _, Some(Ref(id))) =>
      if id in h && h[id].ArrNode? && exists keys :: Names(h[id].items, keys) then
        && err == None && was.ObjTree? && now.ObjTree?
        && exists keys :: Names(h[id].items, keys) && IsWithout(was.fields, keys, now.fields)
      else err == Some(DeleteError)
  }

  lemma {:induction false} KeysNamed(items: seq<Value>)
    ensures KeysOf(items).Ok? ==> Names(items, KeysOf(items).value)
    ensures KeysOf(items).Err? ==> KeysOf(items) == Err(DeleteError) && forall keys :: !Names(items, keys)
  {
    if items != [] {
      KeysNamed(items[1..]);
      forall keys | Names(items, keys)
        ensures items[0].Leaf? && items[0].scalar.StrTree? && Names(items[1..], keys[1..])
      {
      }
    }
  }

  lemma DeleteIsDone(h: Heap, r: Evaluation, target: Id, now: Tree)
    requires Acyclic(h) && target in h && Meaning(h, Ref(target)).ObjTree?
    requires DeleteFails(r).None? ==> now == ObjTree(DeletedFields(h, r, target))
    ensures DeleteDone(Meaning(h, Ref(target)), r, DeleteFails(r), now)
  {
    hide IsWithout, Names;
    var was := Meaning(h, Ref(target));
    if DeleteFails(r).None? {
      DroppingLeaves(was.fields, DeleteKeys(r.heap, r.value).value);
    }
    if r.Evaluated? && r.value.Some? && r.value.value.Ref? && IsArray(r.heap, r.value.value) {
      KeysNamed(r.heap[r.value.value.id].items);
    }
  }

  /** The update clause, if there is one, is merged into the target. */
  ghost predicate UpdateStep(clause: Option<Clause>, target: Id, a: Memory, b: Memory) {
    if clause.None? then b == a
    else
      && Acyclic(a.heap) && Acyclic(b.heap) && target in a.heap && target in b.heap
      && var r := clause.value(a.heap, a.next, target);
      && UpdateFails(r).None? && Acyclic(r.heap) && (r.value.Some? ==> IsIn(r.heap, r.value.value))
      && Meaning(b.heap, Ref(target)) == ObjTree(UpdatedFields(a.heap, r, target))
      && UpdateDone(Meaning(a.heap, Ref(target)), r, None, Meaning(b.heap, Ref(target)))
  }

  /** The keys of the delete clause, if there is one, are deleted from the target. */
  ghost predicate DeleteStep(clause: Option<Clause>, target: Id, a: Memory, b: Memory) {
    if clause.None? then b == a
    else
      && Acyclic(a.heap) && Acyclic(b.heap) && target in a.heap && target in b.heap
      && var r := clause.value(a.heap, a.next, target);
      && DeleteFails(r).None?
      && Meaning(b.heap, Ref(target)) == ObjTree(DeletedFields(a.heap, r, target))
      && DeleteDone(Meaning(a.heap, Ref(target)), r, None, Meaning(b.heap, Ref(target)))
  }

  /** A target is updated, then keys are deleted from it; an object that is not the clone's is not changed. */
  ghost predicate TargetStep(clauses: Clauses, owned: set<Id>, target: Id, a: Memory, b: Memory) {
    if target in owned then
      exists mid :: UpdateStep(clauses.update, target, a, mid) && DeleteStep(clauses.delete, target, mid, b)
    else Extends(a.heap, b.heap)
  }

  /** No object of the clone that the context of an update holds leads back to it. */
  lemma UpdateSafe(h: Heap, rank: map<Id, nat>, owned: set<Id>, target: Id, ownedLeaf: bool, v: Value)
    requires Ranked(h, rank) && target in h && target in owned && (ownedLeaf ==> HoldsUnder(h, owned, target, v))
    ensures LeafSafe(h, Target(owned, target, ownedLeaf), v)
  {
    hide Reaches;
    forall o | o in owned && o != target && Reaches(h, v, o) && ownedLeaf
      ensures !Reaches(h, Ref(o), target)
    {
      ReachesLower(h, rank, Ref(target), o);
      if Reaches(h, Ref(o), target) {
        ReachesLower(h, rank, Ref(o), target);
      }
    }
  }

  class TransformClone {
    /** The clone's objects, which alone the transform changes. */
    const owned: set<Id>
    /** An update holds no object of the clone that leads back to the target. */
    const ownedLeaf: bool
    /** Which containers are worth memoizing. */
    const worth: Node -> bool
    var heap: Heap
    var next: Id
    var leadsIn: map<Id, bool>
    // Of the update being detached: which containers reach the target, and the copies made.
    var reaches: map<Id, bool>
    var copies: map<Id, Id>
    ghost var rank: map<Id, nat>

    ghost predicate Objects()
      reads this
    {
      forall o :: o in owned ==> o in heap && heap[o].ObjNode?
    }

    /** No value contains itself, and the memo says which containers lead to the clone. */
    ghost predicate Valid()
      reads this
    {
      && Ranked(heap, rank) && Objects() && (forall id :: id in heap ==> id < next)
      && Memo(heap, Members(owned), leadsIn)
    }

    constructor (heap: Heap, next: Id, owned: set<Id>, ownedLeaf: bool, worth: Node -> bool, ghost rank: map<Id, nat>)
      requires Ranked(heap, rank) && (forall id :: id in heap ==> id < next)
      requires forall o :: o in owned ==> o in heap && heap[o].ObjNode?
      ensures Valid() && this.heap == heap && this.owned == owned && this.ownedLeaf == ownedLeaf
    {
      this.owned, this.ownedLeaf, this.worth := owned, ownedLeaf, worth;
      this.heap := heap;
      this.next := next;
      this.rank := rank;
      leadsIn, reaches, copies := map[], map[], map[];
    }

    ghost predicate Fits(s: Search, v: Value)
      reads this
    {
      IsIn(heap, v) && s.owned == owned && (s.Target? ==> s.ownedLeaf == ownedLeaf) && Safe(heap, s, v)
    }

    /** Decides v itself, and leaves its children to the caller: found if it is sought, open if they remain. */
    method Visit(s: Search, v: Value) returns (found: bool, open: bool)
      requires Valid() && Fits(s, v)
      modifies this`leadsIn
      ensures Valid() && (s.Members? ==> leadsIn == old(leadsIn))
      ensures found ==> Answer(heap, s, v)
      ensures !found && !open ==> !Answer(heap, s, v)
      ensures open ==> !found && v.Ref? && !IsMatch(s, v)
      decreases if s.Members? then 0 else 1, 0
    {
      hide LeadsIn, Reaches, LeafSafe, Ranked;
      AnswerHere(heap, s, v);
      match s
      case Members(_) =>
        found := v.Ref? && v.id in owned;
        open := v.Ref? && !found;
      case Target(_, target, _) =>
        if v == Ref(target) {
          return true, false;
        }
        LeafSafeMeans(heap, rank, s, v);
        if ownedLeaf && v.Ref? && v.id in owned {
          return false, false;
        }
        open := LeadsToMember(v);
        found := false;
    }

    /** Decides whether a member is reachable from v. */
    method LeadsToMember(v: Value) returns (r: bool)
      requires Valid() && IsIn(heap, v)
      modifies this`leadsIn
      ensures Valid() && r == LeadsIn(heap, owned, v) && (r ==> v.Ref?)
      decreases 0, 3
    {
      LeadsInChild(heap, owned, v);
      r, leadsIn := SearchTree(Members(owned), v, leadsIn);
    }

    /** Whether v is a match, or is known to lead to one, or else whether to push it on the stack. */
    method Open(s: Search, v: Value, memo: map<Id, bool>) returns (found: bool, push: bool)
      requires Valid() && Fits(s, v) && Memo(heap, s, memo)
      modifies this`leadsIn
      ensures Valid() && (s.Members? ==> leadsIn == old(leadsIn))
      ensures found ==> Answer(heap, s, v)
      ensures !found && !push ==> !Answer(heap, s, v)
      ensures push ==> !found && v.Ref? && !IsMatch(s, v)
      decreases if s.Members? then 0 else 1, 1
    {
      hide LeadsIn, Reaches, LeafSafe, Ranked, Answer;
      found, push := Visit(s, v);
      if push && worth(heap[v.id]) && v.id in memo {
        found, push := memo[v.id], false;
      }
    }

    /** Whether there is a match under v. */
    method SearchTree(s: Search, v: Value, memo: map<Id, bool>) returns (found: bool, after: map<Id, bool>)
      requires Valid() && Fits(s, v) && Memo(heap, s, memo)
      modifies this`leadsIn
      ensures Valid() && (s.Members? ==> leadsIn == old(leadsIn))
      ensures found == Answer(heap, s, v) && Memo(heap, s, after)
      decreases if s.Members? then 0 else 1, 2
    {
      hide Ranked, Answer, Left, Searching, Safe, Chain;
      var path := new ValuePath();
      after := memo;
      var push;
      found, push := Open(s, v, after);
      if !push {
        return;
      }
      var entered := path.Enter(v.id);
      var stack := [Cursor(v.id, 0, [])];
      Started(heap, rank, s, v);
      assert path.path == [v.id];
      while stack != []
        invariant path.Valid() && fresh(path) && Valid() && Memo(heap, s, after)
        invariant Chain(heap, rank, stack) && Searching(heap, rank, s, v, stack, path.path)
        invariant s.Members? ==> leadsIn == old(leadsIn)
        decreases Left(heap, rank, stack), |stack|
      {
        var top := stack[|stack| - 1];
        AtTop(heap, rank, s, v, stack, path.path);
        var kids := Children(heap[top.id]);
        if top.index == |kids| {
          StepOut(heap, rank, s, v, stack, path.path);
          if worth(heap[top.id]) {
            MemoAdd(heap, s, after, top.id, false);
            after := after[top.id := false];
          }
          path.Leave(top.id);
          stack := Pop(stack);
          continue;
        }
        var child := kids[top.index];
        found, push := Open(s, child, after);
        if found {
          StepFound(heap, rank, s, v, stack, path.path);
          after := RecordAll(heap, rank, s, stack, worth, after);
          return;
        }
        if push {
          // A container open on the path would be skipped; none holds itself.
          StepIn(heap, rank, s, v, stack, path.path, child.id);
          entered := path.Enter(child.id);
          stack := Advance(stack) + [Cursor(child.id, 0, [])];
        } else {
          StepOn(heap, rank, s, v, stack, path.path);
          stack := Advance(stack);
        }
      }
      AtTop(heap, rank, s, v, stack, path.path);
      found := false;
    }

    /** Decides reachability. */
    method Reach(v: Value, target: Id) returns (r: bool)
      requires Valid() && Fits(Seeks(target), v) && Memo(heap, Seeks(target), reaches)
      modifies this`leadsIn, this`reaches
      ensures Valid() && Memo(heap, Seeks(target), reaches) && r == Reaches(heap, v, target)
    {
      r, reaches := SearchTree(Seeks(target), v, reaches);
    }

    /** The search for target. */
    function Seeks(target: Id): Search {
      Target(owned, target, ownedLeaf)
    }

    /** Copies so far of what was in memory at h, whose ranks were ranks. */
    ghost predicate Copying(h: Heap, ranks: map<Id, nat>, target: Id)
      reads this
    {
      && Valid() && Ranked(h, ranks) && target in owned && target in h && Extends(h, heap)
      && Copies(h, heap, target, copies) && Memo(heap, Seeks(target), reaches)
      && (forall id :: id in h ==> rank[id] == ranks[id])
      && (forall id :: id in copies ==> rank[copies[id]] == ranks[id])
      && (forall o :: o in owned ==> o in h)
    }

    /** Puts a copy of id in memory. */
    method Alloc(node: Node, id: Id, ghost h: Heap, ghost ranks: map<Id, nat>, target: Id) returns (c: Id)
      requires Copying(h, ranks, target) && id in h && id !in copies && Reaches(h, Ref(id), target)
      requires CopyOf(h, heap[next := node], target, copies[id := next], id)
      modifies this
      ensures Copying(h, ranks, target) && copies == old(copies)[id := c]
    {
      hide CopyOf, Reaches, Ranked, Mapped, Answer;
      c := next;
      RankedIsClosed(heap, rank);
      RankedIsClosed(h, ranks);
      ghost var more := heap[c := node];
      Grown(h, heap, more, target, copies, id, c);
      CopyRanked(h, ranks, heap, rank, target, copies, id, c, node);
      MemoGrown(heap, more, Members(owned), leadsIn);
      MemoGrown(heap, more, Seeks(target), reaches);
      next := next + 1;
      rank := rank[c := ranks[id]];
      heap := heap[c := node];
      copies := copies[id := c];
    }

    /** Starts the copy of v, finished already unless push: its children are then to follow. */
    method OpenCopy(v: Value, ghost h: Heap, ghost ranks: map<Id, nat>, target: Id) returns (y: Value, push: bool)
      requires Copying(h, ranks, target) && IsIn(h, v) && LeafSafe(h, Seeks(target), v)
      modifies this
      ensures Copying(h, ranks, target)
      ensures MoreBy(old(copies), copies, target)
      ensures if push then v.Ref? && v.id != target && v.id !in copies
              && Reaches(h, v, target) else Mapped(h, target, copies, v, y)
    {
      hide CopyOf, Reaches, Ranked, LeafSafe, Answer;
      RankedIsClosed(h, ranks);
      LeafSafeMore(h, heap, Seeks(target), v);
      ReachesMore(h, heap, v, target);
      var reached := Reach(v, target);
      if !reached {
        return v, false;
      }
      LeafReaches(h, v, target);
      if v.id in copies {
        return Ref(copies[v.id]), false;
      }
      if v.id != target {
        return v, true;
      }
      TargetCopied(h, heap, target, copies, next);
      var c := Alloc(heap[target], target, h, ranks, target);
      return Ref(c), false;
    }

    /** A value that stands for v and reaches the target nowhere. */
    method Copy(v: Value, ghost h: Heap, ghost ranks: map<Id, nat>, target: Id) returns (y: Value)
      requires Copying(h, ranks, target) && IsIn(h, v) && LeafSafe(h, Seeks(target), v)
      modifies this
      ensures Copying(h, ranks, target) && Mapped(h, target, copies, v, y)
    {
      hide Copies, CopyOf, Reaches, Ranked, LeafSafe, Answer, Memo, Mapped, CopyWalk, Left, Chain;
      var push;
      y, push := OpenCopy(v, h, ranks, target);
      if !push {
        return;
      }
      var stack := [Cursor(v.id, 0, [])];
      CopyBegun(h, ranks, Seeks(target), copies, v);
      while true
        invariant Copying(h, ranks, target) && stack != []
        invariant Chain(h, ranks, stack) && CopyWalk(h, ranks, Seeks(target), copies, v, stack)
        decreases Left(h, ranks, stack), |stack|
      {
        var top := stack[|stack| - 1];
        CopyTop(h, ranks, Seeks(target), copies, v, stack);
        var kids := Children(heap[top.id]);
        if top.index < |kids| {
          ghost var before := copies;
          y, push := OpenCopy(kids[top.index], h, ranks, target);
          CopyMore(h, ranks, Seeks(target), before, copies, v, stack);
          if push {
            CopyIn(h, ranks, Seeks(target), copies, v, stack, kids[top.index].id);
            stack := Advance(stack) + [Cursor(kids[top.index].id, 0, [])];
          } else {
            CopyOn(h, ranks, Seeks(target), copies, v, stack, y);
            stack := AddTop(Advance(stack), y);
          }
          continue;
        }
        var node := Rebuilt(heap[top.id], top.out);
        CopyWhole(h, ranks, heap, Seeks(target), copies, v, stack, next);
        ghost var before := copies;
        var c := Alloc(node, top.id, h, ranks, target);
        CopyOut(h, ranks, Seeks(target), before, copies, v, stack, c);
        stack := Pop(stack);
        if stack == [] {
          return Ref(c);
        }
        stack := AddTop(stack, Ref(c));
      }
    }

    /** A value that stands for the update and can be stored in the target without a cycle. */
    method DetachUpdate(update: Value, target: Id) returns (y: Value)
      requires Valid() && IsIn(heap, update) && target in owned && LeafSafe(heap, Seeks(target), update)
      modifies this
      ensures Valid() && Extends(old(heap), heap) && IsIn(heap, y) && !Reaches(heap, y, target)
      ensures Unfold(heap, rank, y) == Unfold(old(heap), old(rank), update)
      ensures !Reaches(old(heap), update, target) ==> y == update && heap == old(heap)
      ensures IsObject(old(heap), update) ==> IsObject(heap, y)
    {
      hide Reaches, Ranked, LeafSafe, Unfold, Memo;
      reaches := map[];
      NoMemo(heap, Seeks(target));
      var r := Reach(update, target);
      if !r {
        return update;
      }
      copies := map[];
      ghost var h, ranks := heap, rank;
      NoCopies(h, target);
      y := Copy(update, h, ranks, target);
      Detached(h, ranks, heap, rank, target, copies, update, y);
    }

    /** Sets the update's entries in the target: the clone still does not hold itself. */
    method Merge(update: Id, target: Id)
      requires Valid() && update in heap && heap[update].ObjNode? && target in owned
               && LeafSafe(heap, Seeks(target), Ref(update))
      modifies this
      ensures Valid() && forall id :: id in old(heap) && id != target ==> id in heap && heap[id] == old(heap)[id]
      ensures var was, given := Unfold(old(heap), old(rank), Ref(target)), Unfold(old(heap), old(rank), Ref(update));
              && was.ObjTree? && given.ObjTree?
              && Unfold(heap, rank, Ref(target)) == ObjTree(SetFields(was.fields, given.fields))
              && IsMerged(was.fields, given.fields, Unfold(heap, rank, Ref(target)).fields)
      ensures Others(old(heap), old(rank), heap, rank, target)
    {
      hide Reaches, Ranked, LeafSafe, Unfold, Memo, FieldsOf, Clear, AllIn;
      var y := DetachUpdate(Ref(update), target);
      ghost var h, ranks, memo, after := heap, rank, leadsIn, next;
      RankedIsClosed(h, ranks);
      RankedIsClosed(old(heap), old(rank));
      var more := heap[y.id].entries;
      ghost var was := heap[target].entries;
      assert h[target := ObjNode(SetAll(was, []))] == h;
      for i := 0 to |more|
        invariant heap == h[target := ObjNode(SetAll(was, more[..i]))]
        invariant rank == ranks && leadsIn == memo && next == after
      {
        assert more[..i + 1][..i] == more[..i];
        SetAllLast(was, more[..i + 1]);
        heap := heap[target := ObjNode(SetEntry(heap[target].entries, more[i].key, more[i].value))];
      }
      assert more[..|more|] == more;
      Updated(old(heap), old(rank), h, ranks, target, update, y.id);
      SettingMerges(Unfold(old(heap), old(rank), Ref(target)).fields, Unfold(old(heap), old(rank), Ref(update)).fields);
      MemoKept(h, owned, target, heap[target], leadsIn);
      rank := Raised(h, ranks, target);
    }

    /** Deletes keys of the target. */
    method Remove(keys: seq<string>, target: Id)
      requires Valid() && target in owned
      modifies this
      ensures Valid() && heap == old(heap)[target := heap[target]]
      ensures var was := Unfold(old(heap), old(rank), Ref(target));
              && was.ObjTree? && Unfold(heap, rank, Ref(target)) == ObjTree(DropFields(was.fields, keys))
              && IsWithout(was.fields, keys, Unfold(heap, rank, Ref(target)).fields)
      ensures Others(old(heap), old(rank), heap, rank, target)
    {
      hide Reaches, Ranked, Unfold, Memo, FieldsOf, Clear, AllIn;
      ghost var h, ranks := heap, rank;
      ghost var was := heap[target].entries;
      RankedIsClosed(h, ranks);
      assert h[target := ObjNode(WithoutAll(was, []))] == h;
      for i := 0 to |keys|
        invariant heap == h[target := ObjNode(WithoutAll(was, keys[..i]))]
        invariant rank == ranks && leadsIn == old(leadsIn) && next == old(next)
      {
        assert keys[..i + 1][..i] == keys[..i];
        WithoutAllLast(was, keys[..i + 1]);
        heap := heap[target := ObjNode(Without(heap[target].entries, keys[i]))];
      }
      assert keys[..|keys|] == keys;
      Dropped(h, ranks, target, keys);
      DroppingLeaves(Unfold(h, ranks, Ref(target)).fields, keys);
      MemoKept(h, owned, target, heap[target], leadsIn);
      rank := Raised(h, ranks, target);
    }

    /** Evaluates a clause with the target as its context. */
    method Evaluate(clause: Clause, target: Id) returns (r: Evaluation)
      requires Valid() && target in heap && Sound(clause, owned, ownedLeaf)
      modifies this
      ensures Valid() && r == clause(old(heap), old(next), target)
      ensures heap == if r.Evaluated? then r.heap else old(heap)
      ensures Extends(old(heap), heap) && Others(old(heap), old(rank), heap, rank, target)
      ensures Unfold(heap, rank, Ref(target)) == Unfold(old(heap), old(rank), Ref(target))
      ensures r.Evaluated? && r.value.Some? ==> IsIn(heap, r.value.value)
      ensures r.Evaluated? && r.value.Some? && ownedLeaf ==> HoldsUnder(heap, owned, target, r.value.value)
    {
      hide Reaches, Unfold, Memo, HoldsUnder;
      r := clause(heap, next, target);
      assert SoundAt(clause, owned, ownedLeaf, heap, next, target);
      OthersMore(heap, rank, heap, rank, target);
      if r.Evaluated? {
        assert Acyclic(heap);
        ghost var more :| Ranked(r.heap, more);
        RankedIsClosed(heap, rank);
        OthersMore(heap, rank, r.heap, more, target);
        UnfoldMore(heap, rank, r.heap, more, Ref(target));
        MemoGrown(heap, r.heap, Members(owned), leadsIn);
        heap, next, rank := r.heap, r.next, more;
      }
    }

    /** Merges what an update clause gives for the target into it. */
    method ApplyUpdate(clause: Clause, target: Id) returns (err: Option<Error>)
      requires Valid() && target in owned && Sound(clause, owned, ownedLeaf)
      modifies this
      ensures Valid() && OnlyChanges(old(heap), heap, target) && Others(old(heap), old(rank), heap, rank, target)
      ensures var r := clause(old(heap), old(next), target);
              && err == UpdateFails(r)
              && (err.None? ==> UpdateStep(Some(clause), target, Memory(old(heap), old(next)), Memory(heap, next)))
      ensures var r := clause(old(heap), old(next), target);
              && Acyclic(old(heap)) && Acyclic(heap) && target in old(heap) && target in heap
              && (r.Evaluated? ==> Acyclic(r.heap) && (r.value.Some? ==> IsIn(r.heap, r.value.value)))
              && UpdateDone(Meaning(old(heap), Ref(target)), r, err, Meaning(heap, Ref(target)))
    {
      hide Reaches, Unfold, Memo, HoldsUnder, Ranked, Sound, LeafSafe, SetFields;
      ghost var h0, rank0 := heap, rank;
      TargetTree(heap, rank, target);
      var r := Evaluate(clause, target);
      if r.Failed? {
        return Some(r.error);
      }
      TargetTree(heap, rank, target);
      if IsNull(r.value) {
        return None;
      }
      MeaningIs(heap, rank, r.value.value);
      if !IsObject(heap, r.value.value) {
        return Some(UpdateError);
      }
      UpdateSafe(heap, rank, owned, target, ownedLeaf, r.value.value);
      ghost var h1, rank1 := heap, rank;
      Merge(r.value.value.id, target);
      TargetTree(heap, rank, target);
      OthersThen(h0, rank0, h1, rank1, heap, rank, target);
      err := None;
    }

    /** Deletes the keys a delete clause gives from the target. */
    method ApplyDelete(clause: Clause, target: Id) returns (err: Option<Error>)
      requires Valid() && target in owned && Sound(clause, owned, ownedLeaf)
      modifies this
      ensures Valid() && OnlyChanges(old(heap), heap, target) && Others(old(heap), old(rank), heap, rank, target)
      ensures var r := clause(old(heap), old(next), target);
              && err == DeleteFails(r)
              && (err.None? ==> DeleteStep(Some(clause), target, Memory(old(heap), old(next)), Memory(heap, next)))
      ensures && Acyclic(old(heap)) && Acyclic(heap) && target in old(heap) && target in heap
              && DeleteDone(Meaning(old(heap), Ref(target)), clause(old(heap), old(next), target), err,
                            Meaning(heap, Ref(target)))
    {
      hide Reaches, Unfold, Memo, HoldsUnder, Ranked, Sound, DropFields, DeleteDone, IsWithout;
      ghost var h0, rank0 := heap, rank;
      TargetTree(heap, rank, target);
      var r := Evaluate(clause, target);
      if r.Failed? {
        DeleteIsDone(h0, r, target, Meaning(h0, Ref(target)));
        return Some(r.error);
      }
      TargetTree(heap, rank, target);
      match DeleteKeys(r.heap, r.value)
      case Err(e) =>
        DeleteIsDone(h0, r, target, Meaning(h0, Ref(target)));
        return Some(e);
      case Ok(keys) =>
        ghost var h1, rank1 := heap, rank;
        Remove(keys, target);
        TargetTree(heap, rank, target);
        DeleteIsDone(h0, r, target, Meaning(heap, Ref(target)));
        OthersThen(h0, rank0, h1, rank1, heap, rank, target);
        err := None;
    }

    /** Applies a transform's clauses to an object of the clone; mid is the memory between them. */
    method ApplyTarget(clauses: Clauses, target: Id) returns (err: Option<Error>, ghost mid: Memory)
      requires Valid() && target in owned && SoundClauses(clauses, owned, ownedLeaf)
      modifies this
      ensures Valid() && OnlyChanges(old(heap), heap, target) && Others(old(heap), old(rank), heap, rank, target)
      ensures err.None? ==>
                && UpdateStep(clauses.update, target, Memory(old(heap), old(next)), mid)
                && DeleteStep(clauses.delete, target, mid, Memory(heap, next))
      ensures err.Some? ==>
                || (clauses.update.Some? && err == UpdateFails(clauses.update.value(old(heap), old(next), target)))
                || (clauses.delete.Some? && err == DeleteFails(clauses.delete.value(mid.heap, mid.next, target)))
    {
      hide Reaches, Unfold, Memo, Ranked, Sound, UpdatedFields, DeletedFields, Others, Meaning;
      ghost var h0, rank0 := heap, rank;
      OthersSame(heap, rank, target);
      err := None;
      mid := Memory(heap, next);
      if clauses.update.Some? {
        err := ApplyUpdate(clauses.update.value, target);
        mid := Memory(heap, next);
        if err.Some? {
          return;
        }
      }
      if clauses.delete.Some? {
        ghost var h1, rank1 := heap, rank;
        err := ApplyDelete(clauses.delete.value, target);
        OthersThen(h0, rank0, h1, rank1, heap, rank, target);
      }
    }

    /** Evaluates a transform's clauses for an object that is not the clone's, which is not changed. */
    method Validate(clauses: Clauses, target: Id) returns (err: Option<Error>)
      requires Valid() && target in heap && SoundClauses(clauses, owned, ownedLeaf)
      modifies this
      ensures Valid() && Extends(old(heap), heap)
    {
      hide Reaches, Unfold, Memo, Ranked, Sound, Others;
      err := None;
      if clauses.update.Some? {
        var r := Evaluate(clauses.update.value, target);
        err := UpdateFails(r);
        if err.Some? {
          return;
        }
      }
      if clauses.delete.Some? {
        var r := Evaluate(clauses.delete.value, target);
        err := DeleteFails(r);
      }
    }

    /** Applies a transform's clauses to each of the objects its pattern matched: the clone never holds
        itself, only the clone's objects among them are changed, and each as the clauses say. */
    method ApplyTransform(clauses: Clauses, targets: seq<Id>) returns (err: Option<Error>, ghost states: seq<Memory>)
      requires Valid() && (forall i :: 0 <= i < |targets| ==> targets[i] in heap)
               && SoundClauses(clauses, owned, ownedLeaf)
      modifies this
      ensures Valid()
      ensures forall id :: id in old(heap) && !(id in targets && id in owned) ==>
                && id in heap
                && heap[id] == old(heap)[id]
      ensures 0 < |states| <= |targets| + 1 && states[0] == Memory(old(heap), old(next))
              && (err.None? ==> |states| == |targets| + 1)
      ensures err.None? ==> states[|states| - 1] == Memory(heap, next)
      ensures forall i :: 0 <= i < |states| - 1 ==> TargetStep(clauses, owned, targets[i], states[i], states[i + 1])
    {
      hide Reaches, Unfold, Memo, Ranked, SoundClauses, Others, UpdateStep, DeleteStep;
      err := None;
      states := [Memory(heap, next)];
      for i := 0 to |targets|
        invariant Valid() && forall id :: id in old(heap) ==> id in heap
        invariant forall id :: id in old(heap) && !(id in targets && id in owned) ==>
                    && id in heap
                    && heap[id] == old(heap)[id]
        invariant |states| == i + 1 && states[0] == Memory(old(heap), old(next)) && states[i] == Memory(heap, next)
        invariant forall k :: 0 <= k < i ==> TargetStep(clauses, owned, targets[k], states[k], states[k + 1])
      {
        if targets[i] in owned {
          ghost var mid;
          err, mid := ApplyTarget(clauses, targets[i]);
        } else {
          err := Validate(clauses, targets[i]);
        }
        if err.Some? {
          return;
        }
        assert TargetStep(clauses, owned, targets[i], states[i], Memory(heap, next));
        states := states + [Memory(heap, next)];
      }
    }
  }

  /** The copies stay, and a new one is of the target. */
  ghost predicate MoreBy(copies: map<Id, Id>, more: map<Id, Id>, target: Id) {
    && (forall id :: id in copies ==> id in more && more[id] == copies[id])
    && forall id :: id in more ==> id in copies || id == target
  }

  /** A container with other children. */
  function Rebuilt(n: Node, kids: seq<Value>): Node
    requires |kids| == |Children(n)|
  {
    if n.ArrNode? then ArrNode(kids) else
      EntryCount(n.entries);
      ObjNode(Rekey(n.entries, kids))
  }

  function AddTop(stack: seq<Cursor>, y: Value): seq<Cursor>
    requires stack != []
  {
    var top := stack[|stack| - 1];
    stack[..|stack| - 1] + [top.(out := top.out + [y])]
  }

  /** The copying of what is under v: the containers open on stack reach the target. */
  ghost predicate CopyWalk(h: Heap, rank: map<Id, nat>, s: Search, copies: map<Id, Id>, v: Value, stack: seq<Cursor>) {
    && s.Target? && Chain(h, rank, stack) && (stack != [] ==> v == Ref(stack[0].id))
    && forall j :: 0 <= j < |stack| ==> CopyAt(h, s, copies, stack[j], if j < |stack| - 1 then 1 else 0)
  }

  /** A container whose children are copied, but for the last one taken if pending is 1. */
  ghost predicate CopyAt(h: Heap, s: Search, copies: map<Id, Id>, c: Cursor, pending: nat)
    requires s.Target?
  {
    && c.id != s.target && c.id !in copies && Reaches(h, Ref(c.id), s.target) && LeafSafe(h, s, Ref(c.id))
    && |c.out| + pending == c.index <= |KidsAt(h, c)|
    && forall k :: 0 <= k < |c.out| ==> Mapped(h, s.target, copies, KidsAt(h, c)[k], c.out[k])
  }

  lemma CopyBegun(h: Heap, rank: map<Id, nat>, s: Search, copies: map<Id, Id>, v: Value)
    requires s.Target? && Ranked(h, rank) && v.Ref? && v.id in h && v.id != s.target && v.id !in copies
    requires Reaches(h, v, s.target) && LeafSafe(h, s, v)
    ensures var stack := [Cursor(v.id, 0, [])]; Chain(h, rank, stack) && CopyWalk(h, rank, s, copies, v, stack)
  {
    hide Reaches, LeafSafe, Ranked;
  }

  lemma CopyTop(h: Heap, rank: map<Id, nat>, s: Search, copies: map<Id, Id>, v: Value, stack: seq<Cursor>)
    requires CopyWalk(h, rank, s, copies, v, stack) && stack != []
    ensures var top := stack[|stack| - 1];
            && top.id in h && top.id !in copies && top.id != s.target && Reaches(h, Ref(top.id), s.target)
            && |top.out| == top.index <= |KidsAt(h, top)| && KidsAt(h, top) == Children(h[top.id])
            && (top.index < |KidsAt(h, top)| ==>
                  var kid := KidsAt(h, top)[top.index]; IsIn(h, kid) && LeafSafe(h, s, kid))
  {
    hide Reaches, LeafSafe, Ranked, Lower;
    var top := stack[|stack| - 1];
    assert CopyAt(h, s, copies, top, 0);
    if top.index < |KidsAt(h, top)| {
      KidsLower(h, rank, top.id);
      LeafSafeChild(h, s, Ref(top.id), top.index);
    }
  }

  lemma CopyMore(h: Heap, rank: map<Id, nat>, s: Search, copies: map<Id, Id>, more: map<Id, Id>, v: Value,
                 stack: seq<Cursor>)
    requires CopyWalk(h, rank, s, copies, v, stack)
    requires MoreBy(copies, more, s.target)
    ensures CopyWalk(h, rank, s, more, v, stack)
  {
    hide Reaches, LeafSafe, Chain;
    forall j | 0 <= j < |stack|
      ensures CopyAt(h, s, more, stack[j], if j < |stack| - 1 then 1 else 0)
    {
      assert CopyAt(h, s, copies, stack[j], if j < |stack| - 1 then 1 else 0);
    }
  }

  lemma CopyIn(h: Heap, rank: map<Id, nat>, s: Search, copies: map<Id, Id>, v: Value, stack: seq<Cursor>, id: Id)
    requires CopyWalk(h, rank, s, copies, v, stack) && stack != []
    requires stack[|stack| - 1].index < |KidsAt(h, stack[|stack| - 1])|
             && KidsAt(h, stack[|stack| - 1])[stack[|stack| - 1].index] == Ref(id)
    requires id != s.target && id !in copies && Reaches(h, Ref(id), s.target)
    ensures var next := Advance(stack) + [Cursor(id, 0, [])];
            && CopyWalk(h, rank, s, copies, v, next) && Chain(h, rank, next) && Chain(h, rank, stack)
            && Left(h, rank, next) < Left(h, rank, stack)
  {
    hide Reaches, LeafSafe, Mapped, Chain, Left, Kids;
    GoesUnder(h, rank, stack, id);
    CopyTop(h, rank, s, copies, v, stack);
    var next := Advance(stack) + [Cursor(id, 0, [])];
    var n := |stack| - 1;
    assert next[n + 1] == Cursor(id, 0, []) && next[n] == stack[n].(index := stack[n].index + 1);
    forall j | 0 <= j < |next|
      ensures CopyAt(h, s, copies, next[j], if j < |next| - 1 then 1 else 0)
    {
      assert j < |stack| ==> CopyAt(h, s, copies, stack[j], if j < n then 1 else 0);
    }
  }

  lemma CopyOn(h: Heap, rank: map<Id, nat>, s: Search, copies: map<Id, Id>, v: Value, stack: seq<Cursor>, y: Value)
    requires CopyWalk(h, rank, s, copies, v, stack) && stack != []
             && stack[|stack| - 1].index < |KidsAt(h, stack[|stack| - 1])|
    requires Mapped(h, s.target, copies, KidsAt(h, stack[|stack| - 1])[stack[|stack| - 1].index], y)
    ensures var next := AddTop(Advance(stack), y);
            && CopyWalk(h, rank, s, copies, v, next) && Chain(h, rank, next) && Chain(h, rank, stack)
            && Left(h, rank, next) < Left(h, rank, stack)
  {
    hide Reaches, LeafSafe, Mapped, Chain, Left, Kids;
    LeftAdvance(h, rank, stack);
    SameChain(h, rank, Advance(stack), y);
    var next := AddTop(Advance(stack), y);
    var n := |stack| - 1;
    forall j | 0 <= j < |next|
      ensures CopyAt(h, s, copies, next[j], if j < |next| - 1 then 1 else 0)
    {
      assert CopyAt(h, s, copies, stack[j], if j < n then 1 else 0);
    }
  }

  /** What is copied does not count for the walk. */
  lemma SameChain(h: Heap, rank: map<Id, nat>, stack: seq<Cursor>, y: Value)
    requires Chain(h, rank, stack) && stack != []
    ensures Chain(h, rank, AddTop(stack, y)) && Left(h, rank, AddTop(stack, y)) == Left(h, rank, stack)
  {
    hide Ranked, Visits, VisitsAll, Kids;
    var next := AddTop(stack, y);
    forall j | 0 <= j < |next| - 1
      ensures Holds(h, next[j], next[j + 1].id)
    {
      assert Holds(h, stack[j], stack[j + 1].id);
    }
    assert Pop(next) == Pop(stack);
  }

  /** All the children of the container on top are copied, so it has a copy. */
  lemma CopyWhole(h: Heap, rank: map<Id, nat>, heap: Heap, s: Search, copies: map<Id, Id>, v: Value,
                  stack: seq<Cursor>, c: Id)
    requires CopyWalk(h, rank, s, copies, v, stack) && stack != []
             && stack[|stack| - 1].index == |KidsAt(h, stack[|stack| - 1])|
    requires Ranked(h, rank) && Extends(h, heap) && c !in heap
    ensures var top := stack[|stack| - 1];
            && top.id in h && |top.out| == |Children(h[top.id])|
            && CopyOf(h, heap[c := Rebuilt(h[top.id], top.out)], s.target, copies[top.id := c], top.id)
  {
    hide Reaches, LeafSafe, Mapped, Lower;
    var top := stack[|stack| - 1];
    assert CopyAt(h, s, copies, top, 0);
    if h[top.id].ObjNode? {
      EntryCount(h[top.id].entries);
      Rekeyed(h[top.id].entries, top.out);
    }
    CopyMade(h, heap, s.target, copies, top.id, c, Rebuilt(h[top.id], top.out));
  }

  lemma CopyOut(h: Heap, rank: map<Id, nat>, s: Search, copies: map<Id, Id>, more: map<Id, Id>, v: Value,
                stack: seq<Cursor>, c: Id)
    requires CopyWalk(h, rank, s, copies, v, stack) && stack != []
             && stack[|stack| - 1].index == |KidsAt(h, stack[|stack| - 1])|
    requires more == copies[stack[|stack| - 1].id := c]
    ensures |stack| == 1 ==> Mapped(h, s.target, more, v, Ref(c))
    ensures |stack| > 1 ==>
              var next := AddTop(Pop(stack), Ref(c));
              && CopyWalk(h, rank, s, more, v, next) && Chain(h, rank, next) && Chain(h, rank, stack)
              && Left(h, rank, next) == Left(h, rank, stack)
  {
    hide Reaches, LeafSafe, Left, Kids, Ranked;
    var n := |stack| - 1;
    assert CopyAt(h, s, copies, stack[n], 0);
    if n > 0 {
      LeftPop(h, rank, stack);
      SameChain(h, rank, Pop(stack), Ref(c));
      var next := AddTop(Pop(stack), Ref(c));
      assert Holds(h, stack[n - 1], stack[n].id);
      forall j | 0 <= j < |next|
        ensures CopyAt(h, s, more, next[j], if j < |next| - 1 then 1 else 0)
      {
        assert CopyAt(h, s, copies, stack[j], 1);
      }
    }
  }

  lemma TargetCopied(h: Heap, heap: Heap, target: Id, copies: map<Id, Id>, c: Id)
    requires target in h && Extends(h, heap) && c !in heap && target !in copies
    ensures heap[target] == h[target] && CopyOf(h, heap[c := heap[target]], target, copies[target := c], target)
  {
    ReachesItself(h, target);
  }

  lemma MemoGrown(heap: Heap, more: Heap, s: Search, memo: map<Id, bool>)
    requires Closed(heap) && Extends(heap, more) && Memo(heap, s, memo)
    ensures Memo(more, s, memo)
  {
    hide LeadsIn, Reaches;
    forall id | id in memo
      ensures id in more && memo[id] == Answer(more, s, Ref(id))
    {
      if s.Members? {
        LeadsInMore(heap, more, s.owned, Ref(id));
      } else {
        ReachesMore(heap, more, Ref(id), s.target);
      }
    }
  }

  /** The search under v, whose containers open are path. */
  ghost predicate Searching(h: Heap, rank: map<Id, nat>, s: Search, v: Value, stack: seq<Cursor>, path: seq<Id>) {
    && Chain(h, rank, stack) && IsPath(stack, path) && Searched(h, s, stack) && AllSafe(h, s, stack)
    && if stack == [] then !Answer(h, s, v) else v == Ref(stack[0].id)
  }

  lemma AtTop(h: Heap, rank: map<Id, nat>, s: Search, v: Value, stack: seq<Cursor>, path: seq<Id>)
    requires Searching(h, rank, s, v, stack, path)
    ensures Chain(h, rank, stack) && (stack == [] ==> !Answer(h, s, v))
    ensures stack != [] ==>
              var top := stack[|stack| - 1];
              && top.id in h && top.index <= |KidsAt(h, top)| && KidsAt(h, top) == Children(h[top.id])
              && (top.index < |KidsAt(h, top)| ==>
                    IsIn(h, KidsAt(h, top)[top.index]) && Safe(h, s, KidsAt(h, top)[top.index]))
  {
    hide Answer, LeafSafe, Searched;
    if stack != [] && stack[|stack| - 1].index < |KidsAt(h, stack[|stack| - 1])| {
      ChildSafe(h, s, stack);
      KidsLower(h, rank, stack[|stack| - 1].id);
    }
  }

  lemma MemoAdd(h: Heap, s: Search, memo: map<Id, bool>, id: Id, r: bool)
    requires Memo(h, s, memo) && id in h && r == Answer(h, s, Ref(id))
    ensures Memo(h, s, memo[id := r])
  {
  }

  lemma Started(h: Heap, rank: map<Id, nat>, s: Search, v: Value)
    requires Ranked(h, rank) && IsIn(h, v) && Safe(h, s, v) && v.Ref? && !IsMatch(s, v)
    ensures Chain(h, rank, [Cursor(v.id, 0, [])]) && Searching(h, rank, s, v, [Cursor(v.id, 0, [])], [v.id])
  {
  }

  lemma StepOut(h: Heap, rank: map<Id, nat>, s: Search, v: Value, stack: seq<Cursor>, path: seq<Id>)
    requires Searching(h, rank, s, v, stack, path) && stack != []
             && stack[|stack| - 1].index == |KidsAt(h, stack[|stack| - 1])|
    ensures path != [] && path[|path| - 1] == stack[|stack| - 1].id
    ensures Searching(h, rank, s, v, Pop(stack), path[..|path| - 1])
    ensures Chain(h, rank, stack) && Chain(h, rank, Pop(stack)) && Left(h, rank, Pop(stack)) == Left(h, rank, stack)
    ensures !Answer(h, s, Ref(stack[|stack| - 1].id))
  {
    hide Answer, LeafSafe, Left, Chain, Searched, Safe;
    SearchedOut(h, rank, s, stack);
    LeftPop(h, rank, stack);
  }

  lemma StepOn(h: Heap, rank: map<Id, nat>, s: Search, v: Value, stack: seq<Cursor>, path: seq<Id>)
    requires Searching(h, rank, s, v, stack, path) && stack != []
             && stack[|stack| - 1].index < |KidsAt(h, stack[|stack| - 1])|
    requires !Answer(h, s, KidsAt(h, stack[|stack| - 1])[stack[|stack| - 1].index])
    ensures Searching(h, rank, s, v, Advance(stack), path)
    ensures Chain(h, rank, stack) && Chain(h, rank, Advance(stack))
            && Left(h, rank, Advance(stack)) < Left(h, rank, stack)
  {
    hide Answer, LeafSafe, Left, Chain, Searched, Safe;
    SearchedOn(h, s, stack);
    LeftAdvance(h, rank, stack);
  }

  /** The walk goes under the child taken, which is not open yet. */
  lemma StepIn(h: Heap, rank: map<Id, nat>, s: Search, v: Value, stack: seq<Cursor>, path: seq<Id>, id: Id)
    requires Searching(h, rank, s, v, stack, path) && stack != []
             && stack[|stack| - 1].index < |KidsAt(h, stack[|stack| - 1])|
    requires KidsAt(h, stack[|stack| - 1])[stack[|stack| - 1].index] == Ref(id) && Safe(h, s, Ref(id))
             && !IsMatch(s, Ref(id))
    ensures var next := Advance(stack) + [Cursor(id, 0, [])];
            && Searching(h, rank, s, v, next, path + [id])
            && Chain(h, rank, stack) && Chain(h, rank, next) && Left(h, rank, next) < Left(h, rank, stack)
    ensures id !in path
  {
    hide Answer, Searched, Left, LeafSafe, Ranked;
    GoesUnder(h, rank, stack, id);
    SearchedIn(h, s, stack, id);
  }

  lemma GoesUnder(h: Heap, rank: map<Id, nat>, stack: seq<Cursor>, id: Id)
    requires Chain(h, rank, stack) && stack != [] && stack[|stack| - 1].index < |KidsAt(h, stack[|stack| - 1])|
    requires KidsAt(h, stack[|stack| - 1])[stack[|stack| - 1].index] == Ref(id)
    ensures var next := Advance(stack) + [Cursor(id, 0, [])];
            Chain(h, rank, next) && Left(h, rank, next) < Left(h, rank, stack)
    ensures id in h && forall j :: 0 <= j < |stack| ==> RankOf(rank, Ref(id)) < RankOf(rank, Ref(stack[j].id))
  {
    hide Left;
    LeftAdvance(h, rank, stack);
    var more := Advance(stack);
    LeftPush(h, rank, more, id);
    Deeper(h, rank, more, id);
    forall j | 0 <= j < |stack|
      ensures RankOf(rank, Ref(id)) < RankOf(rank, Ref(stack[j].id))
    {
      assert more[j].id == stack[j].id;
    }
  }

  lemma StepFound(h: Heap, rank: map<Id, nat>, s: Search, v: Value, stack: seq<Cursor>, path: seq<Id>)
    requires Searching(h, rank, s, v, stack, path) && stack != []
             && stack[|stack| - 1].index < |KidsAt(h, stack[|stack| - 1])|
    requires Answer(h, s, KidsAt(h, stack[|stack| - 1])[stack[|stack| - 1].index])
    ensures Chain(h, rank, stack) && Answer(h, s, v) && forall j :: 0 <= j < |stack| ==> Answer(h, s, Ref(stack[j].id))
  {
    hide Answer, Searched, LeafSafe, Chain;
    FoundUnder(h, rank, s, stack);
  }

  predicate IsObject(h: Heap, v: Value) {
    v.Ref? && v.id in h && h[v.id].ObjNode?
  }

  /** What does not reach the target stands for what it did. */
  ghost predicate Others(h: Heap, rank: map<Id, nat>, after: Heap, ranks: map<Id, nat>, target: Id) {
    && Ranked(h, rank) && Ranked(after, ranks)
    && forall v :: IsIn(h, v) && !Reaches(h, v, target) ==>
      && IsIn(after, v)
      && Unfold(after, ranks, v) == Unfold(h, rank, v)
  }

  lemma NoMemo(h: Heap, s: Search)
    ensures Memo(h, s, map[])
  {
  }

  lemma NoCopies(h: Heap, target: Id)
    ensures Copies(h, h, target, map[])
  {
  }

  lemma Detached(h: Heap, ranks: map<Id, nat>, heap: Heap, rank: map<Id, nat>, target: Id, copies: map<Id, Id>,
                 v: Value, y: Value)
    requires Ranked(h, ranks) && Ranked(heap, rank) && Extends(h, heap) && target in h
             && Copies(h, heap, target, copies)
    requires IsIn(h, v) && Reaches(h, v, target) && Mapped(h, target, copies, v, y)
    ensures IsIn(heap, y) && !Reaches(heap, y, target) && Unfold(heap, rank, y) == Unfold(h, ranks, v)
    ensures IsObject(h, v) ==> IsObject(heap, y)
  {
    hide Reaches, Ranked, Unfold;
    assert CopyOf(h, heap, target, copies, v.id);
    CopyAvoids(h, ranks, heap, target, copies, v.id);
    CopyUnfolds(h, ranks, heap, rank, target, copies, v, y);
  }

  /** Setting the entries of an object that does not reach the target in the target. */
  lemma Updated(h0: Heap, rank0: map<Id, nat>, h: Heap, ranks: map<Id, nat>, target: Id, update: Id, y: Id)
    requires Ranked(h0, rank0) && Ranked(h, ranks) && Extends(h0, h) && target in h0 && h0[target].ObjNode?
    requires update in h0 && h0[update].ObjNode? && y in h && h[y].ObjNode? && !Reaches(h, Ref(y), target)
    requires Unfold(h, ranks, Ref(y)) == Unfold(h0, rank0, Ref(update))
    ensures target in h
    ensures var after, r := h[target := ObjNode(SetAll(h[target].entries, h[y].entries))], Raised(h, ranks, target);
            var was, given := Unfold(h0, rank0, Ref(target)), Unfold(h0, rank0, Ref(update));
            && Ranked(after, r) && was.ObjTree? && given.ObjTree?
            && Unfold(after, r, Ref(target)) == ObjTree(SetFields(was.fields, given.fields))
            && Others(h0, rank0, after, r, target)
  {
    hide Reaches, Ranked, Unfold, Raised, FieldsOf, SetAll, SetFields;
    RankedIsClosed(h0, rank0);
    RankedIsClosed(h, ranks);
    var was, more := h[target].entries, h[y].entries;
    OwnClear(h, ranks, target);
    UpdateClear(h, target, y);
    SetAllClear(h, target, was, more);
    FieldsSetAll(h, ranks, was, more);
    Replaced(h, ranks, target, SetAll(was, more));
    UnfoldObject(h, ranks, target);
    UnfoldObject(h, ranks, y);
    UnfoldMore(h0, rank0, h, ranks, Ref(target));
    OthersMore(h0, rank0, h, ranks, target);
  }

  lemma OthersMore(h: Heap, rank: map<Id, nat>, more: Heap, ranks: map<Id, nat>, target: Id)
    requires Ranked(h, rank) && Ranked(more, ranks) && Extends(h, more)
    ensures forall v :: IsIn(h, v) && !Reaches(h, v, target) ==>
              IsIn(more, v) && !Reaches(more, v, target) && Unfold(more, ranks, v) == Unfold(h, rank, v)
  {
    hide Reaches, Ranked, Unfold;
    RankedIsClosed(h, rank);
    forall v | IsIn(h, v) && !Reaches(h, v, target)
      ensures IsIn(more, v) && !Reaches(more, v, target) && Unfold(more, ranks, v) == Unfold(h, rank, v)
    {
      ReachesMore(h, more, v, target);
      UnfoldMore(h, rank, more, ranks, v);
    }
  }

  lemma Dropped(h: Heap, rank: map<Id, nat>, target: Id, keys: seq<string>)
    requires Ranked(h, rank) && target in h && h[target].ObjNode?
    ensures var after, r := h[target := ObjNode(WithoutAll(h[target].entries, keys))], Raised(h, rank, target);
            var was := Unfold(h, rank, Ref(target));
            && Ranked(after, r) && was.ObjTree?
            && Unfold(after, r, Ref(target)) == ObjTree(DropFields(was.fields, keys))
            && Others(h, rank, after, r, target)
  {
    hide Reaches, Ranked, Unfold, Raised, FieldsOf, WithoutAll, DropFields;
    var was := h[target].entries;
    OwnClear(h, rank, target);
    WithoutAllClear(h, target, was, keys);
    UnfoldObject(h, rank, target);
    FieldsWithoutAll(h, rank, was, keys);
    Replaced(h, rank, target, WithoutAll(was, keys));
  }

  /** Changing an object of the clone does not change what leads to the clone. */
  lemma MemoKept(h: Heap, owned: set<Id>, target: Id, node: Node, leadsIn: map<Id, bool>)
    requires target in owned && target in h && Memo(h, Members(owned), leadsIn)
    ensures Memo(h[target := node], Members(owned), leadsIn)
  {
    hide LeadsIn, Reaches;
    forall id | id in leadsIn
      ensures leadsIn[id] == Answer(h[target := node], Members(owned), Ref(id))
    {
      LeadsInChanged(h, owned, target, node, Ref(id));
    }
  }

  /** The objects in memory stay as they are, but for the target. */
  ghost predicate OnlyChanges(h: Heap, after: Heap, target: Id) {
    forall id :: id in h ==> id in after && (id != target ==> after[id] == h[id])
  }

  lemma TargetTree(h: Heap, rank: map<Id, nat>, target: Id)
    requires Ranked(h, rank) && target in h && h[target].ObjNode?
    ensures Acyclic(h) && Unfold(h, rank, Ref(target)).ObjTree?
            && Meaning(h, Ref(target)) == Unfold(h, rank, Ref(target))
  {
    hide Ranked;
    MeaningIs(h, rank, Ref(target));
  }

  lemma OthersSame(h: Heap, rank: map<Id, nat>, target: Id)
    requires Ranked(h, rank)
    ensures Others(h, rank, h, rank, target)
  {
  }

  lemma OthersThen(h0: Heap, rank0: map<Id, nat>, h1: Heap, rank1: map<Id, nat>, h2: Heap, rank2: map<Id, nat>,
                   target: Id)
    requires Others(h0, rank0, h1, rank1, target) && Others(h1, rank1, h2, rank2, target) && OnlyChanges(h0, h1, target)
    ensures Others(h0, rank0, h2, rank2, target)
  {
    hide Reaches, Ranked, Unfold;
    forall v | IsIn(h0, v) && !Reaches(h0, v, target)
      ensures IsIn(h2, v) && Unfold(h2, rank2, v) == Unfold(h0, rank0, v)
    {
      StillApart(h0, rank0, h1, target, v);
    }
  }

  /** What does not reach the target does not when only it changes. */
  lemma {:induction false} StillApart(h: Heap, rank: map<Id, nat>, after: Heap, target: Id, v: Value)
    requires Ranked(h, rank) && OnlyChanges(h, after, target) && IsIn(h, v) && !Reaches(h, v, target)
    ensures IsIn(after, v) && !Reaches(after, v, target)
    decreases RankOf(rank, v)
  {
    hide Reaches, Ranked;
    ReachesItself(h, target);
    if Reaches(after, v, target) {
      var i := ReachesBy(after, v, target);
      KidLower(h, rank, v, i);
      if Reaches(h, Kids(h, v)[i], target) {
        ReachesChild(h, v, i, target);
      }
      StillApart(h, rank, after, target, Kids(h, v)[i]);
    }
  }
}
