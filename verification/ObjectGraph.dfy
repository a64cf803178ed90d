/** Values in memory: objects and arrays with an identity, which values can share
    and, in Go input, contain themselves through. */
module ObjectGraph {
  import opened Wrappers
  import opened Trees

  type Id = nat

  /** A scalar, or an object or array by its identity. */
  datatype Value = Leaf(scalar: Tree) | Ref(id: Id)

  datatype Entry = Entry(key: string, value: Value)

  datatype Node = ArrNode(items: seq<Value>) | ObjNode(entries: seq<Entry>)

  type Heap = map<Id, Node>

  predicate IsIn(h: Heap, v: Value) {
    v.Ref? ==> v.id in h
  }

  function EntryValues(entries: seq<Entry>): seq<Value> {
    if entries == [] then [] else [entries[0].value] + EntryValues(entries[1..])
  }

  function Children(n: Node): seq<Value> {
    if n.ArrNode? then n.items else EntryValues(n.entries)
  }

  ghost predicate AllIn(h: Heap, vs: seq<Value>) {
    forall i :: 0 <= i < |vs| ==> IsIn(h, vs[i])
  }

  /** Every object and array is in memory. */
  ghost predicate Closed(h: Heap) {
    forall id :: id in h ==> AllIn(h, Children(h[id]))
  }

  predicate IsArray(h: Heap, v: Value) {
    v.Ref? && v.id in h && h[v.id].ArrNode?
  }

  const CYCLE_CHECK_DEPTH: nat := 1000

  /** The part of a path past CYCLE_CHECK_DEPTH. */
  ghost function Tracked(path: seq<Id>): seq<Id> {
    if |path| <= CYCLE_CHECK_DEPTH then [] else path[CYCLE_CHECK_DEPTH..]
  }

  ghost predicate Distinct(ids: seq<Id>) {
    forall i, j :: 0 <= i < j < |ids| ==> ids[i] != ids[j]
  }

  /** The containers open on the path of a walk, which it tracks by identity past CYCLE_CHECK_DEPTH,
      or at every depth. */
  class ValuePath {
    var depth: nat
    var open: set<Id>
    var all: bool
    ghost var path: seq<Id>

    constructor ()
      ensures Valid() && path == [] && !all
    {
      depth, open, all, path := 0, {}, false, [];
    }

    /** The part of the path whose containers are tracked: they are distinct. */
    ghost function Tracking(): seq<Id>
      reads this
    {
      if all then path else Tracked(path)
    }

    ghost predicate Valid()
      reads this
    {
      && depth == |path| && open == (set x | x in Tracking()) && Distinct(Tracking())
    }

    /** From here on, entering a container already on the path is noticed. */
    method TrackAll(stack: seq<Id>)
      requires Valid() && stack == path && Distinct(path)
      modifies this
      ensures Valid() && all && path == old(path)
    {
      all := true;
      open := open + set x | x in stack;
    }

    /** Descends into a container, unless it is known to be open. */
    method Enter(id: Id) returns (ok: bool)
      requires Valid()
      modifies this
      ensures Valid() && all == old(all)
      ensures path == if ok then old(path) + [id] else old(path)
      ensures !ok ==> id in old(path)
    {
      if !all && depth < CYCLE_CHECK_DEPTH {
        depth := depth + 1;
        path := path + [id];
        return true;
      }
      if id in open {
        return false;
      }
      assert !all ==> Tracked(path + [id]) == Tracked(path) + [id];
      open := open + {id};
      depth := depth + 1;
      path := path + [id];
      ok := true;
    }

    /** Returns from the container last entered. */
    method Leave(id: Id)
      requires Valid() && path != [] && path[|path| - 1] == id
      modifies this
      ensures Valid() && path == old(path)[..|old(path)| - 1] && all == old(all)
    {
      depth := depth - 1;
      if all || depth >= CYCLE_CHECK_DEPTH {
        assert path == path[..|path| - 1] + [id];
        assert !all ==> Tracked(path) == Tracked(path[..|path| - 1]) + [id];
        open := open - {id};
      }
      path := path[..|path| - 1];
    }

    /** A path is no deeper than CYCLE_CHECK_DEPTH and one level for each container there is. */
    lemma DepthBound(ids: set<Id>)
      requires Valid() && forall i :: 0 <= i < |path| ==> path[i] in ids
      ensures |path| <= CYCLE_CHECK_DEPTH + |ids|
    {
      DistinctFit(Tracking(), ids);
    }
  }

  lemma {:induction false} DistinctFit(path: seq<Id>, ids: set<Id>)
    requires Distinct(path) && forall i :: 0 <= i < |path| ==> path[i] in ids
    ensures |path| <= |ids|
  {
    if path != [] {
      DistinctFit(path[1..], ids - {path[0]});
    }
  }

  /** No container holds itself: those it holds have a lower rank. */
  ghost predicate Ranked(h: Heap, rank: map<Id, nat>) {
    Closed(h) && rank.Keys == h.Keys && forall id :: id in h ==> Lower(h, rank, id)
  }

  ghost predicate Lower(h: Heap, rank: map<Id, nat>, id: Id)
    requires id in h && rank.Keys == h.Keys
  {
    forall i :: 0 <= i < |Children(h[id])| ==> RankOf(rank, Children(h[id])[i]) < rank[id] + 1
  }

  /** A value's rank, one more than its container's; a scalar has none. */
  ghost function RankOf(rank: map<Id, nat>, v: Value): nat {
    if v.Ref? && v.id in rank then rank[v.id] + 1 else 0
  }

  ghost predicate Acyclic(h: Heap) {
    exists rank :: Ranked(h, rank)
  }
}
