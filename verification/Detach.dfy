/** Merging a transform's update into an object of the cloned document without making
    the document contain itself. */
module Detach {
  import opened Wrappers
  import opened Trees
  import opened ObjectGraph

  /** The values directly under v. */
  function Kids(h: Heap, v: Value): seq<Value> {
    if v.Ref? && v.id in h then Children(h[v.id]) else []
  }

  /** Where the children numbered by p lead from v. */
  ghost function Follow(h: Heap, v: Value, p: seq<nat>): Option<Value>
    decreases |p|
  {
    if p == [] then Some(v)
    else if p[0] < |Kids(h, v)| then Follow(h, Kids(h, v)[p[0]], p[1..])
    else None
  }

  /** t is v or under it. */
  ghost predicate Reaches(h: Heap, v: Value, t: Id) {
    exists p :: Follow(h, v, p) == Some(Ref(t))
  }

  lemma ReachesChild(h: Heap, v: Value, i: nat, t: Id)
    requires i < |Kids(h, v)| && Reaches(h, Kids(h, v)[i], t)
    ensures Reaches(h, v, t)
  {
    var p :| Follow(h, Kids(h, v)[i], p) == Some(Ref(t));
    assert ([i] + p)[1..] == p;
    assert Follow(h, v, [i] + p) == Some(Ref(t));
  }

  lemma ReachesBy(h: Heap, v: Value, t: Id) returns (i: nat)
    requires Reaches(h, v, t) && v != Ref(t)
    ensures i < |Kids(h, v)| && Reaches(h, Kids(h, v)[i], t)
  {
    var p :| Follow(h, v, p) == Some(Ref(t));
    i := p[0];
    assert Follow(h, Kids(h, v)[i], p[1..]) == Some(Ref(t));
  }

  lemma ReachesItself(h: Heap, t: Id)
    ensures Reaches(h, Ref(t), t)
  {
    assert Follow(h, Ref(t), []) == Some(Ref(t));
  }

  lemma KidLower(h: Heap, rank: map<Id, nat>, v: Value, i: nat)
    requires Ranked(h, rank) && IsIn(h, v) && i < |Kids(h, v)|
    ensures IsIn(h, Kids(h, v)[i]) && RankOf(rank, Kids(h, v)[i]) < RankOf(rank, v)
  {
    assert Lower(h, rank, v.id) && AllIn(h, Children(h[v.id]));
  }

  /** Nothing that is reached ranks above what reaches it. */
  lemma {:induction false} ReachesLower(h: Heap, rank: map<Id, nat>, v: Value, t: Id)
    requires Ranked(h, rank) && IsIn(h, v) && Reaches(h, v, t)
    ensures t in h && RankOf(rank, Ref(t)) <= RankOf(rank, v)
            && (v != Ref(t) ==> RankOf(rank, Ref(t)) < RankOf(rank, v))
    decreases RankOf(rank, v)
  {
    if v != Ref(t) {
      var i := ReachesBy(h, v, t);
      KidLower(h, rank, v, i);
      ReachesLower(h, rank, Kids(h, v)[i], t);
    }
  }

  /** What a value stands for. */
  ghost function Unfold(h: Heap, rank: map<Id, nat>, v: Value): Tree
    requires Ranked(h, rank) && IsIn(h, v)
    decreases RankOf(rank, v), 1, 0
  {
    match v
    case Leaf(t) => t
    case Ref(id) =>
      match h[id]
      case ArrNode(items) =>
        assert Lower(h, rank, id) && AllIn(h, Children(h[id]));
        ArrTree(UnfoldAll(h, rank, items, rank[id] + 1))
      case ObjNode(entries) =>
        assert Lower(h, rank, id) && AllIn(h, Children(h[id]));
        ObjTree(Zip(entries, UnfoldAll(h, rank, EntryValues(entries), rank[id] + 1)))
  }

  ghost function UnfoldAll(h: Heap, rank: map<Id, nat>, vs: seq<Value>, below: nat): (r: seq<Tree>)
    requires Ranked(h, rank) && AllIn(h, vs) && forall i :: 0 <= i < |vs| ==> RankOf(rank, vs[i]) < below
    ensures |r| == |vs|
    decreases below, 0, |vs|
  {
    if vs == [] then [] else [Unfold(h, rank, vs[0])] + UnfoldAll(h, rank, vs[1..], below)
  }

  /** An object's keys with some values. */
  function Zip(entries: seq<Entry>, values: seq<Tree>): seq<Field> {
    if entries == [] || values == [] then []
    else [Field(entries[0].key, values[0])] + Zip(entries[1..], values[1..])
  }

  /** What a search under a value looks for: an object of the clone, or a target among them, where
      with ownedLeaf it goes under no object of the clone. */
  datatype Search = Members(owned: set<Id>) | Target(owned: set<Id>, target: Id, ownedLeaf: bool)

  predicate IsMatch(s: Search, v: Value) {
    v.Ref? && if s.Members? then v.id in s.owned else v.id == s.target
  }

  /** With ownedLeaf, no other object of the clone under v leads back to the target. */
  ghost predicate LeafSafe(h: Heap, s: Search, v: Value) {
    s.Target? && s.target in s.owned &&
    (s.ownedLeaf ==> forall o :: o in s.owned && o != s.target && Reaches(h, v, o) ==> !Reaches(h, Ref(o), s.target))
  }

  lemma LeafSafeChild(h: Heap, s: Search, v: Value, i: nat)
    requires LeafSafe(h, s, v) && i < |Kids(h, v)|
    ensures LeafSafe(h, s, Kids(h, v)[i])
  {
    forall o | o in s.owned && o != s.target && Reaches(h, Kids(h, v)[i], o)
      ensures s.ownedLeaf ==> !Reaches(h, Ref(o), s.target)
    {
      ReachesChild(h, v, i, o);
    }
  }

  ghost predicate Extends(h: Heap, more: Heap) {
    forall id :: id in h ==> id in more && more[id] == h[id]
  }

  lemma {:induction false} FollowMore(h: Heap, more: Heap, v: Value, p: seq<nat>)
    requires Closed(h) && IsIn(h, v) && Extends(h, more)
    ensures Follow(more, v, p) == Follow(h, v, p)
    ensures Follow(h, v, p).Some? ==> IsIn(h, Follow(h, v, p).value)
    decreases |p|
  {
    if p != [] && p[0] < |Kids(h, v)| {
      assert AllIn(h, Children(h[v.id]));
      FollowMore(h, more, Kids(h, v)[p[0]], p[1..]);
    }
  }

  /** What is new in memory is not under what was there. */
  lemma ReachesMore(h: Heap, more: Heap, v: Value, t: Id)
    requires Closed(h) && IsIn(h, v) && Extends(h, more)
    ensures Reaches(more, v, t) <==> Reaches(h, v, t)
    ensures Reaches(h, v, t) ==> t in h
  {
    if Reaches(more, v, t) {
      var p :| Follow(more, v, p) == Some(Ref(t));
      FollowMore(h, more, v, p);
    }
    if Reaches(h, v, t) {
      var p :| Follow(h, v, p) == Some(Ref(t));
      FollowMore(h, more, v, p);
    }
  }

  /** v leads to an object of the clone. */
  ghost predicate LeadsIn(h: Heap, owned: set<Id>, v: Value) {
    exists o :: o in owned && Reaches(h, v, o)
  }

  lemma LeadsInMore(h: Heap, more: Heap, owned: set<Id>, v: Value)
    requires Closed(h) && IsIn(h, v) && Extends(h, more)
    ensures LeadsIn(more, owned, v) <==> LeadsIn(h, owned, v)
  {
    forall o
      ensures Reaches(more, v, o) <==> Reaches(h, v, o)
    {
      ReachesMore(h, more, v, o);
    }
  }

  lemma LeadsInChild(h: Heap, owned: set<Id>, v: Value)
    ensures v.Ref? && v.id in owned ==> LeadsIn(h, owned, v)
    ensures v.Leaf? ==> !LeadsIn(h, owned, v)
    ensures v.Ref? && v.id !in owned ==>
              (LeadsIn(h, owned, v) <==> exists i :: 0 <= i < |Kids(h, v)| && LeadsIn(h, owned, Kids(h, v)[i]))
  {
    if v.Ref? && v.id in owned {
      ReachesItself(h, v.id);
    } else if v.Leaf? {
      forall o
        ensures !Reaches(h, v, o)
      {
        if Reaches(h, v, o) {
          var i := ReachesBy(h, v, o);
        }
      }
    } else {
      if LeadsIn(h, owned, v) {
        var o :| o in owned && Reaches(h, v, o);
        var i := ReachesBy(h, v, o);
        assert LeadsIn(h, owned, Kids(h, v)[i]);
      }
      if i :| 0 <= i < |Kids(h, v)| && LeadsIn(h, owned, Kids(h, v)[i]) {
        var o :| o in owned && Reaches(h, Kids(h, v)[i], o);
        ReachesChild(h, v, i, o);
      }
    }
  }

  /** Changing an object of the clone does not change what leads to the clone. */
  lemma {:induction false} FollowChanged(h: Heap, owned: set<Id>, target: Id, node: Node, v: Value, p: seq<nat>)
    requires target in owned && v.Ref? && Follow(h, v, p).Some? && Follow(h, v, p).value.Ref?
             && Follow(h, v, p).value.id in owned
    ensures LeadsIn(h[target := node], owned, v)
    decreases |p|
  {
    var after := h[target := node];
    LeadsInChild(after, owned, v);
    if v.id !in owned {
      assert Kids(after, v) == Kids(h, v);
      FollowChanged(h, owned, target, node, Kids(h, v)[p[0]], p[1..]);
    }
  }

  lemma LeadsInChanged(h: Heap, owned: set<Id>, target: Id, node: Node, v: Value)
    requires target in owned && target in h && v.Ref?
    ensures LeadsIn(h[target := node], owned, v) <==> LeadsIn(h, owned, v)
  {
    var after := h[target := node];
    if LeadsIn(h, owned, v) {
      var o :| o in owned && Reaches(h, v, o);
      var p :| Follow(h, v, p) == Some(Ref(o));
      FollowChanged(h, owned, target, node, v, p);
    }
    if LeadsIn(after, owned, v) {
      var o :| o in owned && Reaches(after, v, o);
      var p :| Follow(after, v, p) == Some(Ref(o));
      FollowChanged(after, owned, target, h[target], v, p);
      assert after[target := h[target]] == h;
    }
  }

  /** y stands for x in the copy: x's copy if x reaches the target, or x itself. */
  ghost predicate Mapped(h: Heap, target: Id, copies: map<Id, Id>, x: Value, y: Value) {
    if Reaches(h, x, target) then x.Ref? && x.id in copies && y == Ref(copies[x.id]) else y == x
  }

  /** copies[id] is a copy of id, as far as id leads to the target, whose own copy keeps its children. */
  ghost predicate CopyOf(h: Heap, more: Heap, target: Id, copies: map<Id, Id>, id: Id)
    requires id in copies
  {
    var c := copies[id];
    && id in h && c !in h && c in more && Reaches(h, Ref(id), target)
    && if id == target then more[c] == h[id]
       else
         && more[c].ArrNode? == h[id].ArrNode? && |Children(more[c])| == |Children(h[id])|
         && (h[id].ObjNode? ==> SameKeys(h[id].entries, more[c].entries))
         && forall i :: 0 <= i < |Children(h[id])| ==>
             Mapped(h, target, copies, Children(h[id])[i], Children(more[c])[i])
  }

  ghost predicate SameKeys(a: seq<Entry>, b: seq<Entry>) {
    |a| == |b| && forall i :: 0 <= i < |a| ==> a[i].key == b[i].key
  }

  ghost predicate Copies(h: Heap, more: Heap, target: Id, copies: map<Id, Id>) {
    forall id :: id in copies ==> CopyOf(h, more, target, copies, id)
  }

  /** No copy reaches the target. */
  lemma {:induction false} CopyAvoids(h: Heap, rank: map<Id, nat>, more: Heap, target: Id, copies: map<Id, Id>, id: Id)
    requires Ranked(h, rank) && Extends(h, more) && target in h && Copies(h, more, target, copies) && id in copies
    ensures !Reaches(more, Ref(copies[id]), target)
    decreases RankOf(rank, Ref(id))
  {
    assert CopyOf(h, more, target, copies, id);
    var c := copies[id];
    if Reaches(more, Ref(c), target) {
      var i := ReachesBy(more, Ref(c), target);
      var x, y := Children(h[id])[i], Children(more[c])[i];
      KidLower(h, rank, Ref(id), i);
      if id == target || !Reaches(h, x, target) {
        ReachesMore(h, more, x, target);
        ReachesLower(h, rank, x, target);
      } else {
        assert Mapped(h, target, copies, x, y);
        CopyAvoids(h, rank, more, target, copies, x.id);
      }
    }
  }

  lemma {:induction false} UnfoldAt(h: Heap, rank: map<Id, nat>, vs: seq<Value>, below: nat, i: nat)
    requires Ranked(h, rank) && AllIn(h, vs) && (forall k :: 0 <= k < |vs| ==> RankOf(rank, vs[k]) < below) && i < |vs|
    ensures IsIn(h, vs[i]) && UnfoldAll(h, rank, vs, below)[i] == Unfold(h, rank, vs[i])
  {
    if i > 0 {
      UnfoldAt(h, rank, vs[1..], below, i - 1);
    }
  }

  lemma {:induction false} ZipKeys(a: seq<Entry>, b: seq<Entry>, values: seq<Tree>)
    requires SameKeys(a, b)
    ensures Zip(a, values) == Zip(b, values)
  {
    if a != [] && values != [] {
      ZipKeys(a[1..], b[1..], values[1..]);
    }
  }

  /** A container unfolds as its children do. */
  ghost function Built(n: Node, kids: seq<Tree>): Tree {
    if n.ArrNode? then ArrTree(kids) else ObjTree(Zip(n.entries, kids))
  }

  lemma UnfoldKids(h: Heap, rank: map<Id, nat>, id: Id) returns (kids: seq<Tree>)
    requires Ranked(h, rank) && id in h
    ensures Unfold(h, rank, Ref(id)) == Built(h[id], kids) && |kids| == |Children(h[id])|
    ensures forall i :: 0 <= i < |kids| ==>
              && IsIn(h, Children(h[id])[i])
              && kids[i] == Unfold(h, rank, Children(h[id])[i])
  {
    assert Lower(h, rank, id) && AllIn(h, Children(h[id]));
    kids := UnfoldAll(h, rank, Children(h[id]), rank[id] + 1);
    forall i | 0 <= i < |kids|
      ensures kids[i] == Unfold(h, rank, Children(h[id])[i])
    {
      UnfoldAt(h, rank, Children(h[id]), rank[id] + 1, i);
    }
  }

  /** Two containers alike but for children that unfold alike. */
  lemma UnfoldAlike(h: Heap, rank: map<Id, nat>, a: Id, more: Heap, ranks: map<Id, nat>, b: Id)
    requires Ranked(h, rank) && a in h && Ranked(more, ranks) && b in more
    requires h[a].ArrNode? == more[b].ArrNode? && (h[a].ObjNode? ==> SameKeys(h[a].entries, more[b].entries))
    requires |Children(h[a])| == |Children(more[b])|
    requires forall i :: 0 <= i < |Children(h[a])| ==> AlikeAt(h, rank, a, more, ranks, b, i)
    ensures Unfold(more, ranks, Ref(b)) == Unfold(h, rank, Ref(a))
  {
    var kids := UnfoldKids(h, rank, a);
    var others := UnfoldKids(more, ranks, b);
    forall i | 0 <= i < |kids|
      ensures kids[i] == others[i]
    {
      assert AlikeAt(h, rank, a, more, ranks, b, i);
    }
    assert kids == others;
    if h[a].ObjNode? {
      ZipKeys(h[a].entries, more[b].entries, kids);
    }
  }

  ghost predicate AlikeAt(h: Heap, rank: map<Id, nat>, a: Id, more: Heap, ranks: map<Id, nat>, b: Id, i: nat)
    requires Ranked(h, rank) && a in h && Ranked(more, ranks) && b in more
    requires i < |Children(h[a])| == |Children(more[b])|
  {
    var x, y := Children(h[a])[i], Children(more[b])[i];
    IsIn(h, x) && IsIn(more, y) && Unfold(more, ranks, y) == Unfold(h, rank, x)
  }

  /** More memory does not change what a value stands for. */
  lemma {:induction false} UnfoldMore(h: Heap, rank: map<Id, nat>, more: Heap, ranks: map<Id, nat>, v: Value)
    requires Ranked(h, rank) && Ranked(more, ranks) && Extends(h, more) && IsIn(h, v)
    ensures Unfold(more, ranks, v) == Unfold(h, rank, v)
    decreases RankOf(rank, v)
  {
    if v.Ref? {
      forall i | 0 <= i < |Kids(h, v)|
        ensures AlikeAt(h, rank, v.id, more, ranks, v.id, i)
      {
        KidLower(h, rank, v, i);
        UnfoldMore(h, rank, more, ranks, Kids(h, v)[i]);
      }
      UnfoldAlike(h, rank, v.id, more, ranks, v.id);
    }
  }

  /** A copy stands for what it copies. */
  lemma {:induction false} CopyUnfolds(h: Heap, rank: map<Id, nat>, more: Heap, ranks: map<Id, nat>, target: Id,
                                       copies: map<Id, Id>, x: Value, y: Value)
    requires Ranked(h, rank) && Ranked(more, ranks) && Extends(h, more) && Copies(h, more, target, copies)
    requires IsIn(h, x) && Mapped(h, target, copies, x, y)
    ensures IsIn(more, y) && Unfold(more, ranks, y) == Unfold(h, rank, x)
    decreases RankOf(rank, x)
  {
    if !Reaches(h, x, target) {
      UnfoldMore(h, rank, more, ranks, x);
    } else {
      var c := copies[x.id];
      assert CopyOf(h, more, target, copies, x.id);
      forall i | 0 <= i < |Children(h[x.id])|
        ensures AlikeAt(h, rank, x.id, more, ranks, c, i)
      {
        KidLower(h, rank, x, i);
        var kid := Children(h[x.id])[i];
        if x.id == target {
          UnfoldMore(h, rank, more, ranks, kid);
        } else {
          assert Mapped(h, target, copies, kid, Children(more[c])[i]);
          CopyUnfolds(h, rank, more, ranks, target, copies, kid, Children(more[c])[i]);
        }
      }
      UnfoldAlike(h, rank, x.id, more, ranks, c);
    }
  }

  ghost function Top(rank: map<Id, nat>, ids: set<Id>): (m: nat)
    requires ids <= rank.Keys
    ensures forall id :: id in ids ==> rank[id] < m
  {
    if ids == {} then 0
    else
      var id :| id in ids;
      var m := Top(rank, ids - {id});
      if rank[id] < m then m else rank[id] + 1
  }

  /** Ranks once an object holds values that do not reach it: it and what reaches it rank above the rest. */
  ghost function Raised(h: Heap, rank: map<Id, nat>, target: Id): map<Id, nat>
    requires rank.Keys == h.Keys
  {
    map id | id in h :: if Reaches(h, Ref(id), target) then rank[id] + Top(rank, h.Keys) else rank[id]
  }

  /** An object given values that do not reach it does not hold itself. */
  lemma MergeRanked(h: Heap, rank: map<Id, nat>, target: Id, node: Node)
    requires Ranked(h, rank) && target in h && AllIn(h, Children(node))
    requires forall i :: 0 <= i < |Children(node)| ==> !Reaches(h, Children(node)[i], target)
    ensures Ranked(h[target := node], Raised(h, rank, target))
  {
    var after, ranks := h[target := node], Raised(h, rank, target);
    assert after.Keys == h.Keys;
    forall id | id in after
      ensures Lower(after, ranks, id) && AllIn(after, Children(after[id]))
    {
      if id == target {
        ReachesItself(h, target);
      } else {
        assert Lower(h, rank, id) && AllIn(h, Children(h[id]));
        forall i | 0 <= i < |Children(h[id])|
          ensures RankOf(ranks, Children(h[id])[i]) < ranks[id] + 1
        {
          if Reaches(h, Children(h[id])[i], target) {
            ReachesChild(h, Ref(id), i, target);
          }
        }
      }
    }
  }

  /** Sets a key: its value is replaced in place, or it is added last. */
  function SetEntry(entries: seq<Entry>, key: string, value: Value): seq<Entry> {
    if entries == [] then [Entry(key, value)]
    else if entries[0].key == key then [Entry(key, value)] + entries[1..]
    else [entries[0]] + SetEntry(entries[1..], key, value)
  }

  function SetAll(entries: seq<Entry>, more: seq<Entry>): seq<Entry>
    decreases |more|
  {
    if more == [] then entries else SetAll(SetEntry(entries, more[0].key, more[0].value), more[1..])
  }

  function Without(entries: seq<Entry>, key: string): seq<Entry> {
    if entries == [] then []
    else if entries[0].key == key then Without(entries[1..], key)
    else [entries[0]] + Without(entries[1..], key)
  }

  /** Every value is in memory and does not reach the target. */
  ghost predicate Clear(h: Heap, target: Id, vs: seq<Value>) {
    AllIn(h, vs) && forall i :: 0 <= i < |vs| ==> !Reaches(h, vs[i], target)
  }

  lemma {:induction false} SetEntryClear(h: Heap, target: Id, entries: seq<Entry>, key: string, value: Value)
    requires Clear(h, target, EntryValues(entries)) && IsIn(h, value) && !Reaches(h, value, target)
    ensures Clear(h, target, EntryValues(SetEntry(entries, key, value)))
  {
    if entries != [] {
      var rest := SetEntry(entries[1..], key, value);
      var tail := EntryValues(entries)[1..];
      assert Clear(h, target, tail);
      if entries[0].key == key {
        assert ([Entry(key, value)] + entries[1..])[1..] == entries[1..];
      } else {
        SetEntryClear(h, target, entries[1..], key, value);
        assert ([entries[0]] + rest)[1..] == rest;
      }
    }
  }

  lemma {:induction false} SetAllClear(h: Heap, target: Id, entries: seq<Entry>, more: seq<Entry>)
    requires Clear(h, target, EntryValues(entries)) && Clear(h, target, EntryValues(more))
    ensures Clear(h, target, EntryValues(SetAll(entries, more)))
    decreases |more|
  {
    if more != [] {
      assert Clear(h, target, EntryValues(more)[1..]);
      assert EntryValues(more)[0] == more[0].value;
      SetEntryClear(h, target, entries, more[0].key, more[0].value);
      SetAllClear(h, target, SetEntry(entries, more[0].key, more[0].value), more[1..]);
    }
  }

  lemma {:induction false} WithoutClear(h: Heap, target: Id, entries: seq<Entry>, key: string)
    requires Clear(h, target, EntryValues(entries))
    ensures Clear(h, target, EntryValues(Without(entries, key)))
  {
    if entries != [] {
      assert Clear(h, target, EntryValues(entries)[1..]);
      WithoutClear(h, target, entries[1..], key);
      var rest := Without(entries[1..], key);
      assert ([entries[0]] + rest)[1..] == rest && EntryValues(entries)[0] == entries[0].value;
    }
  }

  /** An object's own values do not reach it. */
  lemma OwnClear(h: Heap, rank: map<Id, nat>, target: Id)
    requires Ranked(h, rank) && target in h
    ensures Clear(h, target, Children(h[target]))
  {
    assert AllIn(h, Children(h[target]));
    forall i | 0 <= i < |Children(h[target])|
      ensures !Reaches(h, Children(h[target])[i], target)
    {
      KidLower(h, rank, Ref(target), i);
      if Reaches(h, Children(h[target])[i], target) {
        ReachesLower(h, rank, Children(h[target])[i], target);
      }
    }
  }

  /** The values of an object that does not reach the target do not either. */
  lemma UpdateClear(h: Heap, target: Id, update: Id)
    requires Closed(h) && update in h && !Reaches(h, Ref(update), target)
    ensures Clear(h, target, Children(h[update]))
  {
    assert AllIn(h, Children(h[update]));
    forall i | 0 <= i < |Children(h[update])|
      ensures !Reaches(h, Children(h[update])[i], target)
    {
      if Reaches(h, Children(h[update])[i], target) {
        ReachesChild(h, Ref(update), i, target);
      }
    }
  }

  /** An object's keys with other values. */
  function Rekey(entries: seq<Entry>, values: seq<Value>): seq<Entry>
    requires |entries| == |values|
  {
    if entries == [] then [] else [Entry(entries[0].key, values[0])] + Rekey(entries[1..], values[1..])
  }

  lemma {:induction false} EntryCount(entries: seq<Entry>)
    ensures |EntryValues(entries)| == |entries|
  {
    if entries != [] {
      EntryCount(entries[1..]);
    }
  }

  lemma {:induction false} Rekeyed(entries: seq<Entry>, values: seq<Value>)
    requires |entries| == |values|
    ensures SameKeys(entries, Rekey(entries, values)) && EntryValues(Rekey(entries, values)) == values
  {
    if entries != [] {
      Rekeyed(entries[1..], values[1..]);
    }
  }

  /** A container with its children copied is a copy of it. */
  lemma CopyMade(h: Heap, heap: Heap, target: Id, copies: map<Id, Id>, id: Id, c: Id, node: Node)
    requires Closed(h) && Extends(h, heap) && id in h && id !in copies && id != target && c !in heap
             && Reaches(h, Ref(id), target)
    requires node.ArrNode? == h[id].ArrNode? && |Children(node)| == |Children(h[id])|
    requires h[id].ObjNode? ==> SameKeys(h[id].entries, node.entries)
    requires forall i :: 0 <= i < |Children(node)| ==> Mapped(h, target, copies, Children(h[id])[i], Children(node)[i])
    ensures CopyOf(h, heap[c := node], target, copies[id := c], id)
  {
    var now := copies[id := c];
    forall i | 0 <= i < |Children(node)|
      ensures Mapped(h, target, now, Children(h[id])[i], Children(node)[i])
    {
      assert Mapped(h, target, copies, Children(h[id])[i], Children(node)[i]);
    }
  }

  lemma LeafSafeMore(h: Heap, more: Heap, s: Search, v: Value)
    requires Closed(h) && Extends(h, more) && IsIn(h, v) && LeafSafe(h, s, v) && forall o :: o in s.owned ==> o in h
    ensures LeafSafe(more, s, v)
  {
    forall o | o in s.owned && o != s.target && Reaches(more, v, o)
      ensures s.ownedLeaf ==> !Reaches(more, Ref(o), s.target)
    {
      ReachesMore(h, more, v, o);
      ReachesMore(h, more, Ref(o), s.target);
    }
  }

  lemma RankedIsClosed(h: Heap, rank: map<Id, nat>)
    requires Ranked(h, rank)
    ensures Closed(h) && rank.Keys == h.Keys
  {
  }

  /** Adding a copy keeps the others. */
  lemma Grown(h: Heap, heap: Heap, more: Heap, target: Id, copies: map<Id, Id>, id: Id, c: Id)
    requires Extends(h, heap) && Copies(h, heap, target, copies) && Extends(heap, more)
    requires id !in copies && CopyOf(h, more, target, copies[id := c], id)
    ensures Extends(h, more) && Copies(h, more, target, copies[id := c])
    ensures forall x :: x in copies ==> x in h && copies[x] in heap
  {
    assert forall x :: x in copies ==> CopyOf(h, heap, target, copies, x);
    var now := copies[id := c];
    forall x | x in now
      ensures CopyOf(h, more, target, now, x)
    {
      if x != id {
        assert CopyOf(h, heap, target, copies, x);
        forall i | 0 <= i < |Children(h[x])| && x != target
          ensures Mapped(h, target, now, Children(h[x])[i], Children(more[now[x]])[i])
        {
          assert Mapped(h, target, copies, Children(h[x])[i], Children(heap[copies[x]])[i]);
        }
      }
    }
  }

  /** A copy ranks as what it copies. */
  lemma CopyRanked(h: Heap, ranks: map<Id, nat>, heap: Heap, rank: map<Id, nat>, target: Id, copies: map<Id, Id>,
                   id: Id, c: Id, node: Node)
    requires Ranked(h, ranks) && Ranked(heap, rank) && Extends(h, heap) && Copies(h, heap, target, copies)
    requires id in h && id !in copies && c !in heap && CopyOf(h, heap[c := node], target, copies[id := c], id)
    requires (forall x :: x in h ==> rank[x] == ranks[x]) && (forall x :: x in copies ==> rank[copies[x]] == ranks[x])
    ensures Ranked(heap[c := node], rank[c := ranks[id]])
  {
    var more, now := heap[c := node], rank[c := ranks[id]];
    forall x | x in more
      ensures Lower(more, now, x) && AllIn(more, Children(more[x]))
    {
      if x == c {
        CopyLower(h, ranks, heap, rank, target, copies, id, c, node);
      } else {
        assert Lower(heap, rank, x) && AllIn(heap, Children(heap[x]));
      }
    }
  }

  lemma CopyLower(h: Heap, ranks: map<Id, nat>, heap: Heap, rank: map<Id, nat>, target: Id, copies: map<Id, Id>,
                  id: Id, c: Id, node: Node)
    requires Ranked(h, ranks) && Ranked(heap, rank) && Extends(h, heap) && Copies(h, heap, target, copies)
    requires id in h && id !in copies && c !in heap && CopyOf(h, heap[c := node], target, copies[id := c], id)
    requires (forall x :: x in h ==> rank[x] == ranks[x]) && (forall x :: x in copies ==> rank[copies[x]] == ranks[x])
    ensures forall i :: 0 <= i < |Children(node)| ==>
              && IsIn(heap, Children(node)[i])
              && RankOf(rank, Children(node)[i]) < ranks[id] + 1
  {
    forall i | 0 <= i < |Children(node)|
      ensures IsIn(heap, Children(node)[i]) && RankOf(rank, Children(node)[i]) < ranks[id] + 1
    {
      var x, y := Children(h[id])[i], Children(node)[i];
      KidLower(h, ranks, Ref(id), i);
      if id != target {
        assert Mapped(h, target, copies[id := c], x, y);
        if Reaches(h, x, target) {
          assert x.id != id;
          assert CopyOf(h, heap, target, copies, x.id);
        }
      }
    }
  }

  /** An object of the clone, or what leads to none, does not reach the target. */
  lemma LeafSafeMeans(h: Heap, rank: map<Id, nat>, s: Search, v: Value)
    requires Ranked(h, rank) && IsIn(h, v) && LeafSafe(h, s, v)
    ensures v.Ref? && v != Ref(s.target) && s.ownedLeaf && v.id in s.owned ==> !Reaches(h, v, s.target)
    ensures !LeadsIn(h, s.owned, v) ==> !Reaches(h, v, s.target)
  {
    if v.Ref? {
      ReachesItself(h, v.id);
    }
  }

  lemma LeafReaches(h: Heap, v: Value, target: Id)
    ensures v.Leaf? ==> !Reaches(h, v, target)
  {
    if v.Leaf? && Reaches(h, v, target) {
      var i := ReachesBy(h, v, target);
    }
  }
}
