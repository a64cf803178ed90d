/** A bounded cache of plans: a ring of entries, the oldest evicted first, and a published snapshot
    of it that is read without a lock. */
module PlanCache {
  import opened Wrappers
  import opened Plans

  datatype CacheEntry = CacheEntry(key: string, plan: GroupPlan)

  /** The entries, oldest first, and where each key is among them. */
  datatype Snapshot = Snapshot(entries: seq<CacheEntry>, index: map<string, nat>)

  /** A key's plan. */
  function Find(entries: seq<CacheEntry>, key: string): Option<GroupPlan> {
    if entries == [] then None
    else if entries[0].key == key then Some(entries[0].plan)
    else Find(entries[1..], key)
  }

  /** The cache is first in, first out: a key already there keeps its place and its plan, and when the
      cache is full the entry longest there makes way for a new key. */
  function Put(entries: seq<CacheEntry>, capacity: nat, key: string, plan: GroupPlan): seq<CacheEntry>
    requires capacity > 0
  {
    if Find(entries, key).Some? then entries
    else (if |entries| >= capacity then entries[1..] else entries) + [CacheEntry(key, plan)]
  }

  ghost predicate DistinctKeys(entries: seq<CacheEntry>) {
    forall i, j :: 0 <= i < j < |entries| ==> entries[i].key != entries[j].key
  }

  lemma {:induction false} FindAt(entries: seq<CacheEntry>, key: string)
    ensures Find(entries, key).None? <==> forall i :: 0 <= i < |entries| ==> entries[i].key != key
    ensures DistinctKeys(entries) ==> forall i :: 0 <= i < |entries| && entries[i].key == key ==>
            Find(entries, key) == Some(entries[i].plan)
  {
    if entries != [] {
      var rest := entries[1..];
      FindAt(rest, key);
      assert forall i :: 0 < i < |entries| ==> entries[i] == rest[i - 1];
      assert DistinctKeys(entries) ==> DistinctKeys(rest);
    }
  }

  /** What Put keeps: the keys stay distinct and within the capacity, the new key has a plan, and every
      other key keeps its plan unless it was the oldest of a full cache. */
  lemma PutKeeps(entries: seq<CacheEntry>, capacity: nat, key: string, plan: GroupPlan, other: string)
    requires capacity > 0 && DistinctKeys(entries) && |entries| <= capacity
    ensures var after := Put(entries, capacity, key, plan);
            && DistinctKeys(after) && |after| <= capacity
            && Find(after, key) == (if Find(entries, key).Some? then Find(entries, key) else Some(plan))
            && (other != key ==>
                  Find(after, other) ==
                  if Find(entries, key).None? && |entries| == capacity && entries[0].key == other then None
                  else Find(entries, other))
  {
    hide DistinctKeys, Find;
    if Find(entries, key).None? {
      var kept := Room(entries, capacity);
      Kept(entries, capacity, key);
      Added(kept, key, plan);
      FindKept(kept, key, plan, other);
      if entries != [] {
        Dropped(entries, other);
      }
    }
  }

  /** The entries that stay when a new one comes. */
  function Room(entries: seq<CacheEntry>, capacity: nat): seq<CacheEntry>
    requires capacity > 0
  {
    if |entries| >= capacity then entries[1..] else entries
  }

  lemma Kept(entries: seq<CacheEntry>, capacity: nat, key: string)
    requires capacity > 0 && DistinctKeys(entries) && Find(entries, key).None?
    ensures DistinctKeys(Room(entries, capacity)) && Find(Room(entries, capacity), key).None?
  {
    hide Find;
    var kept := Room(entries, capacity);
    var gone := |entries| - |kept|;
    FindAt(entries, key);
    assert kept == entries[gone..];
    hide Room;
    forall i, j | 0 <= i < j < |kept|
      ensures kept[i].key != kept[j].key
    {
      assert kept[i] == entries[i + gone] && kept[j] == entries[j + gone];
    }
    forall i | 0 <= i < |kept|
      ensures kept[i].key != key
    {
      assert kept[i] == entries[i + gone];
    }
    FindAt(kept, key);
  }

  lemma Added(kept: seq<CacheEntry>, key: string, plan: GroupPlan)
    requires DistinctKeys(kept) && Find(kept, key).None?
    ensures DistinctKeys(kept + [CacheEntry(key, plan)]) && Find(kept + [CacheEntry(key, plan)], key) == Some(plan)
  {
    hide Find;
    var after := kept + [CacheEntry(key, plan)];
    FindAt(kept, key);
    FindAt(after, key);
    assert after[|kept|] == CacheEntry(key, plan);
  }

  /** Without its oldest entry a cache has no plan for that one's key, and the same for the others. */
  lemma Dropped(entries: seq<CacheEntry>, other: string)
    requires DistinctKeys(entries) && entries != []
    ensures Find(entries[1..], other) == if entries[0].key == other then None else Find(entries, other)
  {
    var rest := entries[1..];
    FindAt(rest, other);
    assert forall i :: 0 <= i < |rest| ==> rest[i] == entries[i + 1];
  }

  lemma {:induction false} FindKept(kept: seq<CacheEntry>, key: string, plan: GroupPlan, other: string)
    ensures other != key ==> Find(kept + [CacheEntry(key, plan)], other) == Find(kept, other)
  {
    var after := kept + [CacheEntry(key, plan)];
    if kept == [] {
      assert after[1..] == [];
    } else {
      assert after[1..] == kept[1..] + [CacheEntry(key, plan)];
      FindKept(kept[1..], key, plan, other);
    }
  }

  /** Where in a ring the entry that is i-th oldest is. */
  function SlotOf(head: nat, count: nat, capacity: nat, i: nat): (slot: nat)
    requires head < capacity && i < count <= capacity
    ensures slot < capacity
  {
    (head - count + i + capacity) % capacity
  }

  lemma ModNear(x: nat, m: nat)
    requires 0 < m && x < 2 * m
    ensures x % m == if x < m then x else x - m
  {
    if x >= m {
      assert x == m + (x - m);
    }
  }

  /** Once an entry is put at the head, the newest is there, and the others are where they were. */
  lemma SlotNext(head: nat, count: nat, capacity: nat, i: nat)
    requires head < capacity && count <= capacity && i < (if count < capacity then count + 1 else capacity)
    ensures var after := if count < capacity then count + 1 else capacity;
            (head + 1) % capacity < capacity &&
            SlotOf((head + 1) % capacity, after, capacity, i) ==
            if i == after - 1 then head else SlotOf(head, count, capacity, if count < capacity then i else i + 1)
    ensures i < count && (count == capacity ==> i > 0) ==> SlotOf(head, count, capacity, i) != head
  {
    ModNear(head + 1, capacity);
    var next := (head + 1) % capacity;
    var after := if count < capacity then count + 1 else capacity;
    ModNear(next - after + i + capacity, capacity);
    var was := if count < capacity then i else i + 1;
    if was < count {
      ModNear(head - count + was + capacity, capacity);
    }
    if i < count {
      ModNear(head - count + i + capacity, capacity);
    }
  }

  class BoundedCache {
    const capacity: nat
    const entries: array<Option<CacheEntry>>
    var head: nat
    var count: nat
    var snapshot: Snapshot
    var hits: nat
    var misses: nat
    var evictions: nat

    /** Where the entry that is i-th oldest is. */
    function Slot(i: nat): nat
      requires capacity > 0 && head < capacity && i < count <= capacity
      reads `head, `count
    {
      SlotOf(head, count, capacity, i)
    }

    ghost predicate RingFits()
      reads `head, `count
    {
      capacity > 0 && entries.Length == capacity && head < capacity && count <= capacity
    }

    /** The snapshot is the ring, oldest first, and its keys are distinct and indexed. */
    ghost predicate Valid()
      reads `head, `count, `snapshot, entries
    {
      && RingFits() && Indexed(snapshot) && |snapshot.entries| == count
      && forall i :: 0 <= i < count ==> entries[Slot(i)] == Some(snapshot.entries[i])
    }

    /** What the cache holds, oldest first. */
    ghost function Contents(): seq<CacheEntry>
      reads `snapshot
    {
      snapshot.entries
    }

    constructor (capacity: int)
      ensures Valid() && Contents() == [] && fresh(entries)
      ensures this.capacity == if capacity <= 0 then 1 else capacity
      ensures hits == misses == evictions == 0
    {
      var size := if capacity <= 0 then 1 else capacity;
      this.capacity := size;
      entries := new Option<CacheEntry>[size](_ => None);
      head, count := 0, 0;
      snapshot := Snapshot([], map[]);
      hits, misses, evictions := 0, 0, 0;
    }

    /** The plan of a key, counted as a hit or a miss. */
    method Get(key: string) returns (plan: Option<GroupPlan>)
      requires Valid()
      modifies this`hits, this`misses
      ensures Valid() && plan == Find(Contents(), key)
      ensures hits == old(hits) + (if plan.Some? then 1 else 0) && misses == old(misses) + if plan.Some? then 0 else 1
    {
      FindAt(snapshot.entries, key);
      if key in snapshot.index {
        hits := hits + 1;
        plan := Some(snapshot.entries[snapshot.index[key]].plan);
      } else {
        misses := misses + 1;
        plan := None;
      }
    }

    /** Adds a key's plan, unless it has one, and says whether the oldest entry made way. */
    method Set(key: string, plan: GroupPlan) returns (evicted: bool)
      requires Valid()
      modifies this`head, this`count, this`snapshot, this`evictions, entries
      ensures Valid() && Contents() == Put(old(Contents()), capacity, key, plan)
      ensures evicted == (Find(old(Contents()), key).None? && |old(Contents())| == capacity)
      ensures evictions == old(evictions) + if evicted then 1 else 0
    {
      hide Find, SlotOf, DistinctKeys;
      ghost var was, target, before, head0 := snapshot.entries, Put(snapshot.entries, capacity, key, plan),
          entries[..], head;
      FindAt(snapshot.entries, key);
      if key in snapshot.index {
        return false;
      }
      evicted := count >= capacity;
      if evicted {
        evictions := evictions + 1;
      }
      entries[head] := Some(CacheEntry(key, plan));
      head := (head + 1) % capacity;
      if count < capacity {
        count := count + 1;
      }
      PutKeeps(was, capacity, key, plan, key);
      RingHolds(was, key, plan, before, head0);
      Publish(target);
    }

    /** Publishes the ring's entries, oldest first. */
    method Publish(ghost target: seq<CacheEntry>)
      requires RingFits() && |target| == count && DistinctKeys(target)
      requires forall i :: 0 <= i < count ==> entries[Slot(i)] == Some(target[i])
      modifies this`snapshot
      ensures Valid() && Contents() == target
    {
      hide SlotOf, DistinctKeys;
      var more: seq<CacheEntry> := [];
      var index: map<string, nat> := map[];
      for i := 0 to count
        invariant more == target[..i]
        invariant forall k :: k in index ==> index[k] < i && target[index[k]].key == k
        invariant forall j :: 0 <= j < i ==> target[j].key in index
      {
        var entry := entries[Slot(i)].value;
        more := more + [entry];
        index := index[entry.key := i];
      }
      assert more == target;
      snapshot := Snapshot(more, index);
    }

    /** The ring holds what Put gives once the entry is at what was the head. */
    lemma RingHolds(was: seq<CacheEntry>, key: string, plan: GroupPlan, before: seq<Option<CacheEntry>>, head0: nat)
      requires RingFits() && |was| <= capacity == |before| && head0 < capacity && Find(was, key).None?
      requires forall i :: 0 <= i < |was| ==> before[SlotOf(head0, |was|, capacity, i)] == Some(was[i])
      requires entries[..] == before[head0 := Some(CacheEntry(key, plan))]
      requires head == (head0 + 1) % capacity && count == if |was| < capacity then |was| + 1 else capacity
      ensures var target := Put(was, capacity, key, plan);
              |target| == count && forall i :: 0 <= i < count ==> entries[Slot(i)] == Some(target[i])
    {
      hide SlotOf;
      var target := Put(was, capacity, key, plan);
      forall i | 0 <= i < count
        ensures entries[Slot(i)] == Some(target[i])
      {
        SlotNext(head0, |was|, capacity, i);
        assert entries[Slot(i)] == entries[..][Slot(i)];
        if i < count - 1 {
          var j := if |was| < capacity then i else i + 1;
          SlotNext(head0, |was|, capacity, j);
          assert target[i] == was[j];
        }
      }
    }

    /** Clears the cache. */
    method Invalidate()
      requires Valid()
      modifies this`head, this`count, this`snapshot, entries
      ensures Valid() && Contents() == []
    {
      for i := 0 to capacity {
        entries[i] := None;
      }
      head, count := 0, 0;
      snapshot := Snapshot([], map[]);
    }
  }

  ghost predicate Indexed(s: Snapshot) {
    && DistinctKeys(s.entries)
    && (forall k :: k in s.index ==> s.index[k] < |s.entries| && s.entries[s.index[k]].key == k)
    && forall i :: 0 <= i < |s.entries| ==> s.entries[i].key in s.index
  }
}
