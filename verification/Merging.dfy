/** Merging the entries of one object into another, in memory and on what they stand for. */
module Merging {
  import opened Trees
  import opened ObjectGraph
  import opened Detach

  /** The fields with others set one after another. */
  function SetFields(fields: seq<Field>, more: seq<Field>): seq<Field>
    decreases |more|
  {
    if more == [] then fields else SetFields(SetField(fields, more[0].key, more[0].value), more[1..])
  }

  function DropField(fields: seq<Field>, key: string): seq<Field> {
    if fields == [] then []
    else if fields[0].key == key then DropField(fields[1..], key)
    else [fields[0]] + DropField(fields[1..], key)
  }

  function DropFields(fields: seq<Field>, keys: seq<string>): seq<Field>
    decreases |keys|
  {
    if keys == [] then fields else DropFields(DropField(fields, keys[0]), keys[1..])
  }

  function WithoutAll(entries: seq<Entry>, keys: seq<string>): seq<Entry>
    decreases |keys|
  {
    if keys == [] then entries else WithoutAll(Without(entries, keys[0]), keys[1..])
  }

  lemma {:induction false} SetAllLast(entries: seq<Entry>, more: seq<Entry>)
    requires more != []
    ensures var n := |more| - 1;
            SetAll(entries, more) ==
            SetEntry(SetAll(entries, more[..n]), more[n].key, more[n].value)
    decreases |more|
  {
    var n := |more| - 1;
    if n > 0 {
      SetAllLast(SetEntry(entries, more[0].key, more[0].value), more[1..]);
      assert more[..n][1..] == more[1..][..n - 1];
    }
  }

  lemma {:induction false} WithoutAllLast(entries: seq<Entry>, keys: seq<string>)
    requires keys != []
    ensures var n := |keys| - 1; WithoutAll(entries, keys) == Without(WithoutAll(entries, keys[..n]), keys[n])
    decreases |keys|
  {
    var n := |keys| - 1;
    if n > 0 {
      WithoutAllLast(Without(entries, keys[0]), keys[1..]);
      assert keys[..n][1..] == keys[1..][..n - 1];
    }
  }

  lemma {:induction false} WithoutAllClear(h: Heap, target: Id, entries: seq<Entry>, keys: seq<string>)
    requires Clear(h, target, EntryValues(entries))
    ensures Clear(h, target, EntryValues(WithoutAll(entries, keys)))
    decreases |keys|
  {
    if keys != [] {
      WithoutClear(h, target, entries, keys[0]);
      WithoutAllClear(h, target, Without(entries, keys[0]), keys[1..]);
    }
  }

  /** What some entries stand for. */
  ghost function FieldsOf(h: Heap, rank: map<Id, nat>, entries: seq<Entry>): seq<Field>
    requires Ranked(h, rank) && AllIn(h, EntryValues(entries))
  {
    if entries == [] then []
    else
      TailIn(h, entries);
      [Field(entries[0].key, Unfold(h, rank, entries[0].value))] + FieldsOf(h, rank, entries[1..])
  }

  lemma {:induction false} TailIn(h: Heap, entries: seq<Entry>)
    requires entries != [] && AllIn(h, EntryValues(entries))
    ensures IsIn(h, entries[0].value) && AllIn(h, EntryValues(entries[1..]))
  {
    assert EntryValues(entries)[0] == entries[0].value && EntryValues(entries)[1..] == EntryValues(entries[1..]);
  }

  lemma {:induction false} ZipFields(h: Heap, rank: map<Id, nat>, entries: seq<Entry>, kids: seq<Tree>)
    requires Ranked(h, rank) && AllIn(h, EntryValues(entries)) && |kids| == |EntryValues(entries)|
    requires forall i :: 0 <= i < |kids| ==> kids[i] == Unfold(h, rank, EntryValues(entries)[i])
    ensures Zip(entries, kids) == FieldsOf(h, rank, entries)
  {
    if entries != [] {
      TailIn(h, entries);
      assert EntryValues(entries)[0] == entries[0].value && EntryValues(entries)[1..] == EntryValues(entries[1..]);
      ZipFields(h, rank, entries[1..], kids[1..]);
    }
  }

  /** An object stands for its entries. */
  lemma UnfoldObject(h: Heap, rank: map<Id, nat>, id: Id)
    requires Ranked(h, rank) && id in h && h[id].ObjNode?
    ensures AllIn(h, EntryValues(h[id].entries))
            && Unfold(h, rank, Ref(id)) == ObjTree(FieldsOf(h, rank, h[id].entries))
  {
    hide Unfold, Zip, FieldsOf;
    assert AllIn(h, Children(h[id]));
    var kids := UnfoldKids(h, rank, id);
    ZipFields(h, rank, h[id].entries, kids);
  }

  /** What does not reach an object stands for the same when the object changes. */
  lemma {:induction false} UnfoldApart(h: Heap, rank: map<Id, nat>, target: Id, node: Node, ranks: map<Id, nat>,
                                       v: Value)
    requires Ranked(h, rank) && target in h && Ranked(h[target := node], ranks) && IsIn(h, v) && !Reaches(h, v, target)
    ensures Unfold(h[target := node], ranks, v) == Unfold(h, rank, v)
    decreases RankOf(rank, v)
  {
    hide Reaches, Ranked;
    if v.Ref? {
      var after := h[target := node];
      ReachesItself(h, target);
      forall i | 0 <= i < |Kids(h, v)|
        ensures AlikeAt(h, rank, v.id, after, ranks, v.id, i)
      {
        KidLower(h, rank, v, i);
        if Reaches(h, Kids(h, v)[i], target) {
          ReachesChild(h, v, i, target);
        }
        UnfoldApart(h, rank, target, node, ranks, Kids(h, v)[i]);
      }
      UnfoldAlike(h, rank, v.id, after, ranks, v.id);
    }
  }

  lemma {:induction false} FieldsApart(h: Heap, rank: map<Id, nat>, target: Id, node: Node, ranks: map<Id, nat>,
                                       entries: seq<Entry>)
    requires Ranked(h, rank) && target in h && Ranked(h[target := node], ranks)
             && Clear(h, target, EntryValues(entries))
    ensures AllIn(h[target := node], EntryValues(entries))
    ensures FieldsOf(h[target := node], ranks, entries) == FieldsOf(h, rank, entries)
  {
    hide Reaches, Ranked, Unfold;
    if entries != [] {
      ClearTail(h, target, entries);
      UnfoldApart(h, rank, target, node, ranks, entries[0].value);
      FieldsApart(h, rank, target, node, ranks, entries[1..]);
    }
  }

  lemma {:induction false} ClearTail(h: Heap, target: Id, entries: seq<Entry>)
    requires entries != [] && Clear(h, target, EntryValues(entries))
    ensures IsIn(h, entries[0].value) && !Reaches(h, entries[0].value, target)
            && Clear(h, target, EntryValues(entries[1..]))
  {
    assert EntryValues(entries)[0] == entries[0].value && EntryValues(entries)[1..] == EntryValues(entries[1..]);
  }

  lemma {:induction false} FieldsSet(h: Heap, rank: map<Id, nat>, entries: seq<Entry>, key: string, value: Value)
    requires Ranked(h, rank) && AllIn(h, EntryValues(entries)) && IsIn(h, value)
    ensures AllIn(h, EntryValues(SetEntry(entries, key, value)))
    ensures FieldsOf(h, rank, SetEntry(entries, key, value)) ==
              SetField(FieldsOf(h, rank, entries), key, Unfold(h, rank, value))
  {
    hide Ranked, Unfold;
    if entries == [] {
      assert SetEntry(entries, key, value)[1..] == [];
    } else {
      TailIn(h, entries);
      FieldsSet(h, rank, entries[1..], key, value);
      var tail := if entries[0].key == key then entries[1..] else SetEntry(entries[1..], key, value);
      var head := if entries[0].key == key then Entry(key, value) else entries[0];
      assert SetEntry(entries, key, value) == [head] + tail && ([head] + tail)[1..] == tail;
      assert FieldsOf(h, rank, entries)[1..] == FieldsOf(h, rank, entries[1..]);
    }
  }

  /** Setting entries sets what they stand for. */
  lemma {:induction false} FieldsSetAll(h: Heap, rank: map<Id, nat>, entries: seq<Entry>, more: seq<Entry>)
    requires Ranked(h, rank) && AllIn(h, EntryValues(entries)) && AllIn(h, EntryValues(more))
    ensures AllIn(h, EntryValues(SetAll(entries, more)))
    ensures FieldsOf(h, rank, SetAll(entries, more)) == SetFields(FieldsOf(h, rank, entries), FieldsOf(h, rank, more))
    decreases |more|
  {
    hide Ranked, Unfold, SetEntry, SetField;
    if more != [] {
      TailIn(h, more);
      FieldsSet(h, rank, entries, more[0].key, more[0].value);
      FieldsSetAll(h, rank, SetEntry(entries, more[0].key, more[0].value), more[1..]);
      assert FieldsOf(h, rank, more)[1..] == FieldsOf(h, rank, more[1..]);
    }
  }

  lemma {:induction false} FieldsWithout(h: Heap, rank: map<Id, nat>, entries: seq<Entry>, key: string)
    requires Ranked(h, rank) && AllIn(h, EntryValues(entries))
    ensures AllIn(h, EntryValues(Without(entries, key)))
    ensures FieldsOf(h, rank, Without(entries, key)) == DropField(FieldsOf(h, rank, entries), key)
  {
    hide Ranked, Unfold;
    if entries != [] {
      TailIn(h, entries);
      FieldsWithout(h, rank, entries[1..], key);
      assert FieldsOf(h, rank, entries)[1..] == FieldsOf(h, rank, entries[1..]);
      var tail := Without(entries[1..], key);
      assert ([entries[0]] + tail)[1..] == tail;
    }
  }

  /** Deleting keys deletes them from what the entries stand for. */
  lemma {:induction false} FieldsWithoutAll(h: Heap, rank: map<Id, nat>, entries: seq<Entry>, keys: seq<string>)
    requires Ranked(h, rank) && AllIn(h, EntryValues(entries))
    ensures AllIn(h, EntryValues(WithoutAll(entries, keys)))
    ensures FieldsOf(h, rank, WithoutAll(entries, keys)) == DropFields(FieldsOf(h, rank, entries), keys)
    decreases |keys|
  {
    hide Ranked, Unfold, Without, DropField;
    if keys != [] {
      FieldsWithout(h, rank, entries, keys[0]);
      FieldsWithoutAll(h, rank, Without(entries, keys[0]), keys[1..]);
    }
  }

  /** An object's entries may be replaced by any that do not reach it: it stands for them, and what
      does not reach it stands for what it did. */
  lemma Replaced(h: Heap, rank: map<Id, nat>, target: Id, entries: seq<Entry>)
    requires Ranked(h, rank) && target in h && Clear(h, target, EntryValues(entries))
    ensures var after, ranks := h[target := ObjNode(entries)], Raised(h, rank, target);
            && Ranked(after, ranks) && Unfold(after, ranks, Ref(target)) == ObjTree(FieldsOf(h, rank, entries))
            && forall v :: IsIn(h, v) && !Reaches(h, v, target) ==>
              && IsIn(after, v)
              && Unfold(after, ranks, v) == Unfold(h, rank, v)
  {
    hide Reaches, Unfold, Raised, FieldsOf;
    var node := ObjNode(entries);
    var after, ranks := h[target := node], Raised(h, rank, target);
    MergeRanked(h, rank, target, node);
    UnfoldObject(after, ranks, target);
    FieldsApart(h, rank, target, node, ranks, entries);
    forall v | IsIn(h, v) && !Reaches(h, v, target)
      ensures IsIn(after, v) && Unfold(after, ranks, v) == Unfold(h, rank, v)
    {
      UnfoldApart(h, rank, target, node, ranks, v);
    }
  }
}
