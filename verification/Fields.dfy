/** What setting and deleting the fields of an object does, seen by looking them up and by their order. */
module Fields {
  import opened Wrappers
  import opened Trees
  import opened Merging

  function Keys(fields: seq<Field>): (keys: seq<string>)
    ensures |keys| == |fields| && forall i :: 0 <= i < |fields| ==> keys[i] == fields[i].key
  {
    seq(|fields|, i requires 0 <= i < |fields| => fields[i].key)
  }

  /** The value a key is given last. */
  function Last(fields: seq<Field>, key: string): Option<Tree> {
    if fields == [] then None
    else
      var n := |fields| - 1;
      if fields[n].key == key then Some(fields[n].value) else Last(fields[..n], key)
  }

  /** The keys that are not among those seen, in the order they first come. */
  function NewKeys(keys: seq<string>, seen: set<string>): seq<string> {
    if keys == [] then []
    else if keys[0] in seen then NewKeys(keys[1..], seen)
    else [keys[0]] + NewKeys(keys[1..], seen + {keys[0]})
  }

  /** The keys without some. */
  function OtherKeys(keys: seq<string>, gone: seq<string>): seq<string> {
    if keys == [] then []
    else if keys[0] in gone then OtherKeys(keys[1..], gone)
    else [keys[0]] + OtherKeys(keys[1..], gone)
  }

  ghost function KeySet(fields: seq<Field>): set<string> {
    set k | k in Keys(fields)
  }

  /** A key of given has the value given last, any other the value it had; and the keys there were are followed by
      the new ones, in the order they first come. */
  ghost predicate IsMerged(was: seq<Field>, given: seq<Field>, now: seq<Field>) {
    && (forall k :: Get(now, k) == if Last(given, k).Some? then Last(given, k) else Get(was, k))
    && Keys(now) == Keys(was) + NewKeys(Keys(given), KeySet(was))
  }

  /** The keys are gone, and every other keeps its value and its place. */
  ghost predicate IsWithout(was: seq<Field>, keys: seq<string>, now: seq<Field>) {
    && (forall k :: Get(now, k) == if k in keys then None else Get(was, k))
    && Keys(now) == OtherKeys(Keys(was), keys)
  }

  lemma {:induction false} LastFirst(fields: seq<Field>, key: string)
    requires fields != []
    ensures Last(fields, key) ==
            if Last(fields[1..], key).Some? then Last(fields[1..], key)
            else if fields[0].key == key then Some(fields[0].value) else None
    decreases |fields|
  {
    var n := |fields| - 1;
    if n > 0 {
      LastFirst(fields[..n], key);
      assert fields[..n][1..] == fields[1..][..n - 1] && fields[1..][n - 1] == fields[n];
    } else {
      assert fields[..0] == [];
    }
  }

  /** With distinct keys, the value given last is the value. */
  lemma {:induction false} LastIsGet(fields: seq<Field>, key: string)
    requires forall i, j :: 0 <= i < j < |fields| ==> fields[i].key != fields[j].key
    ensures Last(fields, key) == Get(fields, key)
    decreases |fields|
  {
    if fields != [] {
      LastFirst(fields, key);
      LastIsGet(fields[1..], key);
      if Get(fields[1..], key).Some? {
        GetIsKey(fields[1..], key);
      }
    }
  }

  lemma {:induction false} GetIsKey(fields: seq<Field>, key: string)
    ensures Get(fields, key).Some? <==> exists i :: 0 <= i < |fields| && fields[i].key == key
  {
    if fields != [] && fields[0].key != key {
      GetIsKey(fields[1..], key);
      if Get(fields[1..], key).Some? {
        var i :| 0 <= i < |fields[1..]| && fields[1..][i].key == key;
        assert fields[i + 1].key == key;
      } else {
        assert forall i :: 1 <= i < |fields| ==> fields[i] == fields[1..][i - 1];
      }
    }
  }

  lemma {:induction false} GetSet(fields: seq<Field>, key: string, value: Tree, k: string)
    ensures Get(SetField(fields, key, value), k) == if k == key then Some(value) else Get(fields, k)
  {
    if fields != [] && fields[0].key != key {
      GetSet(fields[1..], key, value, k);
    }
  }

  lemma KeysCons(f: Field, rest: seq<Field>)
    ensures Keys([f] + rest) == [f.key] + Keys(rest)
  {
  }

  /** A key set among those after the first is set among all, if it is another. */
  lemma SetAfter(first: string, keys: seq<string>, key: string)
    requires first != key
    ensures var now := if key in keys then keys else keys + [key];
            [first] + now == if key in [first] + keys then [first] + keys else [first] + keys + [key]
  {
    assert [first] + (keys + [key]) == [first] + keys + [key];
  }

  lemma {:induction false} KeysSet(fields: seq<Field>, key: string, value: Tree)
    ensures Keys(SetField(fields, key, value)) == if key in Keys(fields) then Keys(fields) else Keys(fields) + [key]
  {
    if fields != [] {
      var first, rest := fields[0], fields[1..];
      assert fields == [first] + rest;
      KeysCons(first, rest);
      hide Keys;
      if first.key != key {
        KeysSet(rest, key, value);
        KeysCons(first, SetField(rest, key, value));
        SetAfter(first.key, Keys(rest), key);
      } else {
        KeysCons(Field(key, value), rest);
      }
    }
  }

  /** Setting fields one after another merges them. */
  lemma {:induction false} SettingMerges(was: seq<Field>, given: seq<Field>)
    ensures IsMerged(was, given, SetFields(was, given))
    decreases |given|
  {
    if given != [] {
      var f, rest := given[0], given[1..];
      var next := SetField(was, f.key, f.value);
      SettingMerges(next, rest);
      KeysSet(was, f.key, f.value);
      assert Keys(given) == [f.key] + Keys(rest);
      assert KeySet(next) == KeySet(was) + {f.key};
      assert f.key in Keys(was) ==> KeySet(was) + {f.key} == KeySet(was);
      forall k
        ensures Get(SetFields(was, given), k) == if Last(given, k).Some? then Last(given, k) else Get(was, k)
      {
        LastFirst(given, k);
        GetSet(was, f.key, f.value, k);
      }
    }
  }

  lemma {:induction false} GetDrop(fields: seq<Field>, key: string, k: string)
    ensures Get(DropField(fields, key), k) == if k == key then None else Get(fields, k)
  {
    if fields != [] {
      GetDrop(fields[1..], key, k);
    }
  }

  lemma {:induction false} KeysDrop(fields: seq<Field>, key: string)
    ensures Keys(DropField(fields, key)) == OtherKeys(Keys(fields), [key])
  {
    if fields != [] {
      KeysDrop(fields[1..], key);
      assert Keys(fields)[1..] == Keys(fields[1..]);
      if fields[0].key != key {
        assert Keys(DropField(fields, key)) == [fields[0].key] + Keys(DropField(fields[1..], key));
      }
    }
  }

  lemma {:induction false} OtherKeysTwice(keys: seq<string>, a: seq<string>, b: seq<string>)
    ensures OtherKeys(OtherKeys(keys, a), b) == OtherKeys(keys, a + b)
  {
    if keys != [] {
      OtherKeysTwice(keys[1..], a, b);
      if keys[0] !in a {
        assert OtherKeys(keys, a)[1..] == OtherKeys(keys[1..], a);
      }
    }
  }

  lemma {:induction false} NoOtherKeys(keys: seq<string>)
    ensures OtherKeys(keys, []) == keys
  {
    if keys != [] {
      NoOtherKeys(keys[1..]);
    }
  }

  /** Deleting keys one after another leaves what is without them. */
  lemma {:induction false} DroppingLeaves(was: seq<Field>, keys: seq<string>)
    ensures IsWithout(was, keys, DropFields(was, keys))
    decreases |keys|
  {
    if keys == [] {
      NoOtherKeys(Keys(was));
    } else {
      var next, rest := DropField(was, keys[0]), keys[1..];
      DroppingLeaves(next, rest);
      KeysDrop(was, keys[0]);
      OtherKeysTwice(Keys(was), [keys[0]], rest);
      assert [keys[0]] + rest == keys;
      forall k
        ensures Get(DropFields(was, keys), k) == if k in keys then None else Get(was, k)
      {
        GetDrop(was, keys[0], k);
      }
    }
  }
}
