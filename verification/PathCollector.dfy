/** The collector that walks an expression, recording the paths it reads in a trie of
    field paths that only grows. */
module PathCollector {
  import opened Wrappers
  import opened PathEval
  import opened PathPruning
  import opened PathReads

  const MAX_PATH_NODES: nat := 0x1_0000
  const MAX_PATH_ELEMENTS: nat := 0x1_0000

  /** recorded and then what is new in more. */
  function AddAll(recorded: seq<FieldPath>, more: seq<FieldPath>): seq<FieldPath>
    decreases |more|
  {
    if more == [] then recorded
    else AddAll(if more[0] in recorded then recorded else recorded + [more[0]], more[1..])
  }

  lemma {:induction false} AddAllJoin(recorded: seq<FieldPath>, a: seq<FieldPath>, b: seq<FieldPath>)
    ensures AddAll(recorded, a + b) == AddAll(AddAll(recorded, a), b)
    decreases |a|
  {
    if a == [] {
      assert a + b == b;
    } else {
      assert (a + b)[1..] == a[1..] + b;
      AddAllJoin(if a[0] in recorded then recorded else recorded + [a[0]], a[1..], b);
    }
  }

  lemma {:induction false} AddAllHolds(recorded: seq<FieldPath>, more: seq<FieldPath>)
    ensures forall p :: p in AddAll(recorded, more) <==> p in recorded || p in more
    decreases |more|
  {
    if more != [] {
      AddAllHolds(if more[0] in recorded then recorded else recorded + [more[0]], more[1..]);
      assert forall p :: p in more <==> p == more[0] || p in more[1..];
    }
  }

  predicate AllDistinct<T(==)>(xs: seq<T>) {
    forall i, j :: 0 <= i < j < |xs| ==> xs[i] != xs[j]
  }

  lemma {:induction false} AddAllDistinct(recorded: seq<FieldPath>, more: seq<FieldPath>)
    requires AllDistinct(recorded)
    ensures AllDistinct(AddAll(recorded, more))
    decreases |more|
  {
    if more != [] {
      AddAllDistinct(if more[0] in recorded then recorded else recorded + [more[0]], more[1..]);
    }
  }

  ghost function Paths(more: seq<FieldPath>): set<FieldPath> {
    set p | p in more
  }

  /** What the collector has found: the paths it tracks, those recorded, and whether they are
      all that is read; or it has met more than it tracks. */
  datatype Found = Capped | Open(known: set<FieldPath>, recorded: seq<FieldPath>, complete: bool)

  ghost function After(f: Found, r: Report): (g: Found)
    ensures g.Open? ==> f.Open?
  {
    match f
    case Capped => Capped
    case Open(known, recorded, complete) =>
      if |known + Paths(r.touched)| > MAX_PATH_NODES + 1 then Capped
      else Open(known + Paths(r.touched), AddAll(recorded, r.recorded), complete && r.complete)
  }

  lemma SmallerSet(a: set<FieldPath>, b: set<FieldPath>)
    requires a <= b
    ensures |a| <= |b|
  {
    assert b == a + (b - a);
  }

  /** Finding one report after another is finding them joined. */
  lemma AfterThen(f: Found, r: Report, next: Report)
    ensures After(After(f, r), next) == After(f, r.Then(next))
  {
    if f.Open? {
      assert Paths(r.touched + next.touched) == Paths(r.touched) + Paths(next.touched);
      assert f.known + Paths(r.touched + next.touched) == f.known + Paths(r.touched) + Paths(next.touched);
      SmallerSet(f.known + Paths(r.touched), f.known + Paths(r.touched) + Paths(next.touched));
      AddAllJoin(f.recorded, r.recorded, next.recorded);
    }
  }

  /** What a result is makes no difference to what is found. */
  lemma AfterDropped(f: Found, r: Report, next: Report)
    ensures After(After(f, r.Drop()), next) == After(After(f, r.Drop()), next.Drop()) == After(f, r.Then(next))
    ensures After(f, r.Then(next)) == After(f, r.Then(next).Drop())
  {
    AfterThen(f, r, next);
  }

  lemma AfterNothing(f: Found, p: Option<FieldPath>)
    requires f.Open? ==> |f.known| <= MAX_PATH_NODES + 1
    ensures After(f, PathIs(p)) == f
  {
    if f.Open? {
      assert f.known + Paths([]) == f.known;
    }
  }

  /** Reading a result once its own reads are found. */
  lemma ReadLater(f: Found, r: Report)
    ensures After(After(f, r), PathIs(r.path).Read()) == After(f, r.Read())
  {
    AfterThen(f, r, PathIs(r.path).Read());
    var both := r.Then(PathIs(r.path).Read());
    assert both.touched == r.touched;
    if r.path.None? || r.path.value == [] {
      assert both.recorded == r.recorded;
    } else {
      assert both.recorded == r.recorded + [r.path.value];
    }
  }

  lemma {:induction false} ValuesPath(c: Config, parts: seq<Expr>, p: Option<FieldPath>, b: Bindings)
    ensures CollectValues(c, parts, p, b).path == None
  {
    if parts != [] {
      ValuesPath(c, parts[1..], p, b);
    }
  }

  /** A block's first statement, and then the rest. */
  lemma BlockStep(c: Config, statements: seq<Statement>, p: Option<FieldPath>, b: Bindings, f: Found)
    requires statements != []
    ensures var s := statements[0]; var first := CollectStatement(c, s, p, b);
            var next := if s.Let? then PathReads.Bind(c, s.name, first.path, b) else b;
            var rep := if s.Do? && |statements| > 1 then first.Read() else first;
            var rest := CollectBlock(c, statements[1..], p, next);
            && (|statements| > 1 ==>
                  After(After(f, rep), rest) == After(f, CollectBlock(c, statements, p, b))
                      && rest.path == CollectBlock(c, statements, p, b).path)
            && (|statements| == 1 ==> CollectBlock(c, statements, p, b) == first)
  {
    var s := statements[0];
    var first := CollectStatement(c, s, p, b);
    if |statements| > 1 {
      var next := if s.Let? then PathReads.Bind(c, s.name, first.path, b) else b;
      AfterThen(f, if s.Do? then first.Read() else first, CollectBlock(c, statements[1..], p, next));
    }
  }

  lemma BindsKept(outer: map<string, seq<Held>>, before: map<string, seq<Held>>, now: map<string, seq<Held>>,
                  names: seq<string>)
    requires Binds(outer, before, names) && SameStacks(before, now)
    ensures Binds(outer, now, names)
  {
    forall x
      ensures BindsOne(outer, now, names, x)
    {
      assert Stack(now, x) == Stack(before, x) && BindsOne(outer, before, names, x);
    }
  }

  lemma FilteredAfter(f: Found, elements: Report, test: Report)
    ensures After(After(f, elements), test.Read().Drop()) ==
              After(f, elements.Filtered().Then(test.Read()).(path := elements.path))
  {
    AfterThen(f, elements.Filtered(), test.Read());
  }

  /** One node of the trie. */
  datatype PathNode = PathNode(name: string, parent: nat, children: map<string, nat>, recorded: bool)

  /** What a variable holds: any value, or what is at a node. */
  datatype Held = AnyValue | Node(node: Option<nat>)

  /** Every node's path extends its parent's by its name, and it is that parent's child of the name. */
  ghost predicate Trie(nodes: seq<PathNode>, at: seq<FieldPath>) {
    && |nodes| == |at| && |at| > 0 && at[0] == []
    && (forall i :: 0 <= i < |nodes| ==> Parent(nodes, at, i))
    && (forall j :: 0 < j < |nodes| ==> Child(nodes, at, j))
  }

  ghost predicate Parent(nodes: seq<PathNode>, at: seq<FieldPath>, i: nat)
    requires i < |nodes| == |at|
  {
    forall k :: k in nodes[i].children ==> 0 < nodes[i].children[k] < |at| && at[nodes[i].children[k]] == at[i] + [k]
  }

  ghost predicate Child(nodes: seq<PathNode>, at: seq<FieldPath>, j: nat)
    requires j < |nodes| == |at|
  {
    var p := nodes[j].parent;
    p < j && at[j] == at[p] + [nodes[j].name] && nodes[j].name in nodes[p].children
        && nodes[p].children[nodes[j].name] == j
  }

  /** Nodes have distinct paths. */
  lemma {:induction false} Distinct(nodes: seq<PathNode>, at: seq<FieldPath>, i: nat, j: nat)
    requires Trie(nodes, at) && i < |at| && j < |at| && at[i] == at[j]
    ensures i == j
    decreases i
  {
    if i == 0 || j == 0 {
      assert i > 0 ==> Child(nodes, at, i);
      assert j > 0 ==> Child(nodes, at, j);
    } else {
      assert Child(nodes, at, i) && Child(nodes, at, j);
      var p, q := nodes[i].parent, nodes[j].parent;
      assert at[p] == at[i][..|at[i]| - 1] == at[q];
      assert nodes[i].name == at[i][|at[i]| - 1] == nodes[j].name;
      Distinct(nodes, at, p, q);
    }
  }

  /** The recorded nodes' paths are those found, unless the collector is capped. */
  ghost predicate Matches(found: Found, at: seq<FieldPath>, recorded: seq<nat>, complete: bool) {
    && (forall k :: 0 <= k < |recorded| ==> recorded[k] < |at|)
    && (match found
        case Capped => !complete
        case Open(known, paths, whole) =>
          && known == Paths(at) && |known| == |at| <= MAX_PATH_NODES + 1 && whole == complete
          && |paths| == |recorded| && (forall k :: 0 <= k < |recorded| ==> paths[k] == at[recorded[k]]))
  }

  /** The nodes flagged are those recorded, each once. */
  ghost predicate Flagged(nodes: seq<PathNode>, recorded: seq<nat>) {
    AllDistinct(recorded) && forall i :: 0 <= i < |nodes| ==> (nodes[i].recorded <==> i in recorded)
  }

  /** A node with another's path and a name after it is its child. */
  lemma ChildOf(nodes: seq<PathNode>, at: seq<FieldPath>, j: nat, p: nat, name: string)
    requires Trie(nodes, at) && 0 < j < |at| && p < |at| && at[j] == at[p] + [name]
    ensures name in nodes[p].children
  {
    assert Child(nodes, at, j);
    var q := nodes[j].parent;
    assert at[q] == at[j][..|at[j]| - 1] == at[p];
    assert nodes[j].name == at[j][|at[j]| - 1] == name;
    Distinct(nodes, at, q, p);
  }

  lemma RootNode(nodes: seq<PathNode>, at: seq<FieldPath>, n: Option<nat>)
    requires Trie(nodes, at) && NodeIn(n, at)
    ensures n == Some(0) <==> PathIn(n, at) == Some([])
  {
    if n.Some? && n.value > 0 {
      assert Child(nodes, at, n.value);
    }
  }

  /** A name that is no child of a node makes a path of no node. */
  lemma NewPath(nodes: seq<PathNode>, at: seq<FieldPath>, p: nat, name: string)
    requires Trie(nodes, at) && p < |at| && name !in nodes[p].children
    ensures at[p] + [name] !in at
  {
    forall j | 0 <= j < |at|
      ensures at[j] != at[p] + [name]
    {
      if j > 0 && at[j] == at[p] + [name] {
        ChildOf(nodes, at, j, p, name);
      }
    }
  }

  lemma NewKnown(at: seq<FieldPath>, path: FieldPath)
    requires path !in at
    ensures Paths(at + [path]) == Paths(at) + Paths([path]) && |Paths(at) + Paths([path])| == |Paths(at)| + 1
  {
    assert Paths([path]) == {path};
    assert path !in Paths(at);
  }

  function WithChild(nodes: seq<PathNode>, p: nat, name: string): seq<PathNode>
    requires p < |nodes|
  {
    nodes[p := nodes[p].(children := nodes[p].children[name := |nodes|])] + [PathNode(name, p, map[], false)]
  }

  lemma TrieGrows(nodes: seq<PathNode>, at: seq<FieldPath>, p: nat, name: string)
    requires Trie(nodes, at) && p < |at| && name !in nodes[p].children
    ensures Trie(WithChild(nodes, p, name), at + [at[p] + [name]])
  {
    var nodes', at' := WithChild(nodes, p, name), at + [at[p] + [name]];
    forall j | 0 < j < |nodes'|
      ensures Child(nodes', at', j)
    {
      if j < |nodes| {
        assert Child(nodes, at, j);
      }
    }
    forall i | 0 <= i < |nodes'|
      ensures Parent(nodes', at', i)
    {
      if i < |nodes| {
        assert Parent(nodes, at, i);
      }
    }
  }

  /** What x is bound to, of which the last counts. */
  function Stack(bindings: map<string, seq<Held>>, x: string): seq<Held> {
    if x in bindings then bindings[x] else []
  }

  ghost predicate SameStacks(old_: map<string, seq<Held>>, now: map<string, seq<Held>>) {
    forall x :: Stack(now, x) == Stack(old_, x)
  }

  ghost predicate NodeIn(n: Option<nat>, at: seq<FieldPath>) {
    n.Some? ==> n.value < |at|
  }

  ghost function PathIn(n: Option<nat>, at: seq<FieldPath>): Option<FieldPath>
    requires NodeIn(n, at)
  {
    match n
    case None => None
    case Some(i) => Some(at[i])
  }

  ghost predicate Holdable(h: Held, at: seq<FieldPath>) {
    h.Node? ==> NodeIn(h.node, at)
  }

  ghost predicate AllHoldable(stack: seq<Held>, at: seq<FieldPath>) {
    forall k :: 0 <= k < |stack| ==> Holdable(stack[k], at)
  }

  ghost predicate HeldAt(bindings: map<string, seq<Held>>, at: seq<FieldPath>, x: string) {
    AllHoldable(Stack(bindings, x), at)
  }

  ghost predicate HeldIn(bindings: map<string, seq<Held>>, at: seq<FieldPath>) {
    forall x :: HeldAt(bindings, at, x)
  }

  lemma HeldGrows(bindings: map<string, seq<Held>>, at: seq<FieldPath>, more: seq<FieldPath>)
    requires HeldIn(bindings, at)
    ensures HeldIn(bindings, at + more)
  {
    forall x
      ensures HeldAt(bindings, at + more, x)
    {
      assert HeldAt(bindings, at, x);
    }
  }

  ghost function Innermost(stack: seq<Held>, at: seq<FieldPath>): Binding
    requires stack != [] && AllHoldable(stack, at)
  {
    var h := stack[|stack| - 1];
    if h.AnyValue? then Free else Holds(PathIn(h.node, at))
  }

  /** Each bound variable's innermost binding. */
  ghost function BoundIn(bindings: map<string, seq<Held>>, at: seq<FieldPath>): Bindings
    requires HeldIn(bindings, at)
  {
    map x | x in bindings
        && Stack(bindings, x) != [] :: assert HeldAt(bindings, at, x); Innermost(Stack(bindings, x), at)
  }

  lemma BoundKept(bindings: map<string, seq<Held>>, at: seq<FieldPath>, bindings': map<string, seq<Held>>,
                  at': seq<FieldPath>)
    requires HeldIn(bindings, at) && HeldIn(bindings', at') && at <= at' && SameStacks(bindings, bindings')
    ensures BoundIn(bindings', at') == BoundIn(bindings, at)
  {
    var b, b' := BoundIn(bindings, at), BoundIn(bindings', at');
    forall x
      ensures x in b <==> x in b'
      ensures x in b ==> b[x] == b'[x]
    {
      assert Stack(bindings', x) == Stack(bindings, x) && HeldAt(bindings, at, x);
    }
  }

  /** now binds names over what outer does. */
  ghost predicate Binds(outer: map<string, seq<Held>>, now: map<string, seq<Held>>, names: seq<string>) {
    forall x :: BindsOne(outer, now, names, x)
  }

  ghost predicate BindsOne(outer: map<string, seq<Held>>, now: map<string, seq<Held>>, names: seq<string>, x: string) {
    Stack(outer, x) <= Stack(now, x) && |Stack(now, x)| == |Stack(outer, x)| + multiset(names)[x]
  }

  function BindIn(bindings: map<string, seq<Held>>, name: string, h: Held): map<string, seq<Held>> {
    bindings[name := Stack(bindings, name) + [h]]
  }

  lemma BindHeld(bindings: map<string, seq<Held>>, at: seq<FieldPath>, name: string, h: Held)
    requires HeldIn(bindings, at) && Holdable(h, at)
    ensures HeldIn(BindIn(bindings, name, h), at)
  {
    var now := BindIn(bindings, name, h);
    forall x
      ensures HeldAt(now, at, x)
    {
      assert HeldAt(bindings, at, x);
    }
  }

  lemma BindBound(bindings: map<string, seq<Held>>, at: seq<FieldPath>, name: string, h: Held)
    requires HeldIn(bindings, at) && Holdable(h, at) && HeldIn(BindIn(bindings, name, h), at)
    ensures BoundIn(BindIn(bindings, name, h), at) == BoundIn(bindings, at)[name := Innermost([h], at)]
  {
    var now := BindIn(bindings, name, h);
    var b, b' := BoundIn(now, at), BoundIn(bindings, at)[name := Innermost([h], at)];
    forall x
      ensures x in b <==> x in b'
      ensures x in b ==> b[x] == b'[x]
    {
      assert Stack(now, x) == Stack(bindings, x) + if x == name then [h] else [];
    }
  }

  lemma BindOne(bindings: map<string, seq<Held>>, name: string, h: Held, outer: map<string, seq<Held>>,
                names: seq<string>)
    requires Binds(outer, bindings, names)
    ensures Binds(outer, BindIn(bindings, name, h), names + [name])
  {
    var now := BindIn(bindings, name, h);
    forall x
      ensures BindsOne(outer, now, names + [name], x)
    {
      assert BindsOne(outer, bindings, names, x);
    }
  }

  lemma UnbindOne(bindings: map<string, seq<Held>>, at: seq<FieldPath>, outer: map<string, seq<Held>>,
                  names: seq<string>, i: nat)
    requires i < |names| && HeldIn(bindings, at) && Binds(outer, bindings, names[i..])
    ensures Stack(bindings, names[i]) != []
    ensures var stack := Stack(bindings, names[i]); var now := bindings[names[i] := stack[..|stack| - 1]];
            HeldIn(now, at) && Binds(outer, now, names[i + 1..])
  {
    var name, stack := names[i], Stack(bindings, names[i]);
    assert names[i..] == [name] + names[i + 1..];
    assert BindsOne(outer, bindings, names[i..], name);
    var now, rest, all := bindings[name := stack[..|stack| - 1]], names[i + 1..], names[i..];
    forall x
      ensures BindsOne(outer, now, rest, x)
    {
      assert BindsOne(outer, bindings, all, x);
    }
    forall x
      ensures HeldAt(now, at, x)
    {
      assert HeldAt(bindings, at, x);
    }
  }

  lemma Unbound(outer: map<string, seq<Held>>, bindings: map<string, seq<Held>>)
    requires Binds(outer, bindings, [])
    ensures SameStacks(outer, bindings)
  {
    forall x
      ensures Stack(bindings, x) == Stack(outer, x)
    {
      assert BindsOne(outer, bindings, [], x);
    }
  }

  /** Tracking one more path. */
  lemma MatchesGrows(found: Found, at: seq<FieldPath>, recorded: seq<nat>, complete: bool, path: FieldPath)
    requires Matches(found, at, recorded, complete) && path !in at && |at| <= MAX_PATH_NODES
    ensures Matches(After(found, Report(Some(path), [], true, [path], [])), at + [path], recorded, complete)
  {
    NewKnown(at, path);
  }

  lemma TooMany(found: Found, at: seq<FieldPath>, recorded: seq<nat>, complete: bool, path: FieldPath)
    requires Matches(found, at, recorded, complete) && path !in at && |at| > MAX_PATH_NODES
    ensures After(found, Report(Some(path), [], true, [path], [])) == Capped
  {
    NewKnown(at, path);
  }

  lemma KnownAlready(found: Found, at: seq<FieldPath>, recorded: seq<nat>, complete: bool, path: FieldPath)
    requires Matches(found, at, recorded, complete) && path in at
    ensures After(found, Report(Some(path), [], true, [path], [])) == found
  {
    assert Paths(at) + Paths([path]) == Paths(at);
  }

  /** A node's path is found when the node is recorded. */
  lemma FoundAt(found: Found, nodes: seq<PathNode>, at: seq<FieldPath>, recorded: seq<nat>, complete: bool, i: nat)
    requires Matches(found, at, recorded, complete) && found.Open? && Trie(nodes, at) && i < |at|
    ensures at[i] in found.recorded <==> i in recorded
  {
    if i in recorded {
      var k :| 0 <= k < |recorded| && recorded[k] == i;
      assert found.recorded[k] == at[i];
    } else if at[i] in found.recorded {
      var k :| 0 <= k < |recorded| && at[recorded[k]] == at[i];
      Distinct(nodes, at, recorded[k], i);
    }
  }

  /** Recording one more node, or one again. */
  lemma ReadMatches(found: Found, nodes: seq<PathNode>, at: seq<FieldPath>, recorded: seq<nat>, complete: bool, i: nat)
    requires Matches(found, at, recorded, complete) && Trie(nodes, at) && 0 < i < |at|
    ensures Matches(After(found, PathIs(Some(at[i])).Read()), at, if i in recorded then recorded else recorded + [i],
                    complete)
    ensures i in recorded ==> After(found, PathIs(Some(at[i])).Read()) == found
  {
    if found.Open? {
      assert found.known + Paths([]) == found.known && [] + [at[i]] == [at[i]];
      assert Child(nodes, at, i);
      hide Trie;
      FoundAt(found, nodes, at, recorded, complete, i);
      assert AddAll(found.recorded, [at[i]]) == if i in recorded then found.recorded else found.recorded + [at[i]];
    }
  }

  lemma DistinctPaths(nodes: seq<PathNode>, at: seq<FieldPath>, recorded: seq<nat>, paths: seq<FieldPath>)
    requires Trie(nodes, at) && AllDistinct(recorded) && |paths| <= |recorded|
    requires forall k :: 0 <= k < |paths| ==> recorded[k] < |at| && paths[k] == at[recorded[k]]
    ensures AllDistinct(paths)
  {
    forall i, j | 0 <= i < j < |paths|
      ensures paths[i] != paths[j]
    {
      if paths[i] == paths[j] {
        Distinct(nodes, at, recorded[i], recorded[j]);
      }
    }
  }

  lemma FlaggedGrows(nodes: seq<PathNode>, recorded: seq<nat>, p: nat, name: string)
    requires Flagged(nodes, recorded) && p < |nodes| && forall k :: 0 <= k < |recorded| ==> recorded[k] < |nodes|
    ensures Flagged(WithChild(nodes, p, name), recorded)
  {
  }

  lemma SetRecorded(nodes: seq<PathNode>, at: seq<FieldPath>, recorded: seq<nat>, i: nat)
    requires Trie(nodes, at) && Flagged(nodes, recorded) && i < |nodes| && !nodes[i].recorded
    ensures var nodes' := nodes[i := nodes[i].(recorded := true)];
            Trie(nodes', at) && Flagged(nodes', recorded + [i])
  {
    var nodes' := nodes[i := nodes[i].(recorded := true)];
    forall j | 0 < j < |nodes|
      ensures Child(nodes', at, j)
    {
      assert Child(nodes, at, j);
    }
    forall j | 0 <= j < |nodes|
      ensures Parent(nodes', at, j)
    {
      assert Parent(nodes, at, j);
    }
  }

  /** How many field names some paths have in all. */
  function NameCount(paths: seq<FieldPath>): nat {
    if paths == [] then 0 else |paths[0]| + NameCount(paths[1..])
  }

  lemma {:induction false} CountAppend(paths: seq<FieldPath>, path: FieldPath)
    ensures NameCount(paths + [path]) == NameCount(paths) + |path|
  {
    if paths == [] {
      assert paths + [path] == [path];
    } else {
      assert (paths + [path])[1..] == paths[1..] + [path];
      CountAppend(paths[1..], path);
    }
  }

  lemma {:induction false} CountPrefix(paths: seq<FieldPath>, k: nat)
    requires k <= |paths|
    ensures NameCount(paths[..k]) <= NameCount(paths)
  {
    if k > 0 {
      assert paths[..k][1..] == paths[1..][..k - 1];
      CountPrefix(paths[1..], k - 1);
    }
  }

  class Collector {
    const c: Config
    var nodes: seq<PathNode>
    var recorded: seq<nat>
    var bindings: map<string, seq<Held>>
    var scopes: seq<seq<string>>
    var complete: bool
    /** The path of each node, and what has been found. */
    ghost var at: seq<FieldPath>
    ghost var found: Found

    constructor (c: Config)
      ensures Valid() && this.c == c && Bound() == map[] && found == Open({[]}, [], true) && at == [[]]
    {
      this.c := c;
      nodes, recorded, complete := [PathNode("", 0, map[], false)], [], true;
      bindings, scopes := map[], [[]];
      at, found := [[]], Open({[]}, [], true);
    }

    ghost predicate IsNode(n: Option<nat>)
      reads this
    {
      NodeIn(n, at)
    }

    ghost predicate Valid()
      reads this
    {
      && Trie(nodes, at) && Matches(found, at, recorded, complete) && Flagged(nodes, recorded)
      && HeldIn(bindings, at) && scopes != []
    }

    ghost function PathAt(n: Option<nat>): Option<FieldPath>
      reads this
      requires IsNode(n)
    {
      PathIn(n, at)
    }

    /** Each bound variable's innermost binding. */
    ghost function Bound(): Bindings
      reads this
      requires Valid()
    {
      BoundIn(bindings, at)
    }

    /** Nodes keep their paths; variables are bound as before. */
    twostate predicate Grows()
      reads this
    {
      old(at) <= at && SameStacks(old(bindings), bindings) && scopes == old(scopes)
    }

    /** A child of a node, made if there is none; at the cap, what is found turns to Capped. */
    method AppendField(path: Option<nat>, name: string) returns (r: Option<nat>)
      requires Valid() && IsNode(path)
      modifies this
      ensures Valid() && Grows() && IsNode(r)
      ensures found == After(old(found), PathReads.AppendField(old(PathAt(path)), name))
      ensures found.Open? ==> PathAt(r) == PathReads.AppendField(old(PathAt(path)), name).path
    {
      if path.None? {
        AfterNothing(found, None);
        return None;
      }
      var p := path.value;
      if name in nodes[p].children {
        r := Some(nodes[p].children[name]);
        assert Parent(nodes, at, p);
        KnownAlready(found, at, recorded, complete, at[p] + [name]);
        return;
      }
      if |nodes| - 1 >= MAX_PATH_NODES {
        NewPath(nodes, at, p, name);
        TooMany(found, at, recorded, complete, at[p] + [name]);
        complete := false;
        found := Capped;
        return None;
      }
      r := Some(|nodes|);
      AddNode(p, name);
    }

    method AddNode(p: nat, name: string)
      requires Valid() && p < |nodes| && name !in nodes[p].children && |nodes| <= MAX_PATH_NODES
      modifies this
      ensures Valid() && Grows() && at == old(at) + [old(at)[p] + [name]]
      ensures found == After(old(found), PathReads.AppendField(Some(old(at)[p]), name))
    {
      NewPath(nodes, at, p, name);
      TrieGrows(nodes, at, p, name);
      MatchesGrows(found, at, recorded, complete, at[p] + [name]);
      FlaggedGrows(nodes, recorded, p, name);
      HeldGrows(bindings, at, [at[p] + [name]]);
      nodes := WithChild(nodes, p, name);
      found := After(found, PathReads.AppendField(Some(at[p]), name));
      at := at + [at[p] + [name]];
    }

    /** Refines Report.Read: a node joins those recorded unless it is one, and the root ends completeness. */
    method Read(n: Option<nat>)
      requires Valid() && IsNode(n)
      modifies this
      ensures Valid() && Grows() && at == old(at)
      ensures found == After(old(found), PathIs(old(PathAt(n))).Read())
    {
      if n.None? {
        AfterNothing(found, None);
      } else if n.value == 0 {
        MarkIncomplete();
      } else {
        var i := n.value;
        ReadMatches(found, nodes, at, recorded, complete, i);
        if !nodes[i].recorded {
          found := After(found, PathIs(Some(at[i])).Read());
          SetRecorded(nodes, at, recorded, i);
          nodes := nodes[i := nodes[i].(recorded := true)];
          recorded := recorded + [i];
        }
      }
    }

    method MarkIncomplete()
      requires Valid()
      modifies this
      ensures Valid() && Grows() && at == old(at)
      ensures found == After(old(found), INCOMPLETE)
    {
      complete := false;
      found := After(found, INCOMPLETE);
    }

    /** Refines PathReads.Bind, and enters the name in the scope that will unbind it. */
    method Bind(name: string, n: Option<nat>, ghost outer: map<string, seq<Held>>)
      requires Valid() && IsNode(n) && Binds(outer, bindings, scopes[|scopes| - 1])
      modifies this
      ensures Valid() && at == old(at) && found == old(found)
      ensures Bound() == PathReads.Bind(c, name, PathAt(n), old(Bound()))
      ensures |scopes| == |old(scopes)| && scopes[..|scopes| - 1] == old(scopes)[..|scopes| - 1]
      ensures Binds(outer, bindings, scopes[|scopes| - 1])
    {
      hide Trie, Flagged, HeldIn, Matches, BoundIn, BindIn, Stack, Binds;
      var held := if c.Unstable(name) then AnyValue else Node(n);
      BindHeld(bindings, at, name, held);
      BindBound(bindings, at, name, held);
      BindOne(bindings, name, held, outer, scopes[|scopes| - 1]);
      bindings := BindIn(bindings, name, held);
      scopes := scopes[..|scopes| - 1] + [scopes[|scopes| - 1] + [name]];
    }

    method PushScope()
      requires Valid()
      modifies this
      ensures Valid() && at == old(at) && found == old(found) && bindings == old(bindings)
      ensures scopes == old(scopes) + [[]] && Binds(old(bindings), bindings, [])
    {
      scopes := scopes + [[]];
    }

    method Unbind(names: seq<string>, i: nat, ghost outer: map<string, seq<Held>>)
      requires Valid() && i < |names| && Binds(outer, bindings, names[i..])
      modifies this`bindings
      ensures Valid() && Binds(outer, bindings, names[i + 1..])
    {
      UnbindOne(bindings, at, outer, names, i);
      var stack := Stack(bindings, names[i]);
      bindings := bindings[names[i] := stack[..|stack| - 1]];
    }

    /** Ends the innermost scope, whose variables are bound as outside it again. */
    method PopScope(ghost outer: map<string, seq<Held>>)
      requires Valid() && |scopes| > 1 && Binds(outer, bindings, scopes[|scopes| - 1])
      modifies this
      ensures Valid() && at == old(at) && found == old(found)
      ensures scopes == old(scopes)[..|old(scopes)| - 1] && SameStacks(outer, bindings)
    {
      var names := scopes[|scopes| - 1];
      assert names[0..] == names;
      for i := 0 to |names|
        invariant Valid() && at == old(at) && found == old(found) && scopes == old(scopes)
        invariant Binds(outer, bindings, names[i..])
      {
        Unbind(names, i, outer);
      }
      assert names[|names|..] == [];
      Unbound(outer, bindings);
      scopes := scopes[..|scopes| - 1];
    }

    /** What has been found is found so again after r, whose result is at n. */
    twostate predicate Did(r: Report, new n: Option<nat>)
      reads this
    {
      && Valid() && Grows() && IsNode(n) && found == After(old(found), r)
      && (found.Open? ==> PathAt(n) == r.path)
    }

    twostate lemma Keeps(n: Option<nat>)
      requires old(Valid()) && Valid() && Grows() && old(IsNode(n))
      ensures Bound() == old(Bound()) && IsNode(n) && PathAt(n) == old(PathAt(n))
    {
      BoundKept(old(bindings), old(at), bindings, at);
    }

    /** Refines Collect: what it reports of e is found, and r is the node of the path it reports. */
    method Eval(e: Expr, ctx: Option<nat>) returns (r: Option<nat>)
      requires Valid() && IsNode(ctx)
      modifies this
      ensures Did(Collect(c, e, old(PathAt(ctx)), old(Bound())), r)
      decreases e, 2
    {
      ghost var p, b := PathAt(ctx), Bound();
      match e
      case Literal(_) =>
        AfterNothing(found, None);
        r := None;
      case Name(field) =>
        r := AppendField(ctx, field);
      case Context =>
        AfterNothing(found, p);
        r := ctx;
      case Root =>
        AfterNothing(found, Some([]));
        r := Some(0);
      case Variable(name) =>
        r := Lookup(name);
      case Path(_) =>
        r := PathSteps(e, ctx);
      case Pick(base, _) =>
        r := Eval(base, ctx);
      case Filter(_, _) =>
        r := Filtered(e, ctx);
      case Binary(_, left, right) =>
        Both(left, right, ctx, e);
        r := None;
      case Negate(operand) =>
        Value(operand, ctx);
        r := None;
      case Condition(_, _, _) =>
        Branches(e, ctx);
        r := None;
      case ArrayOf(parts) =>
        Values(parts, ctx);
        r := None;
      case Call(_, _) =>
        CallOf(e, ctx);
        r := None;
      case Block(statements) =>
        r := Statements(statements, ctx);
    }

    /** Refines Collect where e's result is read too. */
    method Value(e: Expr, ctx: Option<nat>)
      requires Valid() && IsNode(ctx)
      modifies this
      ensures Did(Collect(c, e, old(PathAt(ctx)), old(Bound())).Read().Drop(), None)
      decreases e, 3
    {
      ghost var rep := Collect(c, e, PathAt(ctx), Bound());
      ReadLater(found, rep);
      var r := Eval(e, ctx);
      Read(r);
    }

    method Lookup(name: string) returns (r: Option<nat>)
      requires Valid()
      modifies this
      ensures Did(Variables(name, old(Bound())), r)
    {
      var stack := Stack(bindings, name);
      if stack == [] || stack[|stack| - 1].AnyValue? {
        MarkIncomplete();
        return None;
      }
      r := stack[|stack| - 1].node;
      assert HeldAt(bindings, at, name);
      AfterNothing(found, PathAt(r));
    }

    /** A computed filter reads its predicate over its base's elements. */
    method Filtered(e: Expr, ctx: Option<nat>) returns (r: Option<nat>)
      requires e.Filter? && Valid() && IsNode(ctx)
      modifies this
      ensures Did(Collect(c, e, old(PathAt(ctx)), old(Bound())), r)
      decreases e, 0
    {
      hide Trie, Flagged, HeldIn, Matches, BoundIn, Stack, After, CollectValues, CallReads;
      ghost var p, b := PathAt(ctx), Bound();
      ghost var elements := Collect(c, e.base, p, b);
      FilteredAfter(found, elements, Collect(c, e.test, elements.path, b));
      r := Eval(e.base, ctx);
      Keeps(ctx);
      Value(e.test, r);
    }

    /** Refines Collect on two operands, both read. */
    method Both(first: Expr, second: Expr, ctx: Option<nat>, ghost whole: Expr)
      requires Valid() && IsNode(ctx) && first < whole && second < whole
      modifies this
      ensures var p, b := old(PathAt(ctx)), old(Bound());
              Did(Collect(c, first, p, b).Read().Then(Collect(c, second, p, b).Read()).Drop(), None)
      decreases whole, 0
    {
      hide Trie, Flagged, HeldIn, Matches, BoundIn, Stack, After, Collect, Report.Read, Report.Then, NodeIn, PathIn;
      ghost var p, b := PathAt(ctx), Bound();
      AfterDropped(found, Collect(c, first, p, b).Read(), Collect(c, second, p, b).Read());
      Value(first, ctx);
      Keeps(ctx);
      Value(second, ctx);
    }

    method Branches(e: Expr, ctx: Option<nat>)
      requires e.Condition? && Valid() && IsNode(ctx)
      modifies this
      ensures Did(Collect(c, e, old(PathAt(ctx)), old(Bound())), None)
      decreases e, 1
    {
      hide Trie, Flagged, HeldIn, Matches, BoundIn, Stack, After, CollectValues, CallReads;
      ghost var p, b := PathAt(ctx), Bound();
      ghost var both := Collect(c, e.guard, p, b).Read().Then(Collect(c, e.yes, p, b).Read());
      Both(e.guard, e.yes, ctx, e);
      Keeps(ctx);
      if e.no.Some? {
        AfterDropped(old(found), both, Collect(c, e.no.value, p, b).Read());
        Value(e.no.value, ctx);
      }
    }

    method Values(parts: seq<Expr>, ctx: Option<nat>)
      requires Valid() && IsNode(ctx)
      modifies this
      ensures Did(CollectValues(c, parts, old(PathAt(ctx)), old(Bound())), None)
      decreases parts, 0
    {
      hide Trie, Flagged, HeldIn, BoundIn, After, Collect, BindIn;
      ghost var p, b := PathAt(ctx), Bound();
      for i := 0 to |parts|
        invariant Valid() && Grows() && IsNode(ctx) && PathAt(ctx) == p
        invariant After(found, CollectValues(c, parts[i..], p, b)) == After(old(found), CollectValues(c, parts, p, b))
      {
        Keeps(ctx);
        assert parts[i..][1..] == parts[i + 1..];
        AfterDropped(found, Collect(c, parts[i], p, b).Read(), CollectValues(c, parts[i + 1..], p, b));
        Value(parts[i], ctx);
      }
      AfterNothing(found, None);
      ValuesPath(c, parts, p, b);
    }

    /** Records a call's reads: its arguments, and its context if it may read that. */
    method CallOf(e: Expr, ctx: Option<nat>)
      requires e.Call? && Valid() && IsNode(ctx)
      modifies this
      ensures Did(Collect(c, e, old(PathAt(ctx)), old(Bound())), None)
      decreases e, 0
    {
      hide Trie, Flagged, HeldIn, Matches, BoundIn, Stack, After, CollectValues, CallReads;
      ghost var p, b := PathAt(ctx), Bound();
      AfterThen(found, CollectValues(c, e.args, p, b), CallReads(c, e.name, e.args, p, b));
      Values(e.args, ctx);
      Keeps(ctx);
      CallContext(e.name, e.args, ctx);
    }

    method CallContext(name: string, args: seq<Expr>, ctx: Option<nat>)
      requires Valid() && IsNode(ctx)
      modifies this
      ensures Did(CallReads(c, name, args, old(PathAt(ctx)), old(Bound())), None)
    {
      if Stack(bindings, name) != [] {
        MarkIncomplete();
      } else if name in c.bound {
        Read(ctx);
      } else {
        BuiltinContext(name, args, ctx);
      }
    }

    method BuiltinContext(name: string, args: seq<Expr>, ctx: Option<nat>)
      requires Valid() && IsNode(ctx) && name !in c.bound && name !in Bound()
      modifies this
      ensures Did(CallReads(c, name, args, old(PathAt(ctx)), old(Bound())), None)
    {
      ghost var whole := if name == "eval" then INCOMPLETE else NOTHING;
      AfterNothing(found, None);
      AfterThen(found, whole, PathIs(PathAt(ctx)).Read());
      if name == "eval" {
        MarkIncomplete();
      }
      var readsContext := c.readsContext(name, LiteralTypes(args));
      if readsContext {
        Read(ctx);
      }
    }

    /** Refines CollectSteps; the scope it opens is empty when it ends. */
    method PathSteps(e: Expr, ctx: Option<nat>) returns (cur: Option<nat>)
      requires e.Path? && Valid() && IsNode(ctx)
      modifies this
      ensures Did(Collect(c, e, old(PathAt(ctx)), old(Bound())), cur)
      decreases e, 0
    {
      hide Trie, Flagged, HeldIn, BoundIn, After;
      ghost var p, b := PathAt(ctx), Bound();
      ghost var all := CollectSteps(c, e, 0, p, b);
      PushScope();
      cur := ctx;
      for i := 0 to |e.steps|
        invariant Valid() && old(at) <= at && SameStacks(old(bindings), bindings) && scopes == old(scopes) + [[]]
                  && IsNode(cur)
        invariant found.Open? ==> PathAt(cur) == p
        invariant After(found, CollectSteps(c, e, i, p, b)) == After(old(found), all)
        invariant CollectSteps(c, e, i, p, b).path == all.path
      {
        BoundKept(old(bindings), old(at), bindings, at);
        ghost var step := CollectStep(c, e.steps[i], i == 0, p, b);
        AfterThen(found, step, CollectSteps(c, e, i + 1, step.path, b));
        cur := PathStep(e.steps[i], i == 0, cur);
        p := step.path;
      }
      AfterNothing(found, p);
      PopScope(old(bindings));
    }

    method PathStep(step: Expr, first: bool, cur: Option<nat>) returns (r: Option<nat>)
      requires Valid() && IsNode(cur)
      modifies this
      ensures Did(CollectStep(c, step, first, old(PathAt(cur)), old(Bound())), r)
      decreases step, 4
    {
      ghost var p, b := PathAt(cur), Bound();
      AfterThen(found, StepInput(step, first, p), Collect(c, step, p, b));
      AfterNothing(found, p);
      RootNode(nodes, at, cur);
      if !first && !ReadsFields(step) && cur != Some(0) {
        Read(cur);
      }
      Keeps(cur);
      r := Eval(step, cur);
    }

    method StatementOf(s: Statement, ctx: Option<nat>) returns (r: Option<nat>)
      requires Valid() && IsNode(ctx)
      modifies this
      ensures Did(CollectStatement(c, s, old(PathAt(ctx)), old(Bound())), r)
      decreases s, 0
    {
      r := Eval(s.e, ctx);
    }

    /** Runs one statement of a block in the block's scope, over the variables outside it. */
    method Statement(s: Statement, last: bool, ctx: Option<nat>, ghost outer: map<string, seq<Held>>)
      returns (r: Option<nat>)
      requires Valid() && IsNode(ctx) && Binds(outer, bindings, scopes[|scopes| - 1])
      modifies this
      ensures Valid() && old(at) <= at && IsNode(r)
      ensures |scopes| == |old(scopes)| && scopes[..|scopes| - 1] == old(scopes)[..|scopes| - 1]
      ensures Binds(outer, bindings, scopes[|scopes| - 1])
      ensures var first := CollectStatement(c, s, old(PathAt(ctx)), old(Bound()));
              && found == After(old(found), if s.Do? && !last then first.Read() else first)
              && (found.Open? ==>
                    && PathAt(r) == first.path
                    && Bound() == if s.Let? then PathReads.Bind(c, s.name, first.path, old(Bound())) else old(Bound()))
      decreases s, 2
    {
      hide Trie, Flagged, HeldIn, Matches, BoundIn, Stack, After, Binds, Collect;
      if s.Let? {
        r := StatementOf(s, ctx);
        Keeps(ctx);
        BindsKept(outer, old(bindings), bindings, scopes[|scopes| - 1]);
        Bind(s.name, r, outer);
      } else {
        r := Expression(s, last, ctx);
        Keeps(ctx);
        BindsKept(outer, old(bindings), bindings, scopes[|scopes| - 1]);
      }
    }

    method Expression(s: Statement, last: bool, ctx: Option<nat>) returns (r: Option<nat>)
      requires Valid() && IsNode(ctx) && s.Do?
      modifies this
      ensures var first := CollectStatement(c, s, old(PathAt(ctx)), old(Bound()));
              Did(if last then first else first.Read(), r)
      decreases s, 1
    {
      ghost var first := CollectStatement(c, s, PathAt(ctx), Bound());
      ReadLater(found, first);
      r := StatementOf(s, ctx);
      if !last {
        Read(r);
      }
    }

    /** Refines CollectBlock; the variables bound on return are those bound on entry. */
    method Statements(statements: seq<Statement>, ctx: Option<nat>) returns (r: Option<nat>)
      requires Valid() && IsNode(ctx)
      modifies this
      ensures Did(CollectBlock(c, statements, old(PathAt(ctx)), old(Bound())), r)
      decreases statements, 1
    {
      hide Trie, Flagged, HeldIn, BoundIn, After, Binds, Collect;
      ghost var p, b, i := PathAt(ctx), Bound(), 0;
      ghost var all := CollectBlock(c, statements, p, b);
      PushScope();
      AfterNothing(found, None);
      r := None;
      for k := 0 to |statements|
        invariant Valid() && old(at) <= at && IsNode(r)
        invariant |scopes| == |old(scopes)| + 1 && scopes[..|scopes| - 1] == old(scopes)
        invariant Binds(old(bindings), bindings, scopes[|scopes| - 1])
        invariant k < |statements| ==> (found.Open? ==> Bound() == b)
        invariant k < |statements| ==>
                    var rest := CollectBlock(c, statements[k..], p, b);
                    After(found, rest) == After(old(found), all) && rest.path == all.path
        invariant k == |statements| ==> found == After(old(found), all) && (found.Open? ==> PathAt(r) == all.path)
      {
        var s, last := statements[k], k == |statements| - 1;
        ghost var first := CollectStatement(c, s, p, b);
        ghost var next := if s.Let? then PathReads.Bind(c, s.name, first.path, b) else b;
        BlockStep(c, statements[k..], p, b, found);
        assert statements[k..][1..] == statements[k + 1..];
        r := Statement(s, last, ctx, old(bindings));
        b := next;
      }
      PopScope(old(bindings));
    }

    /** The field names from the root to a node. */
    method NodePath(n: nat) returns (path: FieldPath)
      requires Valid() && n < |at|
      ensures path == at[n]
    {
      path := [];
      var i: nat := n;
      assert at[n] == at[i] + path;
      while i != 0
        invariant i < |at| && at[n] == at[i] + path
        decreases i
      {
        assert Child(nodes, at, i);
        path := [nodes[i].name] + path;
        i := nodes[i].parent;
      }
    }

    /** What is found, unless its names outnumber MAX_PATH_ELEMENTS: then a prefix of it. */
    method Result() returns (paths: seq<FieldPath>, whole: bool)
      requires Valid()
      ensures AllDistinct(paths)
      ensures whole <==> found.Open? && found.complete && NameCount(found.recorded) <= MAX_PATH_ELEMENTS
      ensures found.Open? ==> paths <= found.recorded
      ensures found.Open? && NameCount(found.recorded) <= MAX_PATH_ELEMENTS ==> paths == found.recorded
    {
      var elements := 0;
      paths := [];
      for k := 0 to |recorded|
        invariant |paths| == k && (forall j :: 0 <= j < k ==> paths[j] == at[recorded[j]])
        invariant found.Open? ==> paths == found.recorded[..k]
        invariant elements == NameCount(paths) <= MAX_PATH_ELEMENTS
      {
        var path := NodePath(recorded[k]);
        elements := elements + |path|;
        CountAppend(paths, path);
        if found.Open? {
          assert found.recorded[..k + 1] == paths + [path];
          CountPrefix(found.recorded, k + 1);
        }
        DistinctPaths(nodes, at, recorded, paths);
        if elements > MAX_PATH_ELEMENTS {
          return paths, false;
        }
        paths := paths + [path];
      }
      DistinctPaths(nodes, at, recorded, paths);
      assert found.Open? ==> found.recorded[..|recorded|] == found.recorded;
      whole := complete;
    }
  }
}
