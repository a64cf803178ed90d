/** Searching what is under a value from an explicit stack, each shared container once. */
module TreeSearch {
  import opened ObjectGraph
  import opened Detach

  /** What the search s under v is to find out. */
  ghost predicate Answer(h: Heap, s: Search, v: Value) {
    if s.Members? then LeadsIn(h, s.owned, v) else Reaches(h, v, s.target)
  }

  lemma AnswerHere(h: Heap, s: Search, v: Value)
    ensures IsMatch(s, v) ==> Answer(h, s, v)
    ensures v.Leaf? ==> !Answer(h, s, v)
  {
    LeadsInChild(h, s.owned, v);
    if s.Target? {
      ReachesItself(h, s.target);
      LeafReaches(h, v, s.target);
    }
  }

  lemma AnswerChild(h: Heap, s: Search, v: Value, i: nat)
    requires i < |Kids(h, v)| && Answer(h, s, Kids(h, v)[i])
    ensures Answer(h, s, v)
  {
    if s.Members? {
      var o :| o in s.owned && Reaches(h, Kids(h, v)[i], o);
      ReachesChild(h, v, i, o);
    } else {
      ReachesChild(h, v, i, s.target);
    }
  }

  lemma NoAnswer(h: Heap, s: Search, v: Value)
    requires !IsMatch(s, v) && forall i :: 0 <= i < |Kids(h, v)| ==> !Answer(h, s, Kids(h, v)[i])
    ensures !Answer(h, s, v)
  {
    if Answer(h, s, v) {
      var o :| (if s.Members? then o in s.owned else o == s.target) && Reaches(h, v, o);
      var i := ReachesBy(h, v, o);
      assert Answer(h, s, Kids(h, v)[i]);
    }
  }

  /** A container open on a walk, how many of its children the walk has taken, and, in a copy, those copied. */
  datatype Cursor = Cursor(id: Id, index: nat, out: seq<Value>)

  function KidsAt(h: Heap, c: Cursor): seq<Value> {
    Kids(h, Ref(c.id))
  }

  /** Each container open on a walk is the child last taken of the one before. */
  ghost predicate Chain(h: Heap, rank: map<Id, nat>, stack: seq<Cursor>) {
    && Ranked(h, rank)
    && (forall j :: 0 <= j < |stack| ==> stack[j].id in h && stack[j].index <= |KidsAt(h, stack[j])|)
    && (forall j :: 0 <= j < |stack| - 1 ==> Holds(h, stack[j], stack[j + 1].id))
    && (forall i, j :: 0 <= i < j < |stack| ==> RankOf(rank, Ref(stack[j].id)) < RankOf(rank, Ref(stack[i].id)))
  }

  /** The child last taken is id. */
  predicate Holds(h: Heap, c: Cursor, id: Id) {
    0 < c.index <= |KidsAt(h, c)| && KidsAt(h, c)[c.index - 1] == Ref(id)
  }

  ghost predicate IsPath(stack: seq<Cursor>, path: seq<Id>) {
    |path| == |stack| && forall j :: 0 <= j < |stack| ==> stack[j].id == path[j]
  }

  /** Takes the next child. */
  function Advance(stack: seq<Cursor>): seq<Cursor>
    requires stack != []
  {
    var top := stack[|stack| - 1];
    stack[..|stack| - 1] + [top.(index := top.index + 1)]
  }

  function Pop(stack: seq<Cursor>): seq<Cursor>
    requires stack != []
  {
    stack[..|stack| - 1]
  }

  lemma Advanced(h: Heap, rank: map<Id, nat>, stack: seq<Cursor>)
    requires Chain(h, rank, stack) && stack != [] && stack[|stack| - 1].index < |KidsAt(h, stack[|stack| - 1])|
    ensures Chain(h, rank, Advance(stack))
  {
    var next := Advance(stack);
    forall j | 0 <= j < |next| - 1
      ensures Holds(h, next[j], next[j + 1].id)
    {
      assert Holds(h, stack[j], stack[j + 1].id);
    }
  }

  /** The child last taken ranks below every container open. */
  lemma Deeper(h: Heap, rank: map<Id, nat>, stack: seq<Cursor>, id: Id)
    requires Chain(h, rank, stack) && if stack == [] then id in h else Holds(h, stack[|stack| - 1], id)
    ensures id in h && forall j :: 0 <= j < |stack| ==> RankOf(rank, Ref(id)) < RankOf(rank, Ref(stack[j].id))
    ensures Chain(h, rank, stack + [Cursor(id, 0, [])])
  {
    hide Ranked, Children, Kids;
    if stack != [] {
      var top := stack[|stack| - 1];
      KidLower(h, rank, Ref(top.id), top.index - 1);
      assert RankOf(rank, Ref(id)) < RankOf(rank, Ref(top.id));
      forall j | 0 <= j < |stack|
        ensures RankOf(rank, Ref(id)) < RankOf(rank, Ref(stack[j].id))
      {
        assert j < |stack| - 1 ==> RankOf(rank, Ref(top.id)) < RankOf(rank, Ref(stack[j].id));
      }
    }
    var next := stack + [Cursor(id, 0, [])];
    forall j | 0 <= j < |next| - 1
      ensures Holds(h, next[j], next[j + 1].id)
    {
      assert j < |stack| - 1 ==> Holds(h, stack[j], stack[j + 1].id);
    }
  }

  lemma Popped(h: Heap, rank: map<Id, nat>, stack: seq<Cursor>)
    requires Chain(h, rank, stack) && stack != []
    ensures Chain(h, rank, Pop(stack))
  {
    var next := Pop(stack);
    forall j | 0 <= j < |next| - 1
      ensures Holds(h, next[j], next[j + 1].id)
    {
      assert Holds(h, stack[j], stack[j + 1].id);
    }
  }

  /** How many values a walk that keeps no memo visits under v. */
  ghost function Visits(h: Heap, rank: map<Id, nat>, v: Value): (n: nat)
    requires Ranked(h, rank) && IsIn(h, v)
    ensures n > 0
    decreases RankOf(rank, v), 1, 0
  {
    if v.Leaf? then 1
    else
      assert Lower(h, rank, v.id) && AllIn(h, Children(h[v.id]));
      1 + VisitsAll(h, rank, Kids(h, v), RankOf(rank, v))
  }

  ghost function VisitsAll(h: Heap, rank: map<Id, nat>, vs: seq<Value>, below: nat): nat
    requires Ranked(h, rank) && AllIn(h, vs) && forall i :: 0 <= i < |vs| ==> RankOf(rank, vs[i]) < below
    decreases below, 0, |vs|
  {
    if vs == [] then 0 else Visits(h, rank, vs[0]) + VisitsAll(h, rank, vs[1..], below)
  }

  /** How many values the walk has left to visit. */
  ghost function Left(h: Heap, rank: map<Id, nat>, stack: seq<Cursor>): nat
    requires Chain(h, rank, stack)
    decreases |stack|
  {
    if stack == [] then 0
    else
      var top := stack[|stack| - 1];
      Popped(h, rank, stack);
      KidsLower(h, rank, top.id);
      Left(h, rank, Pop(stack)) + VisitsAll(h, rank, KidsAt(h, top)[top.index..], RankOf(rank, Ref(top.id)))
  }

  lemma KidsLower(h: Heap, rank: map<Id, nat>, id: Id)
    requires Ranked(h, rank) && id in h
    ensures AllIn(h, Kids(h, Ref(id))) && forall i :: 0 <= i < |Kids(h, Ref(id))| ==>
            RankOf(rank, Kids(h, Ref(id))[i]) < RankOf(rank, Ref(id))
  {
    assert Lower(h, rank, id) && AllIn(h, Children(h[id]));
  }

  lemma LeftAdvance(h: Heap, rank: map<Id, nat>, stack: seq<Cursor>)
    requires Chain(h, rank, stack) && stack != [] && stack[|stack| - 1].index < |KidsAt(h, stack[|stack| - 1])|
    ensures Chain(h, rank, Advance(stack))
    ensures var top := stack[|stack| - 1];
            IsIn(h, KidsAt(h, top)[top.index]) && Left(h, rank, Advance(stack))
                + Visits(h, rank, KidsAt(h, top)[top.index]) == Left(h, rank, stack)
  {
    Advanced(h, rank, stack);
    var top := stack[|stack| - 1];
    KidsLower(h, rank, top.id);
    assert Pop(Advance(stack)) == Pop(stack);
    assert KidsAt(h, top)[top.index..][1..] == KidsAt(h, top)[top.index + 1..];
  }

  lemma LeftPush(h: Heap, rank: map<Id, nat>, stack: seq<Cursor>, id: Id)
    requires Chain(h, rank, stack) && stack != [] && Holds(h, stack[|stack| - 1], id)
    ensures id in h && Chain(h, rank, stack + [Cursor(id, 0, [])])
    ensures Left(h, rank, stack + [Cursor(id, 0, [])]) < Left(h, rank, stack) + Visits(h, rank, Ref(id))
  {
    hide Ranked, Kids, Visits, Holds;
    Deeper(h, rank, stack, id);
    assert Pop(stack + [Cursor(id, 0, [])]) == stack;
    var kids := Kids(h, Ref(id));
    KidsLower(h, rank, id);
    assert kids[0..] == kids;
  }

  lemma LeftPop(h: Heap, rank: map<Id, nat>, stack: seq<Cursor>)
    requires Chain(h, rank, stack) && stack != [] && stack[|stack| - 1].index == |KidsAt(h, stack[|stack| - 1])|
    ensures Chain(h, rank, Pop(stack)) && Left(h, rank, Pop(stack)) == Left(h, rank, stack)
  {
    Popped(h, rank, stack);
    KidsLower(h, rank, stack[|stack| - 1].id);
  }

  /** The children taken do not lead to a match, but for those the walk is under. */
  ghost predicate Searched(h: Heap, s: Search, stack: seq<Cursor>) {
    forall j :: 0 <= j < |stack| ==> SearchedAt(h, s, stack, j)
  }

  ghost predicate SearchedAt(h: Heap, s: Search, stack: seq<Cursor>, j: nat)
    requires j < |stack|
  {
    && !IsMatch(s, Ref(stack[j].id))
    && forall k :: 0 <= k < |KidsAt(h, stack[j])| && k < stack[j].index - (if j < |stack| - 1 then 1 else 0)
         ==> !Answer(h, s, KidsAt(h, stack[j])[k])
  }

  lemma SearchedOn(h: Heap, s: Search, stack: seq<Cursor>)
    requires stack != [] && Searched(h, s, stack) && stack[|stack| - 1].index < |KidsAt(h, stack[|stack| - 1])|
    requires !Answer(h, s, KidsAt(h, stack[|stack| - 1])[stack[|stack| - 1].index])
    ensures Searched(h, s, Advance(stack))
  {
    hide Answer, Kids;
    var next := Advance(stack);
    forall j | 0 <= j < |next|
      ensures SearchedAt(h, s, next, j)
    {
      assert SearchedAt(h, s, stack, j);
    }
  }

  lemma SearchedIn(h: Heap, s: Search, stack: seq<Cursor>, id: Id)
    requires stack != [] && Searched(h, s, stack) && !IsMatch(s, Ref(id))
    ensures Searched(h, s, Advance(stack) + [Cursor(id, 0, [])])
  {
    hide Answer, Kids;
    var next := Advance(stack) + [Cursor(id, 0, [])];
    assert next[|stack|] == Cursor(id, 0, []) && KidsAt(h, next[|stack| - 1]) == KidsAt(h, stack[|stack| - 1]);
    forall j | 0 <= j < |next|
      ensures SearchedAt(h, s, next, j)
    {
      assert j < |stack| ==> SearchedAt(h, s, stack, j);
    }
  }

  lemma SearchedOut(h: Heap, rank: map<Id, nat>, s: Search, stack: seq<Cursor>)
    requires Chain(h, rank, stack) && stack != [] && Searched(h, s, stack)
             && stack[|stack| - 1].index == |KidsAt(h, stack[|stack| - 1])|
    ensures !Answer(h, s, Ref(stack[|stack| - 1].id)) && Searched(h, s, Pop(stack))
  {
    hide Answer, Kids, Ranked, IsMatch;
    var n := |stack| - 1;
    assert SearchedAt(h, s, stack, n);
    NoAnswer(h, s, Ref(stack[n].id));
    var next := Pop(stack);
    forall j | 0 <= j < |next|
      ensures SearchedAt(h, s, next, j)
    {
      assert SearchedAt(h, s, stack, j) && Holds(h, stack[j], stack[j + 1].id);
    }
  }

  /** Every container open holds the match. */
  lemma {:induction false} AllHold(h: Heap, rank: map<Id, nat>, s: Search, stack: seq<Cursor>, j: nat)
    requires Chain(h, rank, stack) && j < |stack| && Answer(h, s, Ref(stack[|stack| - 1].id))
    ensures Answer(h, s, Ref(stack[j].id))
    decreases |stack| - j
  {
    if j < |stack| - 1 {
      AllHold(h, rank, s, stack, j + 1);
      assert Holds(h, stack[j], stack[j + 1].id);
      AnswerChild(h, s, Ref(stack[j].id), stack[j].index - 1);
    }
  }

  /** What a search has recorded is so. */
  ghost predicate Memo(h: Heap, s: Search, memo: map<Id, bool>) {
    forall id :: id in memo ==> id in h && memo[id] == Answer(h, s, Ref(id))
  }

  /** The containers open hold the match: those worth a memo record it. */
  method RecordAll(h: Heap, ghost rank: map<Id, nat>, s: Search, stack: seq<Cursor>, worth: Node -> bool, memo: map<Id,
                   bool>)
    returns (after: map<Id, bool>)
    requires Memo(h, s, memo) && Chain(h, rank, stack)
    requires forall j :: 0 <= j < |stack| ==> Answer(h, s, Ref(stack[j].id))
    ensures Memo(h, s, after)
  {
    hide Answer;
    after := memo;
    for i := 0 to |stack|
      invariant Memo(h, s, after)
    {
      if worth(h[stack[i].id]) {
        after := after[stack[i].id := true];
      }
    }
  }
}
