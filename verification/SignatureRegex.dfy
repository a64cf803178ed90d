/** The regex a function signature stands for: which counts of arguments its
    parameters may take, and which of those a backtracking matcher finds first.
    Nothing here is a table; SignatureMatching proves the tables against it. */
module SignatureRegex {
  import opened Wrappers

  /** The type symbols of arguments, in the order "asnblfom". */
  datatype Symbol = Array | Text | Number | Boolean | Null | Function | Object | Missing

  /** The content type of an 'a' parameter: none, one symbol, or one no item has. */
  datatype Content = Unchecked | Only(symbol: Symbol) | NoItem

  datatype Param = Param(symbols: set<Symbol>, optional: bool, variadic: bool, lazy: bool,
                         context: bool, anyFocus: bool, wraps: bool, content: Content)

  function Least(param: Param): nat {
    if param.optional then 0 else 1
  }

  /** The n arguments from a on can all go to param. */
  predicate Takes(param: Param, symbols: seq<Symbol>, a: nat, n: nat) {
    && Least(param) <= n
    && (n <= 1 || param.variadic)
    && a + n <= |symbols|
    && (forall i :: a <= i < a + n ==> symbols[i] in param.symbols)
  }

  /** counts gives each parameter from p on the arguments from a on, in order; anchored, all of them. */
  ghost predicate Assigns(params: seq<Param>, symbols: seq<Symbol>, anchored: bool, p: nat, a: nat, counts: seq<nat>)
    requires p <= |params| && a <= |symbols|
    decreases |params| - p
  {
    if p == |params| then counts == [] && (anchored ==> a == |symbols|)
    else
      && counts != []
      && Takes(params[p], symbols, a, counts[0])
      && Assigns(params, symbols, anchored, p + 1, a + counts[0], counts[1..])
  }

  /** The backtracking matcher: parameter p tries its counts from the most
      arguments down, or from the fewest up when lazy, and keeps the first
      count the parameters after it can complete. */
  ghost function Backtrack(params: seq<Param>, symbols: seq<Symbol>, anchored: bool, p: nat, a: nat): Option<seq<nat>>
    requires p <= |params| && a <= |symbols|
    decreases |params| - p, |symbols| + 2
  {
    if p == |params| then
      if anchored && a != |symbols| then None else Some([])
    else if params[p].lazy then
      TryUp(params, symbols, anchored, p, a, 0)
    else
      TryDown(params, symbols, anchored, p, a, |symbols| - a)
  }

  ghost function TryCount(params: seq<Param>, symbols: seq<Symbol>, anchored: bool, p: nat, a: nat,
                          n: nat): Option<seq<nat>>
    requires p < |params| && a <= |symbols|
    decreases |params| - p, 0
  {
    if !Takes(params[p], symbols, a, n) then None
    else match Backtrack(params, symbols, anchored, p + 1, a + n)
      case None => None
      case Some(rest) => Some([n] + rest)
  }

  ghost function TryUp(params: seq<Param>, symbols: seq<Symbol>, anchored: bool, p: nat, a: nat,
                       n: nat): Option<seq<nat>>
    requires p < |params| && a + n <= |symbols| + 1
    requires a <= |symbols|
    decreases |params| - p, |symbols| + 1 - (a + n)
  {
    if a + n > |symbols| then None
    else
      var r := TryCount(params, symbols, anchored, p, a, n);
      if r.Some? then r else TryUp(params, symbols, anchored, p, a, n + 1)
  }

  ghost function TryDown(params: seq<Param>, symbols: seq<Symbol>, anchored: bool, p: nat, a: nat,
                         n: nat): Option<seq<nat>>
    requires p < |params| && a + n <= |symbols|
    decreases |params| - p, n + 1
  {
    var r := TryCount(params, symbols, anchored, p, a, n);
    if r.Some? || n == 0 then r else TryDown(params, symbols, anchored, p, a, n - 1)
  }

  /** x comes before y in the order the matcher tries counts: at the first
      parameter where they differ, x takes more, or fewer when it is lazy. */
  ghost predicate Before(params: seq<Param>, p: nat, x: seq<nat>, y: seq<nat>)
    requires p + |x| == p + |y| == |params|
    decreases |x|
  {
    x != [] &&
    if x[0] == y[0] then Before(params, p + 1, x[1..], y[1..])
    else if params[p].lazy then x[0] < y[0]
    else x[0] > y[0]
  }

  lemma {:induction false} AssignsLength(params: seq<Param>, symbols: seq<Symbol>, anchored: bool, p: nat, a: nat,
                                         counts: seq<nat>)
    requires p <= |params| && a <= |symbols|
    requires Assigns(params, symbols, anchored, p, a, counts)
    ensures |counts| == |params| - p
    decreases |params| - p
  {
    if p < |params| {
      AssignsLength(params, symbols, anchored, p + 1, a + counts[0], counts[1..]);
    }
  }

  /** What the matcher returns is an assignment, and comes before every other one. */
  lemma {:induction false} BacktrackFindsFirst(params: seq<Param>, symbols: seq<Symbol>, anchored: bool, p: nat,
                                               a: nat, counts: seq<nat>)
    requires p <= |params| && a <= |symbols|
    requires Backtrack(params, symbols, anchored, p, a) == Some(counts)
    ensures Assigns(params, symbols, anchored, p, a, counts)
    ensures |counts| == |params| - p
    ensures forall other :: Assigns(params, symbols, anchored, p, a, other) && other != counts ==>
              |other| == |counts| && Before(params, p, counts, other)
    decreases |params| - p
  {
    if p < |params| {
      var n := FirstCount(params, symbols, anchored, p, a, counts);
      BacktrackFindsFirst(params, symbols, anchored, p + 1, a + n, counts[1..]);
      forall other | Assigns(params, symbols, anchored, p, a, other) && other != counts
        ensures |other| == |counts| && Before(params, p, counts, other)
      {
        AssignsLength(params, symbols, anchored, p, a, other);
        if other[0] == n {
          assert other == [n] + other[1..] && counts == [n] + counts[1..];
        } else {
          BacktrackFindsSome(params, symbols, anchored, p + 1, a + other[0], other[1..]);
        }
      }
    }
  }

  /** The count the matcher settles on for parameter p, and that none it tried earlier could be completed. */
  lemma {:induction false} FirstCount(params: seq<Param>, symbols: seq<Symbol>, anchored: bool, p: nat, a: nat,
                                      counts: seq<nat>) returns (n: nat)
    requires p < |params| && a <= |symbols|
    requires Backtrack(params, symbols, anchored, p, a) == Some(counts)
    ensures counts != [] && counts[0] == n && Takes(params[p], symbols, a, n)
    ensures Backtrack(params, symbols, anchored, p + 1, a + n) == Some(counts[1..])
    ensures forall m: nat :: (if params[p].lazy then m < n else m > n) && Takes(params[p], symbols, a, m) ==>
              Backtrack(params, symbols, anchored, p + 1, a + m).None?
  {
    if params[p].lazy {
      n := 0;
      while TryCount(params, symbols, anchored, p, a, n).None?
        invariant a + n <= |symbols|
        invariant TryUp(params, symbols, anchored, p, a, n) == Some(counts)
        invariant forall m: nat :: m < n && Takes(params[p], symbols, a, m) ==>
                    Backtrack(params, symbols, anchored, p + 1, a + m).None?
        decreases |symbols| - n
      {
        n := n + 1;
      }
    } else {
      n := |symbols| - a;
      while TryCount(params, symbols, anchored, p, a, n).None?
        invariant a + n <= |symbols|
        invariant TryDown(params, symbols, anchored, p, a, n) == Some(counts)
        invariant forall m: nat :: m > n && Takes(params[p], symbols, a, m) ==>
                    Backtrack(params, symbols, anchored, p + 1, a + m).None?
        decreases n
      {
        n := n - 1;
      }
    }
  }

  /** The matcher fails only when there is no assignment. */
  lemma {:induction false} BacktrackFindsSome(params: seq<Param>, symbols: seq<Symbol>, anchored: bool, p: nat, a: nat,
                                              counts: seq<nat>)
    requires p <= |params| && a <= |symbols|
    requires Assigns(params, symbols, anchored, p, a, counts)
    ensures Backtrack(params, symbols, anchored, p, a).Some?
    decreases |params| - p
  {
    if p < |params| {
      var n := counts[0];
      BacktrackFindsSome(params, symbols, anchored, p + 1, a + n, counts[1..]);
      assert TryCount(params, symbols, anchored, p, a, n).Some?;
      if params[p].lazy {
        TryUpReaches(params, symbols, anchored, p, a, 0, n);
      } else {
        TryDownReaches(params, symbols, anchored, p, a, |symbols| - a, n);
      }
    }
  }

  lemma {:induction false} TryUpReaches(params: seq<Param>, symbols: seq<Symbol>, anchored: bool, p: nat, a: nat,
                                        from: nat, n: nat)
    requires p < |params| && from <= n && a + n <= |symbols|
    requires TryCount(params, symbols, anchored, p, a, n).Some?
    ensures TryUp(params, symbols, anchored, p, a, from).Some?
    decreases n - from
  {
    if from < n {
      TryUpReaches(params, symbols, anchored, p, a, from + 1, n);
    }
  }

  lemma {:induction false} TryDownReaches(params: seq<Param>, symbols: seq<Symbol>, anchored: bool, p: nat, a: nat,
                                          from: nat, n: nat)
    requires p < |params| && n <= from && a + from <= |symbols|
    requires TryCount(params, symbols, anchored, p, a, n).Some?
    ensures TryDown(params, symbols, anchored, p, a, from).Some?
  {
    if n < from {
      TryDownReaches(params, symbols, anchored, p, a, from - 1, n);
    }
  }

  /** The parameters from p on match the arguments from a on. */
  ghost predicate Matches(params: seq<Param>, symbols: seq<Symbol>, anchored: bool, p: nat, a: nat)
    requires p <= |params| && a <= |symbols|
  {
    Backtrack(params, symbols, anchored, p, a).Some?
  }

  /** A signature matches exactly when some assignment exists. */
  lemma MatchesIffAssigned(params: seq<Param>, symbols: seq<Symbol>, anchored: bool, p: nat, a: nat)
    requires p <= |params| && a <= |symbols|
    ensures Matches(params, symbols, anchored, p, a) <==>
            exists counts :: Assigns(params, symbols, anchored, p, a, counts)
  {
    if Matches(params, symbols, anchored, p, a) {
      var counts := Backtrack(params, symbols, anchored, p, a).value;
      BacktrackFindsFirst(params, symbols, anchored, p, a, counts);
      assert exists c :: Assigns(params, symbols, anchored, p, a, c);
    } else {
      forall counts | Assigns(params, symbols, anchored, p, a, counts)
        ensures false
      {
        BacktrackFindsSome(params, symbols, anchored, p, a, counts);
      }
      assert !exists c :: Assigns(params, symbols, anchored, p, a, c);
    }
  }

  /** Parameter p matches by some count that the parameters after it complete. */
  lemma {:induction false} MatchesByCount(params: seq<Param>, symbols: seq<Symbol>, anchored: bool, p: nat, a: nat)
    requires p < |params| && a <= |symbols|
    ensures Matches(params, symbols, anchored, p, a) <==>
            exists n: nat :: Takes(params[p], symbols, a, n) && Matches(params, symbols, anchored, p + 1, a + n)
  {
    if Matches(params, symbols, anchored, p, a) {
      var n := FirstCount(params, symbols, anchored, p, a, Backtrack(params, symbols, anchored, p, a).value);
    }
    forall n: nat | Takes(params[p], symbols, a, n) && Matches(params, symbols, anchored, p + 1, a + n)
      ensures Matches(params, symbols, anchored, p, a)
    {
      assert TryCount(params, symbols, anchored, p, a, n).Some?;
      if params[p].lazy {
        TryUpReaches(params, symbols, anchored, p, a, 0, n);
      } else {
        TryDownReaches(params, symbols, anchored, p, a, |symbols| - a, n);
      }
    }
  }

  /** The recurrence the matching table is filled by: skip the parameter, or take one argument and stop or go on. */
  lemma {:induction false} MatchesRecurrence(params: seq<Param>, symbols: seq<Symbol>, anchored: bool, p: nat, a: nat)
    requires p < |params| && a <= |symbols|
    ensures Matches(params, symbols, anchored, p, a) <==>
            || (params[p].optional && Matches(params, symbols, anchored, p + 1, a))
            || (a < |symbols| && symbols[a] in params[p].symbols &&
                (Matches(params, symbols, anchored, p + 1, a + 1) ||
                 (params[p].variadic && Matches(params, symbols, anchored, p, a + 1))))
  {
    MatchesByCount(params, symbols, anchored, p, a);
    if Matches(params, symbols, anchored, p, a) {
      var n: nat :| Takes(params[p], symbols, a, n) && Matches(params, symbols, anchored, p + 1, a + n);
      if n > 1 {
        TakenIsMatched(params, symbols, anchored, p, a + 1, n - 1);
      }
    } else {
      NoCount(params, symbols, anchored, p, a);
    }
  }

  lemma TakenIsMatched(params: seq<Param>, symbols: seq<Symbol>, anchored: bool, p: nat, a: nat, n: nat)
    requires p < |params| && a <= |symbols|
    requires Takes(params[p], symbols, a, n) && Matches(params, symbols, anchored, p + 1, a + n)
    ensures Matches(params, symbols, anchored, p, a)
  {
    MatchesByCount(params, symbols, anchored, p, a);
  }

  lemma NoCount(params: seq<Param>, symbols: seq<Symbol>, anchored: bool, p: nat, a: nat)
    requires p < |params| && a <= |symbols|
    requires !Matches(params, symbols, anchored, p, a)
    ensures !(params[p].optional && Matches(params, symbols, anchored, p + 1, a))
    ensures a < |symbols| && symbols[a] in params[p].symbols ==>
              !Matches(params, symbols, anchored, p + 1, a + 1) &&
              !(params[p].variadic && Matches(params, symbols, anchored, p, a + 1))
  {
    if params[p].optional && Matches(params, symbols, anchored, p + 1, a) {
      TakenIsMatched(params, symbols, anchored, p, a, 0);
    }
    if a < |symbols| && symbols[a] in params[p].symbols {
      if Matches(params, symbols, anchored, p + 1, a + 1) {
        TakenIsMatched(params, symbols, anchored, p, a, 1);
      }
      if params[p].variadic && Matches(params, symbols, anchored, p, a + 1) {
        MatchesByCount(params, symbols, anchored, p, a + 1);
        var n: nat :| Takes(params[p], symbols, a + 1, n) && Matches(params, symbols, anchored, p + 1, a + 1 + n);
        TakenIsMatched(params, symbols, anchored, p, a, 1 + n);
      }
    }
  }
}
