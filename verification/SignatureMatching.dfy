/** The table-driven matchers of function signatures, proved against the
    backtracking matcher of SignatureRegex. */
module SignatureMatching {
  import opened Wrappers
  import opened SignatureRegex

  /** One parameter as the signature parser leaves it. */
  datatype ParamSpec = ParamSpec(types: seq<char>, content: Content, optional: bool, variadic: bool,
                                 context: bool, lazy: bool, anyContext: bool)

  const ALL_SYMBOLS: set<Symbol> := {Array, Text, Number, Boolean, Null, Function, Object, Missing}

  /** The symbol a type letter stands for, if it is one. */
  function SymbolOf(letter: char): Option<Symbol> {
    match letter
    case 'a' => Some(Array)
    case 's' => Some(Text)
    case 'n' => Some(Number)
    case 'b' => Some(Boolean)
    case 'l' => Some(Null)
    case 'f' => Some(Function)
    case 'o' => Some(Object)
    case 'm' => Some(Missing)
    case _ => None
  }

  function LetterSymbols(types: seq<char>): set<Symbol> {
    if types == [] then {Missing}
    else
      var rest := LetterSymbols(types[1..]);
      match SymbolOf(types[0])
      case None => rest
      case Some(symbol) => rest + {symbol}
  }

  function ParamSymbols(types: seq<char>): set<Symbol> {
    if types == ['a'] || types == ['x'] then ALL_SYMBOLS
    else if types == ['j'] then ALL_SYMBOLS - {Function}
    else if types == ['f'] then {Function}
    else if types == ['u'] then {Boolean, Number, Text, Null, Missing}
    else LetterSymbols(types)
  }

  function CompileParam(spec: ParamSpec): Param {
    Param(ParamSymbols(spec.types), (spec.optional || spec.context) && !spec.variadic, spec.variadic, spec.lazy,
          spec.context, spec.anyContext, spec.types == ['a'], spec.content)
  }

  datatype Signature = Signature(params: seq<Param>, variadic: bool, hasContext: bool, zeroMatches: bool,
                                 restOptional: bool, required: nat)
  {
    ghost predicate Valid() {
      && (variadic <==> exists param :: param in params && param.variadic)
      && (hasContext <==> exists param :: param in params && param.context)
      && (zeroMatches <==> forall param :: param in params ==> param.optional)
      && (restOptional <==> params != [] && !variadic &&
                            forall param :: param in params[1..] ==> !param.context && param.optional)
      && required == Required(params)
      && (forall param :: param in params && param.variadic ==> !param.optional)
      && (forall param :: param in params && param.context && !param.variadic ==> param.optional)
    }
  }

  function Required(params: seq<Param>): nat {
    if params == [] then 0
    else (if !params[0].optional && !params[0].context then 1 else 0) + Required(params[1..])
  }

  function Compile(specs: seq<ParamSpec>): (signature: Signature)
    ensures signature.Valid()
  {
    var params := seq(|specs|, i requires 0 <= i < |specs| => CompileParam(specs[i]));
    Signature(
      params,
      exists param :: param in params && param.variadic,
      exists param :: param in params && param.context,
      forall param :: param in params ==> param.optional,
      params != [] && !(exists param :: param in params && param.variadic) &&
      forall param :: param in params[1..] ==> !param.context && param.optional,
      Required(params))
  }

  function Sum(counts: seq<nat>): nat {
    if counts == [] then 0 else counts[0] + Sum(counts[1..])
  }

  lemma {:induction false} SumAppend(counts: seq<nat>, n: nat)
    ensures Sum(counts + [n]) == Sum(counts) + n
  {
    if counts == [] {
      assert counts + [n] == [n];
      assert Sum([n]) == n + Sum([]);
    } else {
      assert (counts + [n])[1..] == counts[1..] + [n];
      SumAppend(counts[1..], n);
    }
  }

  /** A count that fits, is completed by the later parameters and is preferred to every other such count
      is the one the backtracking matcher settles on. */
  lemma BacktrackPicks(params: seq<Param>, symbols: seq<Symbol>, anchored: bool, p: nat, a: nat, n: nat)
    requires p < |params| && a <= |symbols|
    requires Takes(params[p], symbols, a, n) && Matches(params, symbols, anchored, p + 1, a + n)
    requires forall m: nat :: Takes(params[p], symbols, a, m) && Matches(params, symbols, anchored, p + 1, a + m) ==>
               if params[p].lazy then n <= m else m <= n
    ensures Matches(params, symbols, anchored, p, a)
    ensures Backtrack(params, symbols, anchored, p, a).value == [n]
            + Backtrack(params, symbols, anchored, p + 1, a + n).value
  {
    TakenIsMatched(params, symbols, anchored, p, a, n);
    var counts := Backtrack(params, symbols, anchored, p, a).value;
    var first := FirstCount(params, symbols, anchored, p, a, counts);
    assert first == n;
    assert counts == [n] + counts[1..];
  }

  /** The first nParams parameters of signature matched against symbols: anchored,
      they must take every argument; else as many from the start as they take. */
  method Solve(signature: Signature, symbols: seq<Symbol>, nParams: nat, anchored: bool)
    returns (counts: seq<nat>, matched: nat, ok: bool)
    requires nParams <= |signature.params|
    ensures ok == Matches(signature.params[..nParams], symbols, anchored, 0, 0)
    ensures ok ==> Some(counts) == Backtrack(signature.params[..nParams], symbols, anchored, 0, 0)
    ensures ok ==> matched == Sum(counts)
    ensures !ok ==> counts == [] && matched == 0
  {
    ghost var params := signature.params[..nParams];
    var nArgs := |symbols|;
    var reach := new bool[nParams + 1, nArgs + 1];
    for a := 0 to nArgs + 1
      invariant forall b :: 0 <= b < a ==> reach[nParams, b] == Matches(params, symbols, anchored, nParams, b)
    {
      reach[nParams, a] := !anchored || a == nArgs;
    }
    for p := nParams downto 0
      invariant forall q, b :: p <= q <= nParams && 0 <= b <= nArgs ==>
                  reach[q, b] == Matches(params, symbols, anchored, q, b)
    {
      var param := signature.params[p];
      for a := nArgs + 1 downto 0
        invariant forall q, b :: p < q <= nParams && 0 <= b <= nArgs ==>
                    reach[q, b] == Matches(params, symbols, anchored, q, b)
        invariant forall b :: a <= b <= nArgs ==> reach[p, b] == Matches(params, symbols, anchored, p, b)
      {
        var matches := param.optional && reach[p + 1, a];
        if a < nArgs && symbols[a] in param.symbols {
          matches := matches || reach[p + 1, a + 1] || (param.variadic && reach[p, a + 1]);
        }
        reach[p, a] := matches;
        assert params[p] == param;
        MatchesRecurrence(params, symbols, anchored, p, a);
      }
    }
    if !reach[0, 0] {
      return [], 0, false;
    }
    counts := [];
    var a := 0;
    for p := 0 to nParams
      invariant a <= nArgs && a == Sum(counts)
      invariant forall q :: 0 <= q <= nParams ==> RowHolds(reach, params, symbols, anchored, q)
      invariant Matches(params, symbols, anchored, 0, 0) && Matches(params, symbols, anchored, p, a)
      invariant Backtrack(params, symbols, anchored, 0, 0).value ==
                counts + Backtrack(params, symbols, anchored, p, a).value
    {
      var n := ChooseCount(signature.params[p], symbols, a, reach, p, params, anchored);
      assert params[p] == signature.params[p];
      BacktrackPicks(params, symbols, anchored, p, a, n);
      SumAppend(counts, n);
      counts := counts + [n];
      a := a + n;
    }
    assert counts + [] == counts;
    matched := a;
    ok := true;
  }

  /** Row q of the table says from which arguments on the parameters from q on match. */
  ghost predicate RowHolds(reach: array2<bool>, params: seq<Param>, symbols: seq<Symbol>, anchored: bool, q: nat)
    requires q <= |params| && reach.Length0 == |params| + 1 && reach.Length1 == |symbols| + 1
    reads reach
  {
    forall b :: 0 <= b <= |symbols| ==> reach[q, b] == Matches(params, symbols, anchored, q, b)
  }

  /** The count parameter p takes from argument a on: the most that the table
      says the later parameters complete, or the fewest when lazy. */
  method ChooseCount(param: Param, symbols: seq<Symbol>, a: nat, reach: array2<bool>, p: nat,
                     ghost params: seq<Param>, ghost anchored: bool)
    returns (chosen: nat)
    requires p < |params| && params[p] == param && a <= |symbols|
    requires reach.Length0 == |params| + 1 && reach.Length1 == |symbols| + 1
    requires RowHolds(reach, params, symbols, anchored, p + 1)
    requires Matches(params, symbols, anchored, p, a)
    ensures Takes(param, symbols, a, chosen) && Matches(params, symbols, anchored, p + 1, a + chosen)
    ensures forall m: nat :: Takes(param, symbols, a, m) && Matches(params, symbols, anchored, p + 1, a + m) ==>
              if param.lazy then chosen <= m else m <= chosen
  {
    var most := 0;
    while a + most < |symbols| && (most == 0 || param.variadic) && symbols[a + most] in param.symbols
      invariant a + most <= |symbols| && (most <= 1 || param.variadic)
      invariant forall i :: a <= i < a + most ==> symbols[i] in param.symbols
      decreases |symbols| - most
    {
      most := most + 1;
    }
    assert forall m: nat :: Takes(param, symbols, a, m) ==> m <= most;
    var least := Least(param);
    var n := -1;
    var take := most;
    while take >= least
      invariant least - 1 <= take <= most || take == most
      invariant n == -1 || (take < n <= most && Takes(param, symbols, a, n) && reach[p + 1, a + n])
      invariant forall m: nat :: take < m && Takes(param, symbols, a, m) && reach[p + 1, a + m] ==>
                  n >= 0 && if param.lazy then n <= m else m <= n
    {
      if reach[p + 1, a + take] && (n < 0 || param.lazy) {
        n := take;
      }
      take := take - 1;
    }
    MatchesByCount(params, symbols, anchored, p, a);
    chosen := n;
  }

  /** Without '+', no more arguments than parameters are taken. */
  lemma {:induction false} FixedTakesFew(params: seq<Param>, symbols: seq<Symbol>, p: nat, a: nat)
    requires p <= |params| && a <= |symbols|
    requires forall param :: param in params ==> !param.variadic
    requires Matches(params, symbols, true, p, a)
    ensures |symbols| - a <= |params| - p
    decreases |params| - p
  {
    if p < |params| {
      var n := FirstCount(params, symbols, true, p, a, Backtrack(params, symbols, true, p, a).value);
      FixedTakesFew(params, symbols, p + 1, a + n);
    }
  }

  /** The counts Solve finds, where no parameter repeats. */
  method MatchFixed(signature: Signature, symbols: seq<Symbol>) returns (counts: seq<nat>, ok: bool)
    requires forall param :: param in signature.params ==> !param.variadic
    ensures ok == Matches(signature.params, symbols, true, 0, 0)
    ensures ok ==> Some(counts) == Backtrack(signature.params, symbols, true, 0, 0)
  {
    ghost var params := signature.params;
    var nArgs, nParams := |symbols|, |signature.params|;
    var skips := nParams - nArgs;
    if skips < 0 {
      if Matches(params, symbols, true, 0, 0) {
        FixedTakesFew(params, symbols, 0, 0);
      }
      return [], false;
    }
    var reach := FixedTable(signature, symbols, skips);
    assert FixedEntry(params, symbols, 0, 0) == Matches(params, symbols, true, 0, 0);
    if !reach[0, 0] {
      return [], false;
    }
    counts := [];
    var k := 0;
    for p := 0 to nParams
      invariant 0 <= k <= skips && k <= p && p - k <= nArgs
      invariant forall q, j :: 0 <= q <= nParams && 0 <= j <= skips ==> reach[q, j] == FixedEntry(params, symbols, q, j)
      invariant Matches(params, symbols, true, 0, 0) && Matches(params, symbols, true, p, p - k)
      invariant Backtrack(params, symbols, true, 0, 0).value ==
                counts + Backtrack(params, symbols, true, p, p - k).value
    {
      var param := signature.params[p];
      var a := p - k;
      FixedRecurrence(params, symbols, p, a);
      var take := a < nArgs && symbols[a] in param.symbols && reach[p + 1, k];
      var skip := param.optional && k < skips && reach[p + 1, k + 1];
      if take && (!skip || !param.lazy) {
        BacktrackPicks(params, symbols, true, p, a, 1);
        counts := counts + [1];
      } else {
        BacktrackPicks(params, symbols, true, p, a, 0);
        counts := counts + [0];
        k := k + 1;
      }
    }
    assert counts + [] == counts;
    ok := true;
  }

  /** After skipping k of the first q parameters, the parameters from q on match the arguments from q - k on. */
  ghost predicate FixedEntry(params: seq<Param>, symbols: seq<Symbol>, q: nat, k: nat)
    requires q <= |params|
  {
    k <= q && q - k <= |symbols| && Matches(params, symbols, true, q, q - k)
  }

  /** The table of suffixes that match: a row a parameter, a column a number of skips. */
  method FixedTable(signature: Signature, symbols: seq<Symbol>, skips: nat) returns (reach: array2<bool>)
    requires forall param :: param in signature.params ==> !param.variadic
    requires skips == |signature.params| - |symbols|
    ensures reach.Length0 == |signature.params| + 1 && reach.Length1 == skips + 1
    ensures forall q, k :: 0 <= q <= |signature.params| && 0 <= k <= skips ==>
              reach[q, k] == FixedEntry(signature.params, symbols, q, k)
  {
    ghost var params := signature.params;
    var nArgs, nParams := |symbols|, |signature.params|;
    reach := new bool[nParams + 1, skips + 1]((q, k) => false);
    reach[nParams, skips] := true;
    for p := nParams downto 0
      invariant forall q, k :: p <= q <= nParams && 0 <= k <= skips ==> reach[q, k] == FixedEntry(params, symbols, q, k)
      invariant forall q, k :: 0 <= q < p && 0 <= k <= skips ==> !reach[q, k]
    {
      var param := signature.params[p];
      var k := 0;
      while k <= skips && k <= p
        invariant 0 <= k <= skips + 1
        invariant forall q, j :: p < q <= nParams && 0 <= j <= skips ==>
                  reach[q, j] == FixedEntry(params, symbols, q, j)
        invariant forall q, j :: 0 <= q < p && 0 <= j <= skips ==> !reach[q, j]
        invariant forall j :: k <= j <= skips ==> !reach[p, j]
        invariant forall j :: 0 <= j < k ==> reach[p, j] == FixedEntry(params, symbols, p, j)
      {
        var a := p - k;
        if a <= nArgs {
          FixedRecurrence(params, symbols, p, a);
          var matches := a < nArgs && symbols[a] in param.symbols && reach[p + 1, k];
          if !matches && param.optional && k < skips {
            matches := reach[p + 1, k + 1];
          }
          reach[p, k] := matches;
        }
        k := k + 1;
      }
    }
  }

  /** MatchesRecurrence for a parameter without '+': it takes one argument or none. */
  lemma FixedRecurrence(params: seq<Param>, symbols: seq<Symbol>, p: nat, a: nat)
    requires p < |params| && a <= |symbols|
    requires forall param :: param in params ==> !param.variadic
    ensures Matches(params, symbols, true, p, a) <==>
            || (params[p].optional && Matches(params, symbols, true, p + 1, a))
            || (a < |symbols| && symbols[a] in params[p].symbols && Matches(params, symbols, true, p + 1, a + 1))
    ensures Matches(params, symbols, true, p + 1, a) ==> |symbols| - a <= |params| - p - 1
    ensures forall n: nat :: Takes(params[p], symbols, a, n) ==> n <= 1
  {
    MatchesRecurrence(params, symbols, true, p, a);
    if Matches(params, symbols, true, p + 1, a) {
      FixedTakesFew(params, symbols, p + 1, a);
    }
  }

  /** The counts each parameter takes of arguments with the given symbols, as the regex chooses them. */
  method MatchSymbols(signature: Signature, symbols: seq<Symbol>) returns (counts: seq<nat>, ok: bool)
    requires signature.Valid()
    ensures ok == Matches(signature.params, symbols, true, 0, 0)
    ensures ok ==> Some(counts) == Backtrack(signature.params, symbols, true, 0, 0)
  {
    if !signature.variadic {
      counts, ok := MatchFixed(signature, symbols);
    } else {
      assert signature.params[..|signature.params|] == signature.params;
      var matched;
      counts, matched, ok := Solve(signature, symbols, |signature.params|, true);
    }
  }

  /** A call without arguments matches when every parameter is optional, each taking none. */
  lemma {:induction false} NoArguments(params: seq<Param>, p: nat)
    requires p <= |params|
    ensures Matches(params, [], true, p, 0) <==> forall q :: p <= q < |params| ==> params[q].optional
    ensures Matches(params, [], true, p, 0) ==>
              Backtrack(params, [], true, p, 0).value == seq(|params| - p, i => 0)
    decreases |params| - p
  {
    if p < |params| {
      NoArguments(params, p + 1);
      MatchesRecurrence(params, [], true, p, 0);
      if Matches(params, [], true, p, 0) {
        BacktrackPicks(params, [], true, p, 0, 0);
      }
    }
  }

  /** MatchSymbols, with calls of no arguments read off zeroMatches. */
  method Match(signature: Signature, symbols: seq<Symbol>) returns (counts: seq<nat>, ok: bool)
    requires signature.Valid()
    ensures ok == Matches(signature.params, symbols, true, 0, 0)
    ensures ok ==> Some(counts) == Backtrack(signature.params, symbols, true, 0, 0)
  {
    if symbols == [] {
      NoArguments(signature.params, 0);
      ok := signature.zeroMatches;
      counts := seq(|signature.params|, i => 0);
    } else {
      counts, ok := MatchSymbols(signature, symbols);
    }
  }
}
