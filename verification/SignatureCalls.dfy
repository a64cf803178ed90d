/** What a signature does to a call: filling arguments left to the context,
    validating and coercing them, and blaming the argument that does not match. */
module SignatureCalls {
  import opened Wrappers
  import opened SignatureRegex
  import opened SignatureMatching

  datatype Value = Undefined | NullValue | Str(s: string) | Num(n: real) | Bool(b: bool)
                 | Func(id: nat) | Obj(id: nat) | Items(items: seq<Value>)

  /** T0410, T0411 and T0412, with the number of the argument each names. */
  datatype Error = Mismatch(argument: nat) | BadContext(argument: nat) | BadContent(argument: nat)

  type Args = Result<seq<Value>, Error>

  /** The values a symbol stands for. */
  predicate IsOf(symbol: Symbol, v: Value) {
    match symbol
    case Missing => v == Undefined
    case Null => v == NullValue
    case Text => v.Str?
    case Number => v.Num?
    case Boolean => v.Bool?
    case Function => v.Func?
    case Object => v.Obj?
    case Array => v.Items?
  }

  function SymbolOfValue(v: Value): (symbol: Symbol)
    ensures IsOf(symbol, v)
  {
    match v
    case Undefined => Missing
    case NullValue => Null
    case Str(_) => Text
    case Num(_) => Number
    case Bool(_) => Boolean
    case Func(_) => Function
    case Obj(_) => Object
    case Items(_) => Array
  }

  function Symbols(args: seq<Value>): (symbols: seq<Symbol>)
    ensures |symbols| == |args|
    ensures forall i :: 0 <= i < |args| ==> symbols[i] == SymbolOfValue(args[i])
  {
    seq(|args|, i requires 0 <= i < |args| => SymbolOfValue(args[i]))
  }

  const MAX_MATCH_CELLS: nat := 65536

  /** The matching table for nArgs arguments stays within MAX_MATCH_CELLS. */
  predicate Fits(signature: Signature, nArgs: nat) {
    var nParams := |signature.params|;
    if signature.variadic then (nParams + 1) * (nArgs + 1) <= MAX_MATCH_CELLS
    else nArgs > nParams || (nParams + 1) * (nParams - nArgs + 1) <= MAX_MATCH_CELLS
  }

  predicate FocusFits(param: Param, focus: Value) {
    param.anyFocus || SymbolOfValue(focus) in param.symbols
  }

  function ArgAt(args: seq<Value>, i: nat): Value {
    if i < |args| then args[i] else Undefined
  }

  /** r is what is passed after the arguments passed so far. */
  function Prefixed(passed: seq<Value>, r: Args): Args {
    match r
    case Ok(rest) => Ok(passed + rest)
    case Err(e) => Err(e)
  }

  lemma PrefixedNone(r: Args)
    ensures Prefixed([], r) == r
  {
    if r.Ok? {
      assert [] + r.value == r.value;
    }
  }

  lemma PrefixedTwice(x: seq<Value>, y: seq<Value>, r: Args)
    ensures Prefixed(x, Prefixed(y, r)) == Prefixed(x + y, r)
  {
    if r.Ok? {
      assert x + (y + r.value) == x + y + r.value;
    }
  }

  /** A parameter left to the context: it is marked '-' and no argument goes to it. */
  predicate FromContext(param: Param, count: nat) {
    count == 0 && param.context
  }

  /** The arguments from a on, with the focus put in for every parameter from p on that is left to it. */
  function Filled(params: seq<Param>, p: nat, counts: seq<nat>, args: seq<Value>, a: nat, focus: Value): Args
    requires p + |counts| == |params| && a + Sum(counts) <= |args|
    decreases |counts|
  {
    if counts == [] then Ok([])
    else if FromContext(params[p], counts[0]) then
      if !FocusFits(params[p], focus) then Err(BadContext(a + 1))
      else Prefixed([focus], Filled(params, p + 1, counts[1..], args, a, focus))
    else Prefixed(args[a..a + counts[0]], Filled(params, p + 1, counts[1..], args, a + counts[0], focus))
  }

  /** The counts the regex picks for a call, if it matches. */
  ghost function Picked(signature: Signature, args: seq<Value>): (r: Option<seq<nat>>)
    ensures r.Some? ==> |r.value| == |signature.params| && Sum(r.value) == |args|
  {
    var r := Backtrack(signature.params, Symbols(args), true, 0, 0);
    if r.Some? then
      BacktrackFindsFirst(signature.params, Symbols(args), true, 0, 0, r.value);
      AssignsSum(signature.params, Symbols(args), 0, 0, r.value);
      r
    else r
  }

  lemma {:induction false} AssignsSum(params: seq<Param>, symbols: seq<Symbol>, p: nat, a: nat, counts: seq<nat>)
    requires p <= |params| && a <= |symbols|
    requires Assigns(params, symbols, true, p, a, counts)
    ensures a + Sum(counts) == |symbols|
    decreases |params| - p
  {
    if p < |params| {
      AssignsSum(params, symbols, p + 1, a + counts[0], counts[1..]);
    }
  }

  /** What Inject means: a call that does not match, or whose table is too large, is left as it is. */
  ghost function InjectSpec(signature: Signature, args: seq<Value>, focus: Value): Args {
    if !Fits(signature, |args|) then Ok(args)
    else match Picked(signature, args)
      case None => Ok(args)
      case Some(counts) => Filled(signature.params, 0, counts, args, 0, focus)
  }

  /** Some parameter from p on is left to the context. */
  predicate AnyFromContext(params: seq<Param>, p: nat, counts: seq<nat>)
    requires p + |counts| == |params|
  {
    exists i :: 0 <= i < |counts| && FromContext(params[p + i], counts[i])
  }

  lemma {:induction false} FilledUnchanged(params: seq<Param>, p: nat, counts: seq<nat>, args: seq<Value>, a: nat,
                                           focus: Value)
    requires p + |counts| == |params| && a + Sum(counts) == |args|
    requires !AnyFromContext(params, p, counts)
    ensures Filled(params, p, counts, args, a, focus) == Ok(args[a..])
    decreases |counts|
  {
    if counts == [] {
      assert args[a..] == [];
    } else {
      assert !FromContext(params[p + 0], counts[0]);
      forall i | 0 <= i < |counts[1..]|
        ensures !FromContext(params[p + 1 + i], counts[1..][i])
      {
        assert !FromContext(params[p + (i + 1)], counts[i + 1]);
      }
      FilledUnchanged(params, p + 1, counts[1..], args, a + counts[0], focus);
      assert args[a..] == args[a..a + counts[0]] + args[a + counts[0]..];
    }
  }

  /** The counts of the filled call: one for a parameter left to the context. */
  function FilledCounts(params: seq<Param>, p: nat, counts: seq<nat>): (filled: seq<nat>)
    requires p + |counts| == |params|
    ensures |filled| == |counts|
    decreases |counts|
  {
    if counts == [] then []
    else [if FromContext(params[p], counts[0]) then 1 else counts[0]] + FilledCounts(params, p + 1, counts[1..])
  }

  lemma SymbolsShift(args: seq<Value>, more: seq<Value>)
    ensures Symbols(args + more) == Symbols(args) + Symbols(more)
  {
  }

  /** Assignments only look at the arguments from a on. */
  lemma {:induction false} AssignsShift(params: seq<Param>, before: seq<Symbol>, symbols: seq<Symbol>, p: nat, a: nat,
                                        counts: seq<nat>)
    requires p <= |params| && a <= |symbols|
    requires Assigns(params, symbols, true, p, a, counts)
    ensures Assigns(params, before + symbols, true, p, |before| + a, counts)
    decreases |params| - p
  {
    if p < |params| {
      AssignsShift(params, before, symbols, p + 1, a + counts[0], counts[1..]);
      assert forall i :: a <= i < a + counts[0] ==> (before + symbols)[|before| + i] == symbols[i];
      assert forall i :: |before| + a <= i < |before| + a + counts[0] ==>
             (before + symbols)[i] == symbols[i - |before|];
    }
  }

  /** Arguments a parameter takes, put before arguments the later parameters take. */
  lemma AssignsCons(params: seq<Param>, p: nat, head: seq<Value>, rest: seq<Value>, counts: seq<nat>)
    requires p < |params|
    requires Takes(params[p], Symbols(head), 0, |head|)
    requires Assigns(params, Symbols(rest), true, p + 1, 0, counts)
    ensures Assigns(params, Symbols(head + rest), true, p, 0, [|head|] + counts)
  {
    SymbolsShift(head, rest);
    AssignsShift(params, Symbols(head), Symbols(rest), p + 1, 0, counts);
    assert ([|head|] + counts)[1..] == counts;
    assert forall i :: 0 <= i < |head| ==> Symbols(head + rest)[i] == Symbols(head)[i];
  }

  lemma TakesShift(param: Param, args: seq<Value>, a: nat, n: nat)
    requires a + n <= |args| && Takes(param, Symbols(args), a, n)
    ensures Takes(param, Symbols(args[a..a + n]), 0, n)
  {
    var taken := Symbols(args[a..a + n]);
    forall i | 0 <= i < n
      ensures taken[i] in param.symbols
    {
      assert taken[i] == Symbols(args)[a + i];
    }
  }

  lemma FocusTaken(param: Param, focus: Value, a: nat, symbols: seq<Symbol>)
    requires param.context && !param.anyFocus && FocusFits(param, focus) && Takes(param, symbols, a, 0)
    ensures Takes(param, Symbols([focus]), 0, 1)
  {
  }

  /** A filled call is itself a call the signature takes, its context parameters now holding the focus. */
  lemma {:induction false} FilledIsAssigned(params: seq<Param>, p: nat, counts: seq<nat>, args: seq<Value>, a: nat,
                                            focus: Value)
    requires p <= |params| && a <= |args|
    requires Assigns(params, Symbols(args), true, p, a, counts)
    requires p + |counts| == |params| && a + Sum(counts) <= |args|
    requires forall q :: p <= q < |params| && params[q].context ==> !params[q].anyFocus
    requires Filled(params, p, counts, args, a, focus).Ok?
    ensures Assigns(params, Symbols(Filled(params, p, counts, args, a, focus).value), true, p, 0,
                    FilledCounts(params, p, counts))
    decreases |counts|
  {
    if counts != [] {
      var rest := Filled(params, p + 1, counts[1..], args, a + counts[0], focus).value;
      FilledIsAssigned(params, p + 1, counts[1..], args, a + counts[0], focus);
      hide Takes, Symbols;
      if FromContext(params[p], counts[0]) {
        FocusTaken(params[p], focus, a, Symbols(args));
        AssignsCons(params, p, [focus], rest, FilledCounts(params, p + 1, counts[1..]));
      } else {
        TakesShift(params[p], args, a, counts[0]);
        AssignsCons(params, p, args[a..a + counts[0]], rest, FilledCounts(params, p + 1, counts[1..]));
      }
    }
  }

  /** Inject inserts the context for some focus: the signature matches with a parameter left to the context. */
  ghost predicate Injects(signature: Signature, symbols: seq<Symbol>) {
    && Matches(signature.params, symbols, true, 0, 0)
    && (var counts := Backtrack(signature.params, symbols, true, 0, 0).value;
        |counts| == |signature.params| && AnyFromContext(signature.params, 0, counts))
  }

  /** With a parameter left to the context, filling fails on the focus or makes the call longer. */
  lemma {:induction false} FilledGrows(params: seq<Param>, p: nat, counts: seq<nat>, args: seq<Value>, a: nat,
                                       focus: Value)
    requires p + |counts| == |params| && a + Sum(counts) <= |args|
    requires Filled(params, p, counts, args, a, focus).Ok?
    ensures |Filled(params, p, counts, args, a, focus).value| >= Sum(counts)
    ensures AnyFromContext(params, p, counts) ==> |Filled(params, p, counts, args, a, focus).value| > Sum(counts)
    decreases |counts|
  {
    if counts != [] {
      FilledGrows(params, p + 1, counts[1..], args, a + counts[0], focus);
      if AnyFromContext(params, p, counts) && !FromContext(params[p], counts[0]) {
        var i :| 0 <= i < |counts| && FromContext(params[p + i], counts[i]);
        assert FromContext(params[p + 1 + (i - 1)], counts[1..][i - 1]);
      }
    }
  }

  /** Injects decides, from the symbols alone, whether a call can change. */
  lemma InjectsDecides(signature: Signature, args: seq<Value>, focus: Value)
    requires Fits(signature, |args|)
    ensures InjectSpec(signature, args, focus) == Ok(args) <==> !Injects(signature, Symbols(args))
  {
    var picked := Picked(signature, args);
    if picked.Some? {
      var counts := picked.value;
      if AnyFromContext(signature.params, 0, counts) {
        if Filled(signature.params, 0, counts, args, 0, focus).Ok? {
          FilledGrows(signature.params, 0, counts, args, 0, focus);
        }
      } else {
        FilledUnchanged(signature.params, 0, counts, args, 0, focus);
        assert args[0..] == args;
      }
    }
  }

  /** A call Inject changes to one the signature takes: each context parameter then holds the focus. */
  lemma InjectedIsAssigned(signature: Signature, args: seq<Value>, focus: Value)
    requires Fits(signature, |args|) && Picked(signature, args).Some?
    requires forall param :: param in signature.params && param.context ==> !param.anyFocus
    requires InjectSpec(signature, args, focus).Ok?
    ensures Assigns(signature.params, Symbols(InjectSpec(signature, args, focus).value), true, 0, 0,
                    FilledCounts(signature.params, 0, Picked(signature, args).value))
  {
    var counts := Picked(signature, args).value;
    BacktrackFindsFirst(signature.params, Symbols(args), true, 0, 0, counts);
    FilledIsAssigned(signature.params, 0, counts, args, 0, focus);
  }

  /** values are the arguments in order, with the focus put in anywhere between. */
  ghost predicate Interleaves(values: seq<Value>, args: seq<Value>, focus: Value)
    decreases |values|
  {
    if values == [] then args == []
    else
      || (args != [] && values[0] == args[0] && Interleaves(values[1..], args[1..], focus))
      || (values[0] == focus && Interleaves(values[1..], args, focus))
  }

  lemma {:induction false} ArgsInterleave(some: seq<Value>, values: seq<Value>, args: seq<Value>, focus: Value)
    requires Interleaves(values, args, focus)
    ensures Interleaves(some + values, some + args, focus)
    decreases |some|
  {
    if some == [] {
      assert some + values == values && some + args == args;
    } else {
      assert (some + values)[1..] == some[1..] + values && (some + args)[1..] == some[1..] + args;
      ArgsInterleave(some[1..], values, args, focus);
    }
  }

  /** Filling a call only puts the focus in, once for each parameter left to it. */
  lemma {:induction false} FilledInterleaves(params: seq<Param>, p: nat, counts: seq<nat>, args: seq<Value>, a: nat,
                                             focus: Value)
    requires p + |counts| == |params| && a + Sum(counts) == |args|
    requires Filled(params, p, counts, args, a, focus).Ok?
    ensures var values := Filled(params, p, counts, args, a, focus).value;
            |values| == Sum(FilledCounts(params, p, counts)) && Interleaves(values, args[a..], focus)
    decreases |counts|
  {
    if counts == [] {
      assert args[a..] == [];
    } else {
      var b := if FromContext(params[p], counts[0]) then a else a + counts[0];
      FilledInterleaves(params, p + 1, counts[1..], args, b, focus);
      var rest := Filled(params, p + 1, counts[1..], args, b, focus).value;
      if FromContext(params[p], counts[0]) {
        assert ([focus] + rest)[1..] == rest;
      } else {
        ArgsInterleave(args[a..b], rest, args[b..], focus);
        assert args[a..b] + args[b..] == args[a..];
      }
    }
  }

  /** A parameter left to the context is not of the focus's type. */
  predicate Rejects(param: Param, count: nat, focus: Value) {
    FromContext(param, count) && !param.anyFocus && forall symbol :: symbol in param.symbols ==> !IsOf(symbol, focus)
  }

  predicate FirstRejects(params: seq<Param>, p: nat, counts: seq<nat>, focus: Value, i: nat)
    requires p + |counts| == |params|
  {
    && i < |counts| && Rejects(params[p + i], counts[i], focus)
    && forall j :: 0 <= j < i ==> !Rejects(params[p + j], counts[j], focus)
  }

  /** A call cannot be filled exactly when some parameter rejects the focus; the error names the argument after those
      taken before the first that does. */
  lemma {:induction false} FilledUnless(params: seq<Param>, p: nat, counts: seq<nat>, args: seq<Value>, a: nat,
                                        focus: Value)
    requires p + |counts| == |params| && a + Sum(counts) <= |args|
    ensures match Filled(params, p, counts, args, a, focus)
            case Ok(_) => forall i :: 0 <= i < |counts| ==> !Rejects(params[p + i], counts[i], focus)
            case Err(e) => exists i: nat :: FirstRejects(params, p, counts, focus, i)
                                            && e == BadContext(a + Sum(counts[..i]) + 1)
    decreases |counts|
  {
    if counts != [] {
      var rejects := FromContext(params[p], counts[0]) && !FocusFits(params[p], focus);
      assert Rejects(params[p], counts[0], focus) <==> rejects;
      if Rejects(params[p], counts[0], focus) {
        assert counts[..0] == [];
        assert FirstRejects(params, p, counts, focus, 0);
      } else {
        FilledUnless(params, p + 1, counts[1..], args, a + counts[0], focus);
        RejectsLater(params, p, counts, a, focus, Filled(params, p + 1, counts[1..], args, a + counts[0], focus));
      }
    }
  }

  lemma RejectsLater(params: seq<Param>, p: nat, counts: seq<nat>, a: nat, focus: Value, rest: Args)
    requires p + |counts| == |params| && counts != [] && !Rejects(params[p], counts[0], focus)
    ensures (forall i :: 0 <= i < |counts[1..]| ==> !Rejects(params[p + 1 + i], counts[1..][i], focus)) ==>
              forall i :: 0 <= i < |counts| ==> !Rejects(params[p + i], counts[i], focus)
    ensures rest.Err? && (exists i: nat :: FirstRejects(params, p + 1, counts[1..], focus, i)
                                           && rest.error == BadContext(a + counts[0] + Sum(counts[1..][..i]) + 1)) ==>
              exists i: nat :: FirstRejects(params, p, counts, focus, i)
                               && rest.error == BadContext(a + Sum(counts[..i]) + 1)
  {
    hide Rejects;
    if rest.Err? {
      if i: nat :| FirstRejects(params, p + 1, counts[1..], focus, i)
                   && rest.error == BadContext(a + counts[0] + Sum(counts[1..][..i]) + 1) {
        assert counts[..i + 1][1..] == counts[1..][..i];
        forall j | 0 <= j < i + 1
          ensures !Rejects(params[p + j], counts[j], focus)
        {
          if j > 0 {
            assert !Rejects(params[p + 1 + (j - 1)], counts[1..][j - 1], focus);
          }
        }
        assert FirstRejects(params, p, counts, focus, i + 1);
      }
    }
    if forall i :: 0 <= i < |counts[1..]| ==> !Rejects(params[p + 1 + i], counts[1..][i], focus) {
      forall i | 0 <= i < |counts|
        ensures !Rejects(params[p + i], counts[i], focus)
      {
        if i > 0 {
          assert !Rejects(params[p + 1 + (i - 1)], counts[1..][i - 1], focus);
        }
      }
    }
  }

  /** What Inject gives is the arguments, with the focus put in between. */
  lemma InjectedInterleaves(signature: Signature, args: seq<Value>, focus: Value)
    requires InjectSpec(signature, args, focus).Ok?
    ensures Interleaves(InjectSpec(signature, args, focus).value, args, focus)
  {
    if Fits(signature, |args|) && Picked(signature, args).Some? {
      FilledInterleaves(signature.params, 0, Picked(signature, args).value, args, 0, focus);
      assert args[0..] == args;
    } else {
      assert Interleaves([], [], focus);
      ArgsInterleave(args, [], [], focus);
      assert args + [] == args;
    }
  }

  /** As many ones as there are arguments, then zeros. */
  function InOrder(nParams: nat, nArgs: nat): seq<nat> {
    seq(nParams, i => if i < nArgs then 1 else 0)
  }

  /** Arguments that fit the parameters in order, none lazy, with only optional parameters left, are matched in order.
      */
  lemma {:induction false} InOrderPicked(params: seq<Param>, symbols: seq<Symbol>, p: nat)
    requires p <= |params| && |symbols| <= |params|
    requires forall param :: param in params ==> !param.variadic
    requires forall i :: 0 <= i < |symbols| ==> symbols[i] in params[i].symbols && !params[i].lazy
    requires forall i :: |symbols| <= i < |params| ==> params[i].optional
    ensures var a := if p < |symbols| then p else |symbols|;
            Backtrack(params, symbols, true, p, a) == Some(InOrder(|params|, |symbols|)[p..])
    decreases |params| - p
  {
    var a := if p < |symbols| then p else |symbols|;
    var counts := InOrder(|params|, |symbols|);
    if p == |params| {
      assert counts[p..] == [];
    } else {
      InOrderPicked(params, symbols, p + 1);
      FixedRecurrence(params, symbols, p, a);
      BacktrackPicks(params, symbols, true, p, a, counts[p]);
      assert counts[p..] == [counts[p]] + counts[p + 1..];
    }
  }

  /** A match of as many arguments as there are parameters without '+' takes one argument for each. */
  lemma {:induction false} FullCallTakesOneEach(params: seq<Param>, symbols: seq<Symbol>, p: nat, a: nat,
                                                counts: seq<nat>)
    requires p <= |params| && a <= |symbols|
    requires forall param :: param in params ==> !param.variadic
    requires |symbols| - a >= |params| - p
    requires Backtrack(params, symbols, true, p, a) == Some(counts)
    ensures forall i :: 0 <= i < |counts| ==> counts[i] != 0
    decreases |params| - p
  {
    if p < |params| {
      var n := FirstCount(params, symbols, true, p, a, counts);
      FixedTakesFew(params, symbols, p + 1, a + n);
      FullCallTakesOneEach(params, symbols, p + 1, a + n, counts[1..]);
      assert counts == [n] + counts[1..];
    }
  }

  /** fillsInOrder without plain, for fewer arguments than parameters. */
  method FillsInOrderSymbols(signature: Signature, symbols: seq<Symbol>) returns (fills: bool)
    requires signature.Valid() && |symbols| <= |signature.params|
    ensures fills <==>
            && !signature.variadic
            && (forall i :: 0 <= i < |symbols| ==>
              && !signature.params[i].lazy
              && symbols[i] in signature.params[i].symbols)
            && (forall i :: |symbols| <= i < |signature.params| ==>
              && !signature.params[i].context
              && signature.params[i].optional)
  {
    if signature.variadic {
      return false;
    }
    for i := 0 to |symbols|
      invariant forall j :: 0 <= j < i ==> !signature.params[j].lazy && symbols[j] in signature.params[j].symbols
    {
      if signature.params[i].lazy || symbols[i] !in signature.params[i].symbols {
        return false;
      }
    }
    for i := |symbols| to |signature.params|
      invariant forall j :: |symbols| <= j < i ==> !signature.params[j].context && signature.params[j].optional
    {
      if signature.params[i].context || !signature.params[i].optional {
        return false;
      }
    }
    return true;
  }

  /** A call Inject's shortcut leaves as it is injects nothing. */
  lemma ShortcutInjectsNothing(signature: Signature, symbols: seq<Symbol>)
    requires signature.Valid()
    requires !signature.hasContext || (!signature.variadic && |symbols| >= |signature.params|) ||
             (&& !signature.variadic
              && |symbols| <= |signature.params|
              && (forall i :: 0 <= i < |symbols| ==>
                && !signature.params[i].lazy
                && symbols[i] in signature.params[i].symbols)
              && (forall i :: |symbols| <= i < |signature.params| ==>
                && !signature.params[i].context
                && signature.params[i].optional))
    ensures !Injects(signature, symbols)
  {
    if Injects(signature, symbols) {
      var counts := Backtrack(signature.params, symbols, true, 0, 0).value;
      var i :| 0 <= i < |counts| && FromContext(signature.params[0 + i], counts[i]);
      assert signature.params[i] in signature.params;
      if |symbols| >= |signature.params| {
        FullCallTakesOneEach(signature.params, symbols, 0, 0, counts);
      } else {
        InOrderPicked(signature.params, symbols, 0);
      }
    }
  }

  /** Refines InjectSpec. */
  method Inject(signature: Signature, args: seq<Value>, focus: Value) returns (r: Args)
    requires signature.Valid()
    ensures r == InjectSpec(signature, args, focus) && (r.Ok? ==> Interleaves(r.value, args, focus))
  {
    if InjectSpec(signature, args, focus).Ok? {
      InjectedInterleaves(signature, args, focus);
    }
    if !Fits(signature, |args|) {
      return Ok(args);
    }
    InjectsDecides(signature, args, focus);
    if !signature.hasContext {
      ShortcutInjectsNothing(signature, Symbols(args));
      return Ok(args);
    }
    if signature.variadic || |args| >= |signature.params| {
      if !signature.variadic {
        ShortcutInjectsNothing(signature, Symbols(args));
        return Ok(args);
      }
    } else {
      var fills := FillsInOrderSymbols(signature, Symbols(args));
      if fills {
        ShortcutInjectsNothing(signature, Symbols(args));
        return Ok(args);
      }
    }
    r := InjectMatched(signature, args, focus);
  }

  /** Inject without its shortcuts. */
  method InjectMatched(signature: Signature, args: seq<Value>, focus: Value) returns (r: Args)
    requires signature.Valid() && Fits(signature, |args|)
    ensures r == InjectSpec(signature, args, focus)
  {
    var counts, ok := Match(signature, Symbols(args));
    if !ok {
      return Ok(args);
    }
    ghost var params := signature.params;
    assert Picked(signature, args) == Some(counts);
    var missing := 0;
    for i := 0 to |signature.params|
      invariant missing == 0 <==> forall j :: 0 <= j < i ==> !FromContext(params[0 + j], counts[j])
    {
      assert params[i] == params[0 + i];
      if counts[i] == 0 && signature.params[i].context {
        missing := missing + 1;
      }
    }
    if missing == 0 {
      FilledUnchanged(params, 0, counts, args, 0, focus);
      assert args[0..] == args;
      return Ok(args);
    }
    r := Fill(signature, counts, args, focus);
  }

  /** Inserts the focus for each parameter left to it, having checked its type. */
  method Fill(signature: Signature, counts: seq<nat>, args: seq<Value>, focus: Value) returns (r: Args)
    requires |counts| == |signature.params| && Sum(counts) == |args|
    ensures r == Filled(signature.params, 0, counts, args, 0, focus)
  {
    var injected: seq<Value> := [];
    var argIndex: nat := 0;
    ghost var rest := counts;
    PrefixedNone(Filled(signature.params, 0, counts, args, 0, focus));
    for i := 0 to |signature.params|
      invariant rest == counts[i..] && argIndex + Sum(rest) == |args|
      invariant Filled(signature.params, 0, counts, args, 0, focus) ==
                Prefixed(injected, Filled(signature.params, i, rest, args, argIndex, focus))
    {
      var param := signature.params[i];
      ghost var after := Filled(signature.params, i + 1, rest[1..], args, argIndex + counts[i], focus);
      if counts[i] == 0 && param.context {
        if !FocusFits(param, focus) {
          return Err(BadContext(argIndex + 1));
        }
        PrefixedTwice(injected, [focus], after);
        injected := injected + [focus];
      } else {
        PrefixedTwice(injected, args[argIndex..argIndex + counts[i]], after);
        injected := injected + args[argIndex..argIndex + counts[i]];
        argIndex := argIndex + counts[i];
      }
      rest := rest[1..];
    }
    assert injected + [] == injected;
    r := Ok(injected);
  }

  /** The array a call passes where its signature asks for one, if arg can be made one of
      the right content. */
  function ArrayArg(param: Param, arg: Value, symbol: Symbol, single: bool, argIndex: nat): Result<Value, Error> {
    if symbol == Missing then Ok(Undefined)
    else if symbol == Array then
      if && arg.Items? && param.content != Unchecked && arg.items != []
         && (param.content != Only(SymbolOfValue(arg.items[0])) ||
             exists item :: item in arg.items && SymbolOfValue(item) != SymbolOfValue(arg.items[0]))
      then Err(BadContent(argIndex + 1))
      else Ok(arg)
    else if param.content != Unchecked && (!single || param.content != Only(symbol)) then Err(BadContent(argIndex + 1))
    else Ok(Items([arg]))
  }

  /** The values param passes for the n arguments whose symbols it matched from s on, taken by position from a on. */
  function Taken(param: Param, args: seq<Value>, s: nat, a: nat, n: nat, single: bool): Args
    requires s + n <= |args|
    decreases n
  {
    if n == 0 then Ok([])
    else
      var arg := ArgAt(args, a);
      var value := if param.wraps then ArrayArg(param, arg, SymbolOfValue(args[s]), single, a) else Ok(arg);
      match value
      case Err(e) => Err(e)
      case Ok(v) => Prefixed([v], Taken(param, args, s + 1, a + 1, n - 1, single))
  }

  /** What one parameter passes that count arguments matched, from symbol s and position a on. */
  function PassedBy(param: Param, count: nat, args: seq<Value>, s: nat, a: nat, focus: Value): Args
    requires s + count <= |args|
  {
    if FromContext(param, count) then
      if FocusFits(param, focus) then Ok([focus]) else Err(BadContext(a + 1))
    else if count == 0 then Ok([ArgAt(args, a)])
    else Taken(param, args, s, a, count, count == 1)
  }

  /** How many positions it takes them from: one even for a parameter that matched nothing. */
  function Advance(param: Param, count: nat): nat {
    if FromContext(param, count) then 0 else if count == 0 then 1 else count
  }

  /** What Validate means: the parameters take arguments by position, from a on,
      while the symbols they matched are counted from s on. */
  function Passed(params: seq<Param>, p: nat, counts: seq<nat>, args: seq<Value>, s: nat, a: nat, focus: Value): Args
    requires p + |counts| == |params| && s + Sum(counts) <= |args|
    decreases |counts|
  {
    if counts == [] then Ok([])
    else
      match PassedBy(params[p], counts[0], args, s, a, focus)
      case Err(e) => Err(e)
      case Ok(values) =>
        Prefixed(values,
                 Passed(params, p + 1, counts[1..], args, s + counts[0], a + Advance(params[p], counts[0]), focus))
  }

  /** The two calls fail alike or pass the same arguments, a missing one being the same as undefined. */
  ghost predicate SameCall(x: Args, y: Args) {
    match (x, y)
    case (Ok(v), Ok(w)) => forall i: nat :: ArgAt(v, i) == ArgAt(w, i)
    case (Err(e), Err(f)) => e == f
    case _ => false
  }

  /** The longest prefix of the parameters, of at most limit, that matches a start of the arguments. */
  ghost function LongestPrefix(params: seq<Param>, symbols: seq<Symbol>, limit: nat): (longest: nat)
    requires limit <= |params|
    ensures longest <= limit && Matches(params[..longest], symbols, false, 0, 0)
    ensures forall q :: longest < q <= limit ==> !Matches(params[..q], symbols, false, 0, 0)
  {
    if limit == 0 || Matches(params[..limit], symbols, false, 0, 0) then limit
    else LongestPrefix(params, symbols, limit - 1)
  }

  /** The symbols mismatchError looks at, and the longest prefix it tries. */
  function TriedSymbols(signature: Signature, symbols: seq<Symbol>): (tried: seq<Symbol>)
    ensures tried <= symbols
  {
    if !signature.variadic && |symbols| > |signature.params| then symbols[..|signature.params|] else symbols
  }

  function TriedPrefix(signature: Signature, symbols: seq<Symbol>): (limit: nat)
    ensures limit <= |signature.params|
  {
    var cells: int := MAX_MATCH_CELLS / (|TriedSymbols(signature, symbols)| + 1) - 1;
    if cells < 0 then 0 else if cells < |signature.params| then cells else |signature.params|
  }

  /** The argument after those the longest matching prefix takes. */
  ghost function Blamed(signature: Signature, symbols: seq<Symbol>): nat {
    var tried := TriedSymbols(signature, symbols);
    var longest := LongestPrefix(signature.params, tried, TriedPrefix(signature, symbols));
    Sum(Backtrack(signature.params[..longest], tried, false, 0, 0).value) + 1
  }

  ghost function ValidateSpec(signature: Signature, args: seq<Value>, focus: Value): Args {
    if !Fits(signature, |args|) then Ok(args)
    else match Picked(signature, args)
      case None => Err(Mismatch(Blamed(signature, Symbols(args))))
      case Some(counts) => Passed(signature.params, 0, counts, args, 0, 0, focus)
  }

  /** A matching prefix stays matching when its last parameter is dropped. */
  lemma {:induction false} DropLastParam(params: seq<Param>, symbols: seq<Symbol>, p: nat, a: nat)
    requires params != [] && p < |params| && a <= |symbols|
    requires Matches(params, symbols, false, p, a)
    ensures Matches(params[..|params| - 1], symbols, false, p, a)
    decreases |params| - p
  {
    var shorter := params[..|params| - 1];
    if p < |shorter| {
      var n := FirstCount(params, symbols, false, p, a, Backtrack(params, symbols, false, p, a).value);
      DropLastParam(params, symbols, p + 1, a + n);
      assert shorter[p] == params[p];
      TakenIsMatched(shorter, symbols, false, p, a, n);
    }
  }

  /** A prefix of the parameters that matches has only prefixes that match. */
  lemma {:induction false} PrefixesMonotone(params: seq<Param>, symbols: seq<Symbol>, short: nat, long: nat)
    requires short <= long <= |params|
    requires Matches(params[..long], symbols, false, 0, 0)
    ensures Matches(params[..short], symbols, false, 0, 0)
    decreases long
  {
    if short < long {
      DropLastParam(params[..long], symbols, 0, 0);
      assert params[..long][..long - 1] == params[..long - 1];
      PrefixesMonotone(params, symbols, short, long - 1);
    }
  }

  /** Without '+', arguments past the number of parameters change nothing of an unanchored match. */
  lemma {:induction false} ExtraArgumentsIgnored(params: seq<Param>, symbols: seq<Symbol>, more: seq<Symbol>, p: nat,
                                                 a: nat)
    requires p <= |params| && a + |params| - p <= |symbols|
    requires forall param :: param in params ==> !param.variadic
    ensures Backtrack(params, symbols, false, p, a) == Backtrack(params, symbols + more, false, p, a)
    decreases |params| - p
  {
    if p < |params| {
      var x, y := symbols, symbols + more;
      ExtraArgumentsIgnored(params, symbols, more, p + 1, a);
      ExtraArgumentsIgnored(params, symbols, more, p + 1, a + 1);
      MatchesRecurrence(params, x, false, p, a);
      MatchesRecurrence(params, y, false, p, a);
      assert y[a] == x[a];
      if Matches(params, x, false, p, a) {
        var n := FirstCount(params, x, false, p, a, Backtrack(params, x, false, p, a).value);
        forall m: nat | Takes(params[p], y, a, m) && Matches(params, y, false, p + 1, a + m)
          ensures if params[p].lazy then n <= m else m <= n
        {
          assert m == 0 || m == 1;
          assert Takes(params[p], x, a, m) && Matches(params, x, false, p + 1, a + m);
        }
        BacktrackPicks(params, y, false, p, a, n);
        BacktrackPicks(params, x, false, p, a, n);
      }
    }
  }

  /** The binary search for the longest matching prefix, and the argument it blames. */
  method MismatchError(signature: Signature, args: seq<Value>) returns (error: Error)
    requires signature.Valid()
    ensures error == Mismatch(Blamed(signature, Symbols(args)))
  {
    var symbols := Symbols(args);
    if !signature.variadic && |symbols| > |signature.params| {
      symbols := symbols[..|signature.params|];
    }
    assert symbols == TriedSymbols(signature, Symbols(args));
    var longest := 0;
    var low, high := 1, MAX_MATCH_CELLS / (|symbols| + 1) - 1;
    if high > |signature.params| {
      high := |signature.params|;
    }
    ghost var limit := TriedPrefix(signature, Symbols(args));
    while low <= high
      invariant 0 <= longest == low - 1 && (longest <= high || longest == 0) && high <= limit
      invariant longest <= limit && Matches(signature.params[..longest], symbols, false, 0, 0)
      invariant forall q :: high < q <= limit && q > 0 ==> !Matches(signature.params[..q], symbols, false, 0, 0)
      decreases high - low
    {
      var mid := (low + high) / 2;
      var counts, matched, ok := Solve(signature, symbols, mid, false);
      if ok {
        longest, low := mid, mid + 1;
      } else {
        forall q | mid <= q <= limit
          ensures !Matches(signature.params[..q], symbols, false, 0, 0)
        {
          if Matches(signature.params[..q], symbols, false, 0, 0) {
            PrefixesMonotone(signature.params, symbols, mid, q);
          }
        }
        high := mid - 1;
      }
    }
    assert longest == LongestPrefix(signature.params, symbols, limit);
    var counts, matched, ok := Solve(signature, symbols, longest, false);
    error := Mismatch(matched + 1);
  }

  /** Blame does not depend on the arguments cut off: it names the longest prefix of the whole call that was tried. */
  lemma BlamedWholeCall(signature: Signature, symbols: seq<Symbol>)
    requires signature.Valid()
    ensures var longest :=
              LongestPrefix(signature.params, TriedSymbols(signature, symbols), TriedPrefix(signature, symbols));
            && Matches(signature.params[..longest], symbols, false, 0, 0)
            && (forall q :: 0 <= q <= TriedPrefix(signature, symbols) ==>
                  (Matches(signature.params[..q], symbols, false, 0, 0) <==> q <= longest))
            && Blamed(signature, symbols) == Sum(Backtrack(signature.params[..longest], symbols, false, 0, 0).value) + 1
  {
    var params, tried := signature.params, TriedSymbols(signature, symbols);
    var longest := LongestPrefix(params, tried, TriedPrefix(signature, symbols));
    forall q | 0 <= q <= TriedPrefix(signature, symbols)
      ensures Backtrack(params[..q], tried, false, 0, 0) == Backtrack(params[..q], symbols, false, 0, 0)
      ensures Matches(params[..q], symbols, false, 0, 0) <==> q <= longest
    {
      if tried != symbols {
        assert symbols == tried + symbols[|tried|..];
        ExtraArgumentsIgnored(params[..q], tried, symbols[|tried|..], 0, 0);
      }
      if q <= longest {
        PrefixesMonotone(params, tried, q, longest);
      }
    }
  }

  /** A parameter takes arg as it is where the arguments fill the parameters in order. */
  predicate TakesAsIs(param: Param, arg: Value) {
    var symbol := SymbolOfValue(arg);
    && !param.lazy
    && symbol in param.symbols
    && arg != Undefined
    && (!param.wraps || (symbol == Array && param.content == Unchecked))
  }

  /** fillsInOrder with plain. */
  method FillsInOrder(signature: Signature, args: seq<Value>) returns (fills: bool)
    ensures fills <==>
            && !signature.variadic && |args| <= |signature.params|
            && (forall i :: 0 <= i < |args| ==> TakesAsIs(signature.params[i], args[i]))
            && (forall i :: |args| <= i < |signature.params| ==>
              && !signature.params[i].context
              && signature.params[i].optional)
  {
    if signature.variadic || |args| > |signature.params| {
      return false;
    }
    for i := 0 to |args|
      invariant forall j :: 0 <= j < i ==> TakesAsIs(signature.params[j], args[j])
    {
      if !TakesAsIs(signature.params[i], args[i]) {
        return false;
      }
    }
    for i := |args| to |signature.params|
      invariant forall j :: |args| <= j < i ==> !signature.params[j].context && signature.params[j].optional
    {
      if signature.params[i].context || !signature.params[i].optional {
        return false;
      }
    }
    return true;
  }

  /** A parameter taking its argument as it is, or an optional one past the arguments, passes what is at its position.
      */
  lemma InOrderPassedBy(param: Param, count: nat, args: seq<Value>, s: nat, p: nat, focus: Value)
    requires if p < |args| then count == 1 && s == p && TakesAsIs(param, args[p])
             else count == 0 && s == |args| && !param.context
    ensures PassedBy(param, count, args, s, p, focus) == Ok([ArgAt(args, p)]) && Advance(param, count) == 1
  {
    if p < |args| {
      assert Taken(param, args, p + 1, p + 1, 0, true) == Ok([]);
      assert [args[p]] + [] == [args[p]];
    }
  }

  /** n arguments from the p-th on, undefined where there are none. */
  function Padded(args: seq<Value>, p: nat, n: nat): (padded: seq<Value>)
    ensures |padded| == n && forall i :: 0 <= i < n ==> padded[i] == ArgAt(args, p + i)
  {
    seq(n, (i: nat) => ArgAt(args, p + i))
  }

  /** Arguments taken in order and as they are pass unchanged, with undefined for the optional parameters left. */
  lemma {:induction false} InOrderPasses(params: seq<Param>, p: nat, counts: seq<nat>, args: seq<Value>, s: nat,
                                         focus: Value)
    requires p + |counts| == |params| && |args| <= |params|
    requires s == if p < |args| then p else |args|
    requires s + Sum(counts) <= |args|
    requires forall i :: 0 <= i < |counts| ==> counts[i] == if p + i < |args| then 1 else 0
    requires forall i :: 0 <= i < |args| ==> TakesAsIs(params[i], args[i])
    requires forall i :: |args| <= i < |params| ==> !params[i].context
    ensures Passed(params, p, counts, args, s, p, focus) == Ok(Padded(args, p, |params| - p))
    decreases |params| - p
  {
    if counts != [] {
      InOrderPassedBy(params[p], counts[0], args, s, p, focus);
      InOrderPasses(params, p + 1, counts[1..], args, s + counts[0], focus);
      assert [ArgAt(args, p)] + Padded(args, p + 1, |params| - (p + 1)) == Padded(args, p, |params| - p);
    } else {
      assert Padded(args, p, |params| - p) == [];
    }
  }

  lemma PaddedIsSame(args: seq<Value>, n: nat)
    requires |args| <= n
    ensures SameCall(Ok(args), Ok(Padded(args, 0, n))) && SameCall(Ok(args), Ok(args))
  {
  }

  /** The calls Validate's shortcut leaves as they are. */
  lemma ShortcutValidatesUnchanged(signature: Signature, args: seq<Value>, focus: Value)
    requires signature.Valid() && !signature.variadic && |args| <= |signature.params|
    requires forall i :: 0 <= i < |args| ==> TakesAsIs(signature.params[i], args[i])
    requires forall i :: |args| <= i < |signature.params| ==>
               && !signature.params[i].context
               && signature.params[i].optional
    ensures SameCall(Ok(args), ValidateSpec(signature, args, focus))
  {
    PaddedIsSame(args, |signature.params|);
    hide SameCall, Passed, Padded;
    if Fits(signature, |args|) {
      InOrderPicked(signature.params, Symbols(args), 0);
      var counts := InOrder(|signature.params|, |args|);
      assert counts[0..] == counts;
      assert Picked(signature, args) == Some(counts);
      InOrderPasses(signature.params, 0, counts, args, 0, focus);
    }
  }

  /** The arguments Validate passes: the context filled in, 'a' arguments wrapped and checked. */
  method Validate(signature: Signature, args: seq<Value>, focus: Value) returns (r: Args)
    requires signature.Valid()
    ensures SameCall(r, ValidateSpec(signature, args, focus)) && PassesRight(signature, args, focus, r)
  {
    hide PassesRight;
    if |args| == 1 && signature.restOptional && TakesAsIs(signature.params[0], args[0]) {
      forall i | 1 <= i < |signature.params|
        ensures !signature.params[i].context && signature.params[i].optional
      {
        assert signature.params[i] == signature.params[1..][i - 1];
      }
      ShortcutValidatesUnchanged(signature, args, focus);
      SpecPassesRight(signature, args, focus, Ok(args));
      return Ok(args);
    }
    if !Fits(signature, |args|) {
      Unchanged(args);
      SpecPassesRight(signature, args, focus, Ok(args));
      return Ok(args);
    }
    var fills := FillsInOrder(signature, args);
    if fills {
      ShortcutValidatesUnchanged(signature, args, focus);
      SpecPassesRight(signature, args, focus, Ok(args));
      return Ok(args);
    }
    r := ValidateMatched(signature, args, focus);
  }

  /** The arguments passed so far: the first argIndex of args, until one differs, and then out. */
  datatype Output = Output(changed: bool, out: seq<Value>, argIndex: nat) {
    ghost predicate Holds(args: seq<Value>, passed: seq<Value>) {
      if changed then out == passed
      else |passed| == argIndex && forall i :: 0 <= i < argIndex ==> passed[i] == ArgAt(args, i)
    }
  }

  /** A copy of the first n arguments, with undefined past their end. */
  function CopyPrefix(args: seq<Value>, n: nat): (out: seq<Value>)
    ensures |out| == n && forall i :: 0 <= i < n ==> out[i] == ArgAt(args, i)
  {
    seq(n, (i: nat) => ArgAt(args, i))
  }

  /** Passes v for the next argument; same says that it is that argument. */
  method Pass(args: seq<Value>, output: Output, v: Value, same: bool, ghost passed: seq<Value>) returns (next: Output)
    requires output.Holds(args, passed)
    requires same ==> v == ArgAt(args, output.argIndex)
    ensures next.Holds(args, passed + [v]) && next.argIndex == output.argIndex + 1
    ensures output.changed ==> next.changed
  {
    if !output.changed && same {
      return output.(argIndex := output.argIndex + 1);
    }
    var out := if output.changed then output.out else CopyPrefix(args, output.argIndex);
    next := Output(true, out + [v], output.argIndex + 1);
  }

  /** The arguments one parameter passes for those it matched. */
  method PassTaken(param: Param, args: seq<Value>, s: nat, n: nat, output: Output, ghost passed: seq<Value>)
    returns (next: Output, error: Option<Error>)
    requires s + n <= |args| && output.Holds(args, passed)
    ensures match Taken(param, args, s, output.argIndex, n, n == 1)
            case Err(e) => error == Some(e)
            case Ok(values) => error.None? && next.Holds(args, passed + values) && next.argIndex == output.argIndex + n
    ensures output.changed ==> next.changed
  {
    next := output;
    var all := Taken(param, args, s, output.argIndex, n, n == 1);
    ghost var so: seq<Value> := [];
    PrefixedNone(all);
    assert passed + so == passed;
    for j := 0 to n
      invariant next.argIndex == output.argIndex + j && next.Holds(args, passed + so)
      invariant output.changed ==> next.changed
      invariant all == Prefixed(so, Taken(param, args, s + j, next.argIndex, n - j, n == 1))
    {
      var symbol := SymbolOfValue(args[s + j]);
      var arg := ArgAt(args, next.argIndex);
      ghost var rest := Taken(param, args, s + j + 1, next.argIndex + 1, n - j - 1, n == 1);
      if !param.wraps {
        PrefixedTwice(so, [arg], rest);
        next := Pass(args, next, arg, true, passed + so);
        assert passed + so + [arg] == passed + (so + [arg]);
        so := so + [arg];
      } else {
        match ArrayArg(param, arg, symbol, n == 1, next.argIndex)
        case Err(e) => return next, Some(e);
        case Ok(value) =>
          PrefixedTwice(so, [value], rest);
          next := Pass(args, next, value, symbol == Array || (symbol == Missing && arg == Undefined), passed + so);
          assert passed + so + [value] == passed + (so + [value]);
          so := so + [value];
      }
    }
    assert so + [] == so;
    error := None;
  }

  /** Validate without its shortcuts. */
  method ValidateMatched(signature: Signature, args: seq<Value>, focus: Value) returns (r: Args)
    requires signature.Valid() && Fits(signature, |args|)
    ensures SameCall(r, ValidateSpec(signature, args, focus)) && PassesRight(signature, args, focus, r)
  {
    hide PassesRight;
    var counts, ok := Match(signature, Symbols(args));
    if !ok {
      var error := MismatchError(signature, args);
      SpecPassesRight(signature, args, focus, Err(error));
      return Err(error);
    }
    assert Picked(signature, args) == Some(counts);
    r := PassAll(signature, counts, args, focus);
    SpecPassesRight(signature, args, focus, r);
  }

  /** What one parameter passes; the context goes in without taking a position. */
  method PassParam(param: Param, count: nat, args: seq<Value>, s: nat, focus: Value, output: Output,
                   ghost passed: seq<Value>)
    returns (next: Output, error: Option<Error>)
    requires s + count <= |args| && output.Holds(args, passed)
    ensures match PassedBy(param, count, args, s, output.argIndex, focus)
            case Err(e) => error == Some(e)
            case Ok(values) =>
              && error.None? && next.Holds(args, passed + values)
              && next.argIndex == output.argIndex + Advance(param, count)
              && (next.changed || (!output.changed && !FromContext(param, count)))
  {
    if count == 0 && param.context {
      if !FocusFits(param, focus) {
        return output, Some(BadContext(output.argIndex + 1));
      }
      var out := if output.changed then output.out else CopyPrefix(args, output.argIndex);
      return Output(true, out + [focus], output.argIndex), None;
    }
    if count == 0 {
      next := Pass(args, output, ArgAt(args, output.argIndex), true, passed);
      error := None;
    } else {
      next, error := PassTaken(param, args, s, count, output, passed);
    }
  }

  method PassAll(signature: Signature, counts: seq<nat>, args: seq<Value>, focus: Value) returns (r: Args)
    requires |counts| == |signature.params| && Sum(counts) == |args|
    ensures SameCall(r, Passed(signature.params, 0, counts, args, 0, 0, focus))
  {
    var output := Output(false, [], 0);
    var symbolIndex: nat := 0;
    ghost var all := Passed(signature.params, 0, counts, args, 0, 0, focus);
    ghost var passed: seq<Value> := [];
    ghost var rest := counts;
    PrefixedNone(all);
    for i := 0 to |signature.params|
      invariant rest == counts[i..] && symbolIndex + Sum(rest) == |args|
      invariant output.Holds(args, passed) && (output.changed || output.argIndex >= symbolIndex)
      invariant all == Prefixed(passed, Passed(signature.params, i, rest, args, symbolIndex, output.argIndex, focus))
    {
      var param := signature.params[i];
      ghost var values := PassedBy(param, counts[i], args, symbolIndex, output.argIndex, focus);
      var next, error := PassParam(param, counts[i], args, symbolIndex, focus, output, passed);
      if error.Some? {
        return Err(error.value);
      }
      PrefixedTwice(passed, values.value,
                    Passed(signature.params, i + 1, rest[1..], args, symbolIndex + counts[i], next.argIndex, focus));
      output, symbolIndex := next, symbolIndex + counts[i];
      passed, rest := passed + values.value, rest[1..];
    }
    assert passed + [] == passed;
    r := Ok(if output.changed then output.out else args);
  }

  /** While positions and matched symbols are in step, an 'a' parameter passes only undefined
      values and arrays, and arrays only of its content type. */
  lemma {:induction false} TakenArraysChecked(param: Param, args: seq<Value>, a: nat, n: nat, single: bool)
    requires a + n <= |args| && param.wraps
    requires Taken(param, args, a, a, n, single).Ok?
    ensures |Taken(param, args, a, a, n, single).value| == n
    ensures forall v :: v in Taken(param, args, a, a, n, single).value ==>
              v == Undefined
                  || (v.Items? && forall c, item :: param.content == Only(c) && item in v.items ==>
                      SymbolOfValue(item) == c)
    decreases n
  {
    if n > 0 {
      TakenArraysChecked(param, args, a + 1, n - 1, single);
    }
  }

  /** The values a value holds: an array's items, and any other value itself. */
  function ValuesOf(v: Value): seq<Value> {
    if v.Items? then v.items else [v]
  }

  /** What a parameter passes for the argument at its position, where it matched another's symbol. */
  predicate Stands(param: Param, matched: Value, arg: Value, passed: Value) {
    if !param.wraps || matched.Items? then passed == arg
    else if matched == Undefined then passed == Undefined
    else passed.Items? && ValuesOf(passed) == [arg]
  }

  /** Every item of an array, or the value itself, has the content type; items alone count but of a single match. */
  predicate HasContent(param: Param, v: Value, single: bool) {
    match param.content
    case Unchecked => true
    case NoItem => v == Undefined || (v.Items? && v.items == [])
    case Only(c) =>
      || v == Undefined
      || ((v.Items? || single) && forall item :: item in ValuesOf(v) ==> SymbolOfValue(item) == c)
  }

  /** While position and symbol are in step, an argument of an array parameter keeps its values, and fails exactly
      when they are not of the content type. */
  lemma WrappedKeepsValues(param: Param, arg: Value, single: bool, argIndex: nat)
    ensures var r := ArrayArg(param, arg, SymbolOfValue(arg), single, argIndex);
            if HasContent(param, arg, single)
            then r.Ok? && ValuesOf(r.value) == ValuesOf(arg) && (arg == Undefined || r.value.Items?)
                 && (arg.Items? ==> r.value == arg)
            else r == Err(BadContent(argIndex + 1))
  {
    if arg.Items? && arg.items != [] {
      assert arg.items[0] in arg.items;
    }
  }

  /** The first argument taken, and then the others. */
  lemma TakenFirst(param: Param, args: seq<Value>, s: nat, a: nat, n: nat, single: bool) returns (v: Value)
    requires 0 < n && s + n <= |args| && Taken(param, args, s, a, n, single).Ok?
    ensures Taken(param, args, s + 1, a + 1, n - 1, single).Ok?
    ensures Taken(param, args, s, a, n, single).value == [v] + Taken(param, args, s + 1, a + 1, n - 1, single).value
    ensures Stands(param, args[s], ArgAt(args, a), v)
  {
    v := if param.wraps then ArrayArg(param, ArgAt(args, a), SymbolOfValue(args[s]), single, a).value
         else ArgAt(args, a);
  }

  /** What the arguments taken stand for, one by one. */
  lemma {:induction false} TakenStand(param: Param, args: seq<Value>, s: nat, a: nat, n: nat, single: bool)
    requires s + n <= |args| && Taken(param, args, s, a, n, single).Ok?
    ensures var values := Taken(param, args, s, a, n, single).value;
            && |values| == n
            && forall i :: 0 <= i < n ==> Stands(param, args[s + i], ArgAt(args, a + i), values[i])
    decreases n
  {
    if n > 0 {
      var v := TakenFirst(param, args, s, a, n, single);
      hide Taken, Stands, ArrayArg, ArgAt;
      TakenStand(param, args, s + 1, a + 1, n - 1, single);
      var values, rest := Taken(param, args, s, a, n, single).value,
                          Taken(param, args, s + 1, a + 1, n - 1, single).value;
      forall i | 0 <= i < n
        ensures Stands(param, args[s + i], ArgAt(args, a + i), values[i])
      {
        if i > 0 {
          assert Stands(param, args[s + 1 + (i - 1)], ArgAt(args, a + 1 + (i - 1)), rest[i - 1]);
        }
      }
    }
  }

  /** What one parameter passes that count arguments matched: the focus for a context parameter without any, the
      argument at the position for another without, or what stands for those matched. */
  ghost predicate GivesOne(param: Param, count: nat, args: seq<Value>, s: nat, a: nat, focus: Value, values: seq<Value>)
    requires s + count <= |args|
  {
    if count == 0 then values == [if param.context then focus else ArgAt(args, a)]
    else |values| == count && forall i :: 0 <= i < count ==> Stands(param, args[s + i], ArgAt(args, a + i), values[i])
  }

  function Slots(count: nat): nat {
    if count == 0 then 1 else count
  }

  /** out is what the parameters pass, one after another. */
  ghost predicate Gives(params: seq<Param>, p: nat, counts: seq<nat>, args: seq<Value>, s: nat, a: nat, focus: Value,
                        out: seq<Value>)
    requires p + |counts| == |params| && s + Sum(counts) <= |args|
    decreases |counts|
  {
    if counts == [] then out == []
    else
      var n := Slots(counts[0]);
      && n <= |out| && GivesOne(params[p], counts[0], args, s, a, focus, out[..n])
      && Gives(params, p + 1, counts[1..], args, s + counts[0],
               a + if counts[0] == 0 && params[p].context then 0 else n, focus, out[n..])
  }

  lemma OneGives(param: Param, count: nat, args: seq<Value>, s: nat, a: nat, focus: Value)
    requires s + count <= |args| && PassedBy(param, count, args, s, a, focus).Ok?
    ensures var values := PassedBy(param, count, args, s, a, focus).value;
            |values| == Slots(count) && GivesOne(param, count, args, s, a, focus, values)
  {
    if count > 0 {
      TakenStand(param, args, s, a, count, count == 1);
    }
  }

  lemma {:induction false} PassedGives(params: seq<Param>, p: nat, counts: seq<nat>, args: seq<Value>, s: nat, a: nat,
                                       focus: Value)
    requires p + |counts| == |params| && s + Sum(counts) <= |args|
    requires Passed(params, p, counts, args, s, a, focus).Ok?
    ensures Gives(params, p, counts, args, s, a, focus, Passed(params, p, counts, args, s, a, focus).value)
    decreases |counts|
  {
    if counts != [] {
      hide PassedBy, GivesOne;
      var values := PassedBy(params[p], counts[0], args, s, a, focus).value;
      var next := a + Advance(params[p], counts[0]);
      OneGives(params[p], counts[0], args, s, a, focus);
      PassedGives(params, p + 1, counts[1..], args, s + counts[0], next, focus);
      var rest := Passed(params, p + 1, counts[1..], args, s + counts[0], next, focus).value;
      Apart(values, rest);
    }
  }

  lemma Apart<T>(a: seq<T>, b: seq<T>)
    ensures (a + b)[..|a|] == a && (a + b)[|a|..] == b
  {
  }

  /** Where every parameter takes an argument, each argument is passed in its place, an array or not with the values
      it holds, and undefined as it is. */
  lemma {:induction false} GivesInPlace(params: seq<Param>, p: nat, counts: seq<nat>, args: seq<Value>, s: nat,
                                        focus: Value, out: seq<Value>)
    requires p + |counts| == |params| && s + Sum(counts) <= |args|
    requires forall i :: 0 <= i < |counts| ==> counts[i] > 0
    requires Gives(params, p, counts, args, s, s, focus, out)
    ensures |out| == Sum(counts)
    ensures forall i :: 0 <= i < |out| ==> ValuesOf(out[i]) == ValuesOf(args[s + i])
    decreases |counts|
  {
    if counts != [] {
      var n := counts[0];
      GivesInPlace(params, p + 1, counts[1..], args, s + n, focus, out[n..]);
      forall i | 0 <= i < |out|
        ensures ValuesOf(out[i]) == ValuesOf(args[s + i])
      {
        if i >= n {
          assert out[i] == out[n..][i - n] && args[s + i] == args[s + n + (i - n)];
        } else {
          assert out[i] == out[..n][i];
          assert Stands(params[p], args[s + i], ArgAt(args, s + i), out[..n][i]);
        }
      }
    }
  }

  /** A validated call that matches passes what it should, argument by argument; where every parameter takes an
      argument, each argument is passed in its place with the values it holds. */
  ghost predicate PassesRight(signature: Signature, args: seq<Value>, focus: Value, r: Args) {
    Fits(signature, |args|) && Picked(signature, args).Some? && r.Ok? ==>
      var counts := Picked(signature, args).value;
      && (exists out :: SameCall(r, Ok(out)) && Gives(signature.params, 0, counts, args, 0, 0, focus, out))
      && ((forall i :: 0 <= i < |counts| ==> counts[i] > 0) ==>
            forall i: nat :: ValuesOf(ArgAt(r.value, i)) == ValuesOf(ArgAt(args, i)))
  }

  lemma Unchanged(args: seq<Value>)
    ensures SameCall(Ok(args), Ok(args))
  {
  }

  lemma SpecPassesRight(signature: Signature, args: seq<Value>, focus: Value, r: Args)
    requires signature.Valid() && SameCall(r, ValidateSpec(signature, args, focus))
    ensures PassesRight(signature, args, focus, r)
  {
    hide Gives, Picked;
    if Fits(signature, |args|) && Picked(signature, args).Some? && r.Ok? {
      ValidGives(signature, args, focus);
      var out := ValidateSpec(signature, args, focus).value;
      assert SameCall(r, Ok(out));
      forall i: nat
        ensures ArgAt(r.value, i) == ArgAt(out, i)
      {
      }
    }
  }

  /** What validating a call passes, argument by argument. */
  lemma ValidGives(signature: Signature, args: seq<Value>, focus: Value)
    requires signature.Valid() && Fits(signature, |args|)
    requires Picked(signature, args).Some? && ValidateSpec(signature, args, focus).Ok?
    ensures var counts, out := Picked(signature, args).value, ValidateSpec(signature, args, focus).value;
            && Gives(signature.params, 0, counts, args, 0, 0, focus, out)
            && ((forall i :: 0 <= i < |counts| ==> counts[i] > 0) ==>
                  |out| == |args| && forall i :: 0 <= i < |args| ==> ValuesOf(out[i]) == ValuesOf(args[i]))
  {
    hide Picked, Passed, Gives, ValuesOf;
    var counts, out := Picked(signature, args).value, ValidateSpec(signature, args, focus).value;
    PassedGives(signature.params, 0, counts, args, 0, 0, focus);
    if forall i :: 0 <= i < |counts| ==> counts[i] > 0 {
      GivesInPlace(signature.params, 0, counts, args, 0, focus, out);
      assert forall i :: 0 <= i < |args| ==> args[0 + i] == args[i];
    }
  }

  /** A call has as many arguments as the signature allows, whatever their types. */
  predicate TakesCount(signature: Signature, nArgs: nat) {
    nArgs >= signature.required && (nArgs <= |signature.params| || signature.variadic)
  }

  /** Counting the arguments first rejects no call that matches. */
  lemma MatchingCallIsTaken(signature: Signature, args: seq<Value>)
    requires signature.Valid() && Picked(signature, args).Some?
    ensures TakesCount(signature, |args|)
  {
    BacktrackFindsFirst(signature.params, Symbols(args), true, 0, 0, Picked(signature, args).value);
    RequiredAreTaken(signature.params, Symbols(args), 0, 0, Picked(signature, args).value);
    assert signature.params[0..] == signature.params;
    if !signature.variadic {
      FixedTakesFew(signature.params, Symbols(args), 0, 0);
    }
  }

  lemma {:induction false} RequiredAreTaken(params: seq<Param>, symbols: seq<Symbol>, p: nat, a: nat, counts: seq<nat>)
    requires p <= |params| && a <= |symbols|
    requires Assigns(params, symbols, true, p, a, counts)
    ensures |symbols| - a >= Required(params[p..])
    decreases |params| - p
  {
    if p < |params| {
      RequiredAreTaken(params, symbols, p + 1, a + counts[0], counts[1..]);
      assert params[p..] == [params[p]] + params[p + 1..];
    }
  }

  const MAX_INJECT_COMBINATIONS: nat := 4096

  const SYMBOL_ORDER: seq<Symbol> := [Array, Text, Number, Boolean, Null, Function, Object, Missing]

  /** Every argument has one of the symbols it may have. */
  ghost predicate Among(symbols: seq<Symbol>, sets: seq<set<Symbol>>) {
    |symbols| == |sets| && forall i :: 0 <= i < |symbols| ==> symbols[i] in sets[i]
  }

  function Combinations(sets: seq<set<Symbol>>): nat {
    if sets == [] then 1 else Combinations(sets[..|sets| - 1]) * |sets[|sets| - 1]|
  }

  /** For arguments with these symbols Inject inserts the context. */
  ghost predicate MayInsert(signature: Signature, symbols: seq<Symbol>) {
    Fits(signature, |symbols|) && Injects(signature, symbols)
  }

  /** Inject changes no call exactly when no call with these symbols can get the context inserted. */
  lemma MayInsertIffChanged(signature: Signature, args: seq<Value>, focus: Value)
    ensures MayInsert(signature, Symbols(args)) <==> InjectSpec(signature, args, focus) != Ok(args)
  {
    if Fits(signature, |args|) {
      InjectsDecides(signature, args, focus);
    }
  }

  /** Whether Inject inserts the context for arguments with the given symbols, fewer than the parameters or with '+'. */
  method InjectsSymbols(signature: Signature, symbols: seq<Symbol>) returns (injects: bool)
    requires signature.Valid() && (signature.variadic || |symbols| < |signature.params|)
    ensures injects == Injects(signature, symbols)
  {
    if !signature.variadic {
      var fills := FillsInOrderSymbols(signature, symbols);
      if fills {
        ShortcutInjectsNothing(signature, symbols);
        return false;
      }
    }
    var counts, ok := Match(signature, symbols);
    if !ok {
      return false;
    }
    BacktrackFindsFirst(signature.params, symbols, true, 0, 0, counts);
    for i := 0 to |signature.params|
      invariant forall j :: 0 <= j < i ==> !FromContext(signature.params[0 + j], counts[j])
    {
      if counts[i] == 0 && signature.params[i].context {
        assert FromContext(signature.params[0 + i], counts[i]);
        return true;
      }
    }
    return false;
  }

  /** symbols starts with prefix and continues with symbols of sets. */
  ghost predicate Completes(symbols: seq<Symbol>, prefix: seq<Symbol>, sets: seq<set<Symbol>>) {
    |symbols| == |sets| && prefix <= symbols && forall i :: |prefix| <= i < |symbols| ==> symbols[i] in sets[i]
  }

  ghost predicate SomeInjects(signature: Signature, prefix: seq<Symbol>, sets: seq<set<Symbol>>) {
    exists symbols :: Completes(symbols, prefix, sets) && Injects(signature, symbols)
  }

  /** A prefix completes to a call that injects exactly when one of its one-symbol extensions does. */
  lemma SomeInjectsStep(signature: Signature, prefix: seq<Symbol>, sets: seq<set<Symbol>>)
    requires |prefix| < |sets|
    ensures SomeInjects(signature, prefix, sets) <==>
            exists s :: s in sets[|prefix|] && SomeInjects(signature, prefix + [s], sets)
  {
    forall symbols | Completes(symbols, prefix, sets) && Injects(signature, symbols)
      ensures symbols[|prefix|] in sets[|prefix|] && SomeInjects(signature, prefix + [symbols[|prefix|]], sets)
    {
      assert Completes(symbols, prefix + [symbols[|prefix|]], sets);
    }
    forall s | s in sets[|prefix|] && SomeInjects(signature, prefix + [s], sets)
      ensures SomeInjects(signature, prefix, sets)
    {
      var symbols :| Completes(symbols, prefix + [s], sets) && Injects(signature, symbols);
      assert (prefix + [s])[|prefix|] == s;
      assert Completes(symbols, prefix, sets);
    }
  }

  /** Tries every symbol the arguments from i on may have, in the buffer the earlier ones are written to. */
  method Try(signature: Signature, sets: seq<set<Symbol>>, symbols: array<Symbol>, i: nat) returns (found: bool)
    requires signature.Valid() && (signature.variadic || |sets| < |signature.params|)
    requires symbols.Length == |sets| && i <= |sets|
    modifies symbols
    ensures symbols[..i] == old(symbols[..i])
    ensures found == SomeInjects(signature, old(symbols[..i]), sets)
    decreases |sets| - i
  {
    ghost var prefix := symbols[..i];
    if i == |sets| {
      found := InjectsSymbols(signature, symbols[..]);
      assert symbols[..] == prefix;
      assert Completes(prefix, prefix, sets);
      assert forall full :: Completes(full, prefix, sets) ==> full == prefix;
      return;
    }
    SomeInjectsStep(signature, prefix, sets);
    for k := 0 to |SYMBOL_ORDER|
      invariant symbols[..i] == prefix
      invariant forall j :: 0 <= j < k && SYMBOL_ORDER[j] in sets[i] ==>
                !SomeInjects(signature, prefix + [SYMBOL_ORDER[j]], sets)
    {
      if SYMBOL_ORDER[k] in sets[i] {
        symbols[i] := SYMBOL_ORDER[k];
        assert symbols[..i + 1] == prefix + [SYMBOL_ORDER[k]];
        found := Try(signature, sets, symbols, i + 1);
        assert symbols[..i] == symbols[..i + 1][..i];
        if found {
          return;
        }
      }
    }
    forall s | s in sets[i]
      ensures !SomeInjects(signature, prefix + [s], sets)
    {
      EverySymbol(s);
    }
    found := false;
  }

  lemma EverySymbol(s: Symbol)
    ensures exists j :: 0 <= j < |SYMBOL_ORDER| && SYMBOL_ORDER[j] == s
  {
    assert SYMBOL_ORDER[0] == Array && SYMBOL_ORDER[1] == Text && SYMBOL_ORDER[2] == Number
           && SYMBOL_ORDER[3] == Boolean;
    assert SYMBOL_ORDER[4] == Null && SYMBOL_ORDER[5] == Function && SYMBOL_ORDER[6] == Object
           && SYMBOL_ORDER[7] == Missing;
  }

  /** Decides whether some choice of symbols from the sets makes Inject add the context. */
  method MayInject(signature: Signature, sets: seq<set<Symbol>>) returns (may: bool)
    requires signature.Valid()
    ensures !may ==> forall symbols :: Among(symbols, sets) ==> !MayInsert(signature, symbols)
    ensures may && (forall i :: 0 <= i <= |sets| ==> Combinations(sets[..i]) <= MAX_INJECT_COMBINATIONS) ==>
              exists symbols :: Among(symbols, sets) && MayInsert(signature, symbols)
  {
    if !signature.hasContext || !Fits(signature, |sets|) || (!signature.variadic && |sets| >= |signature.params|) {
      forall symbols | Among(symbols, sets)
        ensures !MayInsert(signature, symbols)
      {
        if Fits(signature, |sets|) {
          ShortcutInjectsNothing(signature, symbols);
        }
      }
      return false;
    }
    var combinations := 1;
    for i := 0 to |sets|
      invariant combinations == Combinations(sets[..i])
    {
      assert sets[..i + 1][..i] == sets[..i];
      combinations := combinations * |sets[i]|;
      if combinations > MAX_INJECT_COMBINATIONS {
        return true;
      }
    }
    var symbols := new Symbol[|sets|](_ => Array);
    assert symbols[..0] == [];
    may := Try(signature, sets, symbols, 0);
    assert forall full :: Completes(full, [], sets) <==> Among(full, sets);
  }
}
