/** Matching a date against the parts of a picture: a memoised depth-first search with
    a step budget, against the recursive longest-first search it stands for. */
module PictureMatch {
  import opened Wrappers

  type Text = string

  datatype Part<M> = Literal(text: Text) | Marker(marker: M)

  /** Part i of a picture at pos; lengths of it past next are behind the search. */
  datatype Frame = Frame(i: nat, pos: nat, next: nat)

  /** A picture's parts, an input, how a marker reads a value from the start of a text, with
      how many characters it took, and how characters compare. */
  datatype Problem<!M(!new)> = Problem(parts: seq<Part<M>>, input: Text, parse: (Text, M) -> (int, int),
                                       lower: char -> char) {
    /** A marker reads no more than there is. */
    ghost predicate Valid() {
      forall text, m :: Bounded(text, m)
    }

    ghost predicate Bounded(text: Text, m: M) {
      parse(text, m).1 <= |text|
    }

    predicate FoldPrefix(text: Text, literal: Text) {
      |literal| <= |text| && forall i :: 0 <= i < |literal| ==> lower(text[i]) == lower(literal[i])
    }

    /** The longest length to try for part i at pos. */
    function Longest(i: nat, pos: nat): nat
      requires i < |parts| && pos <= |input|
    {
      match parts[i]
      case Literal(text) => |text|
      case Marker(m) => var n := parse(input[pos..], m).1; if n < 0 then 0 else n
    }

    /** The value part i has when it takes k characters at pos, if it can. */
    function Takes(i: nat, pos: nat, k: nat): (r: Option<int>)
      requires i < |parts| && pos <= |input|
      ensures r.Some? ==> 0 < k <= |input| - pos
    {
      if k == 0 || k > |input| - pos then None
      else match parts[i]
        case Literal(text) => if k == |text| && FoldPrefix(input[pos..], text) then Some(0) else None
        case Marker(m) => var r := parse(input[pos..pos + k], m); if r.1 == k then Some(r.0) else None
    }

    /** The first solution of the parts from i on, at pos: each takes as much as it can, then one less at a time. */
    function Search(i: nat, pos: nat): Option<seq<int>>
      requires i <= |parts| && pos <= |input|
      decreases |parts| - i, 0
    {
      if i == |parts| then if pos == |input| then Some([]) else None
      else SearchFrom(i, pos, Longest(i, pos))
    }

    /** The first solution in which part i takes at most k characters. */
    function SearchFrom(i: nat, pos: nat, k: nat): Option<seq<int>>
      requires i < |parts| && pos <= |input|
      decreases |parts| - i - 1, k + 1
    {
      if k == 0 then None
      else
        match Takes(i, pos, k)
        case None => SearchFrom(i, pos, Shorter(i, k))
        case Some(value) =>
          match Search(i + 1, pos + k)
          case None => SearchFrom(i, pos, Shorter(i, k))
          case Some(rest) => Some([value] + rest)
    }

    /** A literal has one length. */
    function Shorter(i: nat, k: nat): nat
      requires i < |parts| && k > 0
    {
      if parts[i].Literal? then 0 else k - 1
    }

    /** lengths and values take the parts from i on through the input from pos to its end. */
    ghost predicate Solves(i: nat, pos: nat, lengths: seq<nat>, values: seq<int>)
      decreases |lengths|
    {
      && i + |lengths| == |parts| && |values| == |lengths| && pos <= |input|
      && (if lengths == [] then pos == |input|
          else
            && lengths[0] <= Longest(i, pos) && Takes(i, pos, lengths[0]) == Some(values[0])
            && Solves(i + 1, pos + lengths[0], lengths[1..], values[1..]))
    }

    function Lowered(text: Text): (r: Text)
      ensures |r| == |text| && forall i :: 0 <= i < |text| ==> r[i] == lower(text[i])
    {
      seq(|text|, i requires 0 <= i < |text| => lower(text[i]))
    }

    /** Part i is the input from a to b: a literal is it in small letters, and a marker reads all of it, with this
        value, and no less than that of the input from a on. */
    ghost predicate IsPiece(i: nat, a: nat, b: nat, value: int) {
      && i < |parts| && a < b <= |input|
      && match parts[i]
         case Literal(text) => Lowered(input[a..b]) == Lowered(text) && value == 0
         case Marker(m) => parse(input[a..b], m) == (value, b - a) && parse(input[a..], m).1 >= b - a
    }

    /** The parts from i on are the input from the first cut to the second, from there to the third, and so on. */
    ghost predicate CutsAt(i: nat, cuts: seq<nat>, values: seq<int>) {
      && i + |values| == |parts| && |cuts| == |values| + 1 && cuts[|values|] == |input|
      && forall j :: 0 <= j < |values| ==> IsPiece(i + j, cuts[j], cuts[j + 1], values[j])
    }

    /** The picture matches the whole input, part by part. */
    ghost predicate Matches(cuts: seq<nat>, values: seq<int>) {
      CutsAt(0, cuts, values) && cuts[0] == 0
    }

    /** What a frame may still find. */
    ghost function Outcome(f: Frame): Option<seq<int>>
      requires f.i <= |parts| && f.pos <= |input|
    {
      if f.i == |parts| then Search(f.i, f.pos) else SearchFrom(f.i, f.pos, f.next)
    }

    ghost predicate InRange(f: Frame) {
      && f.i <= |parts| && f.pos <= |input|
      && (f.i < |parts| ==>
            f.next <= Longest(f.i, f.pos) && (parts[f.i].Literal? ==> f.next == 0 || f.next == Longest(f.i, f.pos)))
    }

    /** What f finds first is what above finds after value, or else what it may still find. */
    ghost predicate Waits(f: Frame, above: Frame, value: int) {
      && InRange(f) && InRange(above) && f.i < |parts|
      && Search(f.i, f.pos) == match Search(above.i, above.pos)
                               case Some(rest) => Some([value] + rest)
                               case None => Outcome(f)
    }

    /** Each frame waits on the one above it, and the top may still find what there is to find. */
    ghost predicate Searching(stack: seq<Frame>, values: seq<int>) {
      && stack != [] && |stack| <= |parts| + 1 && |values| == |parts|
      && (forall j :: 0 <= j < |stack| ==> stack[j].i == j && InRange(stack[j]))
      && (forall j :: 0 <= j < |stack| - 1 ==> Waits(stack[j], stack[j + 1], values[j]))
      && var top := stack[|stack| - 1]; Search(top.i, top.pos) == Outcome(top)
    }
  }

  /** When the top frame has every part matched, the values are the first solution's. */
  lemma {:induction false} Solved<M(!new)>(p: Problem<M>, stack: seq<Frame>, values: seq<int>, j: nat)
    requires p.Searching(stack, values) && j < |stack| == |p.parts| + 1 && stack[|p.parts|].pos == |p.input|
    ensures p.Search(j, stack[j].pos) == Some(values[j..])
    decreases |stack| - j
  {
    if j < |p.parts| {
      Solved(p, stack, values, j + 1);
      assert p.Waits(stack[j], stack[j + 1], values[j]);
      assert values[j..] == [values[j]] + values[j + 1..];
    } else {
      assert values[j..] == [] && p.Search(j, stack[j].pos) == Some([]);
    }
  }

  /** The frame below one that finds nothing goes on. */
  lemma Popped<M(!new)>(p: Problem<M>, stack: seq<Frame>, values: seq<int>)
    requires p.Searching(stack, values)
    requires var top := stack[|stack| - 1]; p.Search(top.i, top.pos) == None
    ensures |stack| > 1 ==> p.Searching(stack[..|stack| - 1], values)
    ensures |stack| == 1 ==> p.Search(0, stack[0].pos) == None
  {
    if |stack| > 1 {
      assert p.Waits(stack[|stack| - 2], stack[|stack| - 1], values[|stack| - 2]);
    }
  }

  /** The top frame waits on the next part, which it has given some characters. */
  lemma Pushed<M(!new)>(p: Problem<M>, stack: seq<Frame>, values: seq<int>, rest: Frame, next: Frame, value: int)
    requires p.Searching(stack, values) && |stack| <= |p.parts|
    requires p.Waits(rest, next, value) && rest.i == |stack| - 1 && rest.pos == stack[|stack| - 1].pos
             && next.i == |stack|
    requires p.Search(next.i, next.pos) == p.Outcome(next)
    ensures p.Searching(stack[..|stack| - 1] + [rest, next], values[|stack| - 1 := value])
  {
    var now := stack[..|stack| - 1] + [rest, next];
    forall j | 0 <= j < |now| - 1
      ensures p.Waits(now[j], now[j + 1], values[|stack| - 1 := value][j])
    {
      if j < |stack| - 1 {
        assert p.Waits(stack[j], stack[j + 1], values[j]);
      }
    }
  }

  /** a's lengths are b's, or longer where they first differ. */
  ghost predicate Before(a: seq<nat>, b: seq<nat>) {
    a == b || (a != [] && b != [] && (a[0] > b[0] || (a[0] == b[0] && Before(a[1..], b[1..]))))
  }

  /** What the search finds solves the picture, and comes before every other solution. */
  lemma {:induction false} SearchIsFirst<M(!new)>(p: Problem<M>, i: nat, pos: nat) returns (lengths: seq<nat>)
    requires i <= |p.parts| && pos <= |p.input|
    ensures p.Search(i, pos).Some? ==> p.Solves(i, pos, lengths, p.Search(i, pos).value)
    ensures forall other, values :: p.Solves(i, pos, other, values) ==> p.Search(i, pos).Some? && Before(lengths, other)
    decreases |p.parts| - i, 0
  {
    if i == |p.parts| {
      lengths := [];
    } else {
      lengths := FromIsFirst(p, i, pos, p.Longest(i, pos));
    }
  }

  lemma {:induction false} FromIsFirst<M(!new)>(p: Problem<M>, i: nat, pos: nat, k: nat) returns (lengths: seq<nat>)
    requires i < |p.parts| && pos <= |p.input| && k <= p.Longest(i, pos)
    ensures p.SearchFrom(i, pos, k).Some? ==>
              p.Solves(i, pos, lengths, p.SearchFrom(i, pos, k).value) && lengths != [] && lengths[0] <= k
    ensures forall other, values :: p.Solves(i, pos, other, values) && other[0] <= k ==>
              p.SearchFrom(i, pos, k).Some? && Before(lengths, other)
    decreases |p.parts| - i - 1, k + 1
  {
    lengths := [];
    if k > 0 {
      lengths := FromIsFirst(p, i, pos, p.Shorter(i, k));
      var taken := p.Takes(i, pos, k);
      if taken.Some? {
        var rest := SearchIsFirst(p, i + 1, pos + k);
        var found := p.Search(i + 1, pos + k);
        if found.Some? {
          lengths := [k] + rest;
          assert lengths[1..] == rest && ([taken.value] + found.value)[1..] == found.value;
        }
      }
    }
  }

  lemma PieceTaken<M(!new)>(p: Problem<M>, i: nat, a: nat, k: nat, value: int)
    requires i < |p.parts| && a <= |p.input|
    ensures p.IsPiece(i, a, a + k, value) <==> k <= p.Longest(i, a) && p.Takes(i, a, k) == Some(value)
  {
    if p.parts[i].Literal? && a + k <= |p.input| {
      var text, piece := p.parts[i].text, p.input[a..a + k];
      if k == |text| {
        assert forall j :: 0 <= j < k ==> piece[j] == p.input[a..][j];
        if p.FoldPrefix(p.input[a..], text) {
          assert p.Lowered(piece) == p.Lowered(text);
        } else {
          var j :| 0 <= j < k && p.lower(p.input[a..][j]) != p.lower(text[j]);
          assert p.Lowered(piece)[j] != p.Lowered(text)[j];
        }
      } else {
        assert |p.Lowered(piece)| != |p.Lowered(text)|;
      }
    }
  }

  /** A solution cuts the input. */
  lemma {:induction false} SolvesCuts<M(!new)>(p: Problem<M>, i: nat, pos: nat, lengths: seq<nat>, values: seq<int>)
    returns (cuts: seq<nat>)
    requires p.Solves(i, pos, lengths, values)
    ensures p.CutsAt(i, cuts, values) && cuts[0] == pos
    decreases |lengths|
  {
    if lengths == [] {
      cuts := [pos];
    } else {
      PieceTaken(p, i, pos, lengths[0], values[0]);
      var rest := SolvesCuts(p, i + 1, pos + lengths[0], lengths[1..], values[1..]);
      cuts := [pos] + rest;
      forall j | 0 <= j < |values|
        ensures p.IsPiece(i + j, cuts[j], cuts[j + 1], values[j])
      {
        if j > 0 {
          assert p.IsPiece(i + 1 + (j - 1), rest[j - 1], rest[j], values[1..][j - 1]);
        }
      }
    }
  }

  /** Cuts of the input are a solution. */
  lemma {:induction false} CutsSolve<M(!new)>(p: Problem<M>, i: nat, cuts: seq<nat>, values: seq<int>)
    returns (lengths: seq<nat>)
    requires p.CutsAt(i, cuts, values)
    ensures p.Solves(i, cuts[0], lengths, values)
    decreases |values|
  {
    if values == [] {
      lengths := [];
    } else {
      assert p.IsPiece(i + 0, cuts[0], cuts[1], values[0]);
      PieceTaken(p, i, cuts[0], cuts[1] - cuts[0], values[0]);
      forall j | 0 <= j < |values[1..]|
        ensures p.IsPiece(i + 1 + j, cuts[1..][j], cuts[1..][j + 1], values[1..][j])
      {
        assert p.IsPiece(i + (j + 1), cuts[j + 1], cuts[j + 2], values[j + 1]);
      }
      var rest := CutsSolve(p, i + 1, cuts[1..], values[1..]);
      lengths := [cuts[1] - cuts[0]] + rest;
      assert lengths[1..] == rest;
    }
  }

  /** The search finds values that match the picture, if there are any. */
  lemma SearchMatches<M(!new)>(p: Problem<M>)
    ensures p.Search(0, 0).Some? ==> exists cuts :: p.Matches(cuts, p.Search(0, 0).value)
    ensures p.Search(0, 0).None? ==> forall cuts, values :: !p.Matches(cuts, values)
  {
    var lengths := SearchIsFirst(p, 0, 0);
    if p.Search(0, 0).Some? {
      var cuts := SolvesCuts(p, 0, 0, lengths, p.Search(0, 0).value);
      assert p.Matches(cuts, p.Search(0, 0).value);
    } else {
      forall cuts, values | p.Matches(cuts, values)
        ensures false
      {
        var other := CutsSolve(p, 0, cuts, values);
      }
    }
  }

  const MATCH_STEPS_PER_RUNE: nat := 256

  class PictureMatch<M(!new)> {
    const p: Problem<M>
    /** What stop answers when it is asked the n-th time. */
    const stop: nat -> Option<string>
    var values: seq<int>
    var failed: set<(nat, nat)>
    var steps: int
    var asked: nat
    var err: Option<string>

    constructor (p: Problem<M>, stop: nat -> Option<string>)
      requires p.Valid()
      ensures Valid() && this.p == p && this.stop == stop && err == None && failed == {}
      ensures steps == MATCH_STEPS_PER_RUNE * (|p.input| + |p.parts| + 1)
    {
      this.p, this.stop := p, stop;
      values, failed := seq(|p.parts|, _ => 0), {};
      steps, asked, err := MATCH_STEPS_PER_RUNE * (|p.input| + |p.parts| + 1), 0, None;
    }

    ghost predicate CannotMatch(at: (nat, nat)) {
      at.0 < |p.parts| && at.1 <= |p.input| && p.Search(at.0, at.1) == None
    }

    /** Every memoised part and position cannot match. */
    ghost predicate Valid()
      reads this
    {
      p.Valid() && |values| == |p.parts| && forall at :: at in failed ==> CannotMatch(at)
    }

    /** Charges n parsed characters, plus one for the attempt. */
    method Spend(n: nat) returns (ok: bool)
      modifies this`steps, this`asked, this`err
      ensures steps == old(steps) - n - 1
      ensures ok <==> steps >= 0 && err.None?
      ensures old(err).Some? ==> err.Some?
    {
      steps := steps - (n + 1);
      if steps < 0 {
        return false;
      }
      if err.None? {
        err := stop(asked);
        asked := asked + 1;
      }
      ok := err.None?;
    }

    /** A frame from which every length of part i is left to try. */
    method Enter(i: nat, pos: nat) returns (f: Frame)
      requires Valid() && i <= |p.parts| && pos <= |p.input|
      ensures f.i == i && f.pos == pos && p.InRange(f) && p.Outcome(f) == p.Search(i, pos)
    {
      if i == |p.parts| || (i, pos) in failed {
        assert i < |p.parts| ==> CannotMatch((i, pos));
        f := Frame(i, pos, 0);
      } else {
        assert p.parts[i].Marker? ==> p.Bounded(p.input[pos..], p.parts[i].marker);
        f := Frame(i, pos, p.Longest(i, pos));
      }
    }

    /** The longest untried length of a frame's part, its value, and the frame without it. */
    method NextLength(f: Frame) returns (k: nat, value: int, ok: bool, rest: Frame)
      requires Valid() && p.InRange(f) && f.i < |p.parts|
      modifies this`steps, this`asked, this`err
      ensures rest == f.(next := rest.next) && p.InRange(rest) && steps <= old(steps)
      ensures ok ==> 0 <= steps < old(steps) && err.None? && p.Takes(f.i, f.pos, k) == Some(value)
      ensures ok ==> p.Outcome(f) == match p.Search(f.i + 1, f.pos + k)
                                   case Some(more) => Some([value] + more)
                                   case None => p.Outcome(rest)
      ensures !ok && steps >= 0 && err.None? ==> p.Outcome(f) == None
    {
      rest := f;
      if p.parts[f.i].Literal? {
        k := f.next;
        rest := f.(next := 0);
        if k == 0 {
          return k, 0, false, rest;
        }
        assert p.SearchFrom(f.i, f.pos, 0) == None;
        var spent := Spend(k);
        ok := spent && p.FoldPrefix(p.input[f.pos..], p.parts[f.i].text);
        return k, 0, ok, rest;
      }
      assert p.Bounded(p.input[f.pos..], p.parts[f.i].marker);
      while rest.next > 0
        invariant rest == f.(next := rest.next) && rest.next <= f.next && steps <= old(steps)
        invariant p.Outcome(f) == p.Outcome(rest)
      {
        k := rest.next;
        ok := Spend(k);
        if !ok {
          return 0, 0, false, rest;
        }
        var text := p.input[f.pos..][..k];
        assert text == p.input[f.pos..f.pos + k];
        var read := p.parse(text, p.parts[f.i].marker);
        rest := rest.(next := k - 1);
        if read.1 == k {
          return k, read.0, true, rest;
        }
      }
      return 0, 0, false, rest;
    }

    /** Finds a solution, and then leaves each marker's number in values: the first solution
        of the longest-first search. Without one, and with steps left and no stop, there is none. */
    method Run() returns (ok: bool)
      requires Valid() && steps >= 0 && err == None
      modifies this
      ensures Valid()
      ensures ok ==> p.Search(0, 0) == Some(values)
      ensures !ok && steps >= 0 && err.None? ==> p.Search(0, 0) == None
      ensures ok ==> exists cuts :: p.Matches(cuts, values)
      ensures !ok && steps >= 0 && err.None? ==> forall cuts, any :: !p.Matches(cuts, any)
    {
      SearchMatches(p);
      var f := Enter(0, 0);
      var stack := [f];
      while stack != []
        invariant Valid() && steps >= 0 && err.None?
        invariant if stack == [] then p.Search(0, 0) == None else p.Searching(stack, values) && stack[0].pos == 0
        decreases steps, |stack|
      {
        var top := stack[|stack| - 1];
        if top.i == |p.parts| {
          if top.pos == |p.input| {
            Solved(p, stack, values, 0);
            return true;
          }
          Popped(p, stack, values);
          stack := stack[..|stack| - 1];
          continue;
        }
        var k, value, found, rest := NextLength(top);
        if !found {
          if steps < 0 || err.Some? {
            return false;
          }
          Popped(p, stack, values);
          failed := failed + {(top.i, top.pos)};
          stack := stack[..|stack| - 1];
          continue;
        }
        var next := Enter(top.i + 1, top.pos + k);
        Pushed(p, stack, values, rest, next, value);
        values := values[top.i := value];
        stack := stack[..|stack| - 1] + [rest, next];
        assert stack[0].pos == 0;
      }
      ok := false;
    }
  }
}
