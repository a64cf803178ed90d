/** The text a plan is cached under. */
module PlanKey {
  function DigitChar(d: nat): char
    requires d < 10
  {
    "0123456789"[d]
  }

  function Digits(n: nat): string {
    if n < 10 then [DigitChar(n)] else Digits(n / 10) + [DigitChar(n % 10)]
  }

  /** A number in base 10. */
  function Itoa(n: int): string {
    if n < 0 then "-" + Digits(-n) else Digits(n)
  }

  /** Numbers separated by commas. */
  function Joined(indices: seq<int>): string {
    if indices == [] then ""
    else Itoa(indices[0]) + if |indices| == 1 then "" else "," + Joined(indices[1..])
  }

  function KeyOf(schema: string, indices: seq<int>): string {
    schema + "|" + Joined(indices)
  }

  predicate IsDigit(c: char) {
    '0' <= c <= '9'
  }

  lemma {:induction false} DigitsOnly(n: nat)
    ensures Digits(n) != [] && forall i :: 0 <= i < |Digits(n)| ==> IsDigit(Digits(n)[i])
  {
    if n >= 10 {
      DigitsOnly(n / 10);
    }
  }

  lemma LastInjective(a: string, c: char, b: string, d: char)
    requires a + [c] == b + [d]
    ensures a == b && c == d
  {
    var s := a + [c];
    assert s == b + [d] && |a| == |b|;
    assert a == s[..|a|] == b && c == s[|a|] == d;
  }

  lemma DigitsSplit(n: nat)
    requires n >= 10
    ensures Digits(n) == Digits(n / 10) + [DigitChar(n % 10)] && |Digits(n)| > 1
  {
    DigitsOnly(n / 10);
  }

  lemma {:induction false} DigitsInjective(a: nat, b: nat)
    requires Digits(a) == Digits(b)
    ensures a == b
  {
    if a >= 10 {
      DigitsSplit(a);
    }
    if b >= 10 {
      DigitsSplit(b);
    }
    if a < 10 || b < 10 {
      assert Digits(a) == [DigitChar(a)] && Digits(b) == [DigitChar(b)];
    } else {
      hide Digits, DigitChar;
      LastInjective(Digits(a / 10), DigitChar(a % 10), Digits(b / 10), DigitChar(b % 10));
      DigitInjective(a % 10, b % 10);
      DigitsInjective(a / 10, b / 10);
    }
  }

  lemma DigitInjective(a: nat, b: nat)
    requires a < 10 && b < 10 && DigitChar(a) == DigitChar(b)
    ensures a == b
  {
  }

  lemma ItoaInjective(a: int, b: int)
    requires Itoa(a) == Itoa(b)
    ensures a == b
  {
    ItoaPlain(a);
    ItoaPlain(b);
    if a < 0 {
      assert Itoa(a)[1..] == Digits(-a);
      assert Itoa(a)[0] == '-';
      DigitsOnly(if b < 0 then -b else b);
      assert Itoa(b)[1..] == Digits(-b);
      DigitsInjective(-a, -b);
    } else {
      DigitsOnly(a);
      assert IsDigit(Itoa(a)[0]);
      DigitsInjective(a, b);
    }
  }

  /** A number holds no separator. */
  lemma ItoaPlain(n: int)
    ensures Itoa(n) != [] && ',' !in Itoa(n) && '|' !in Itoa(n)
  {
    DigitsOnly(if n < 0 then -n else n);
    forall i | 0 <= i < |Itoa(n)|
      ensures Itoa(n)[i] == '-' || IsDigit(Itoa(n)[i])
    {
      assert n < 0 && i > 0 ==> Itoa(n)[i] == Digits(-n)[i - 1];
    }
  }

  /** Where a separator first ends a text. */
  lemma FirstSplit(a: string, b: string, c: string, d: string, sep: char)
    requires sep !in a && sep !in c && a + b == c + d && (b == [] || b[0] == sep) && (d == [] || d[0] == sep)
    ensures a == c && b == d
  {
    var s := a + b;
    assert forall i :: 0 <= i < |a| ==> s[i] == a[i];
    assert forall i :: 0 <= i < |c| ==> s[i] == c[i];
    assert b != [] ==> s[|a|] == sep;
    assert d != [] ==> s[|c|] == sep;
    assert |a| == |c|;
    assert s[..|a|] == a && s[|a|..] == b && s[..|c|] == c && s[|c|..] == d;
  }

  /** Where a separator is last in a text. */
  lemma LastSplit(a: string, b: string, c: string, d: string, sep: char)
    requires sep !in b && sep !in d && a + [sep] + b == c + [sep] + d
    ensures a == c && b == d
  {
    var s := a + [sep] + b;
    assert forall i :: 0 <= i < |b| ==> s[|a| + 1 + i] == b[i];
    assert forall i :: 0 <= i < |d| ==> s[|c| + 1 + i] == d[i];
    assert forall i :: |a| < i < |s| ==> s[i] == b[i - |a| - 1];
    assert forall i :: |c| < i < |s| ==> s[i] == d[i - |c| - 1];
    assert s[|a|] == sep && s[|c|] == sep;
    assert |a| == |c|;
    assert s[..|a|] == a && s[..|c|] == c && s[|a| + 1..] == b && s[|c| + 1..] == d;
  }

  lemma {:induction false} JoinedPlain(indices: seq<int>)
    ensures '|' !in Joined(indices) && (indices == [] <==> Joined(indices) == [])
  {
    if indices != [] {
      ItoaPlain(indices[0]);
      JoinedPlain(indices[1..]);
    }
  }

  /** What follows the first number. */
  function Tail(indices: seq<int>): string
    requires indices != []
  {
    if |indices| == 1 then "" else "," + Joined(indices[1..])
  }

  lemma TailInjective(a: seq<int>, b: seq<int>)
    requires a != [] && b != [] && Tail(a) == Tail(b)
    ensures (|a| == 1) == (|b| == 1) && (|a| > 1 ==> Joined(a[1..]) == Joined(b[1..]))
  {
    assert |a| > 1 ==> Tail(a)[1..] == Joined(a[1..]);
    assert |b| > 1 ==> Tail(b)[1..] == Joined(b[1..]);
  }

  lemma JoinedFirst(indices: seq<int>)
    requires indices != []
    ensures Joined(indices) == Itoa(indices[0]) + Tail(indices)
  {
    hide Itoa;
  }

  lemma FirstInjective(a: seq<int>, b: seq<int>)
    requires a != [] && b != [] && Joined(a) == Joined(b)
    ensures a[0] == b[0] && Tail(a) == Tail(b)
  {
    JoinedFirst(a);
    JoinedFirst(b);
    hide Joined, Itoa;
    ItoaPlain(a[0]);
    ItoaPlain(b[0]);
    FirstSplit(Itoa(a[0]), Tail(a), Itoa(b[0]), Tail(b), ',');
    ItoaInjective(a[0], b[0]);
  }

  lemma {:induction false} JoinedInjective(a: seq<int>, b: seq<int>)
    requires Joined(a) == Joined(b)
    ensures a == b
  {
    hide Joined, Tail, Itoa;
    JoinedPlain(a);
    JoinedPlain(b);
    if a != [] && b != [] {
      FirstInjective(a, b);
      TailInjective(a, b);
      if |a| > 1 {
        JoinedInjective(a[1..], b[1..]);
      }
      assert a == [a[0]] + a[1..] && b == [b[0]] + b[1..];
    }
  }

  /** Batches with one key are one batch under one schema key, whatever the schema keys hold. */
  lemma KeyInjective(s: string, a: seq<int>, t: string, b: seq<int>)
    requires KeyOf(s, a) == KeyOf(t, b)
    ensures s == t && a == b
  {
    JoinedPlain(a);
    JoinedPlain(b);
    LastSplit(s, Joined(a), t, Joined(b), '|');
    JoinedInjective(a, b);
  }

  lemma Associate(a: string, b: string, c: string)
    ensures (a + b) + c == a + (b + c)
  {
  }

  lemma {:induction false} TailLast(indices: seq<int>)
    requires |indices| > 1
    ensures var n := |indices| - 1; Tail(indices) == Tail(indices[..n]) + ("," + Itoa(indices[n]))
  {
    var n, rest := |indices| - 1, indices[1..];
    JoinedFirst(rest);
    hide Joined, Itoa;
    if n > 1 {
      TailLast(rest);
      assert rest[..n - 1] == indices[..n][1..] && rest[n - 1] == indices[n];
      JoinedFirst(rest[..n - 1]);
      Associate(Itoa(rest[0]), Tail(rest[..n - 1]), "," + Itoa(indices[n]));
      Associate(",", Joined(rest[..n - 1]), "," + Itoa(indices[n]));
    }
  }

  lemma JoinedLast(indices: seq<int>)
    requires |indices| > 1
    ensures var n := |indices| - 1; Joined(indices) == Joined(indices[..n]) + ("," + Itoa(indices[n]))
  {
    var n := |indices| - 1;
    JoinedFirst(indices);
    JoinedFirst(indices[..n]);
    TailLast(indices);
    hide Joined, Itoa, Tail;
    Associate(Itoa(indices[0]), Tail(indices[..n]), "," + Itoa(indices[n]));
  }

  lemma JoinedMore(indices: seq<int>, i: nat)
    requires i < |indices|
    ensures Joined(indices[..i + 1]) == Joined(indices[..i]) + ((if i > 0 then "," else "") + Itoa(indices[i]))
  {
    if i > 0 {
      hide Joined, Itoa;
      JoinedLast(indices[..i + 1]);
      assert indices[..i + 1][..i] == indices[..i];
    }
  }

  /** Appends the plan key for the indices under a schema key to b. */
  method AppendPlanCacheKey(b: string, schema: string, indices: seq<int>) returns (key: string)
    ensures key == b + KeyOf(schema, indices)
  {
    key := b + (schema + "|");
    ghost var head := key;
    for i := 0 to |indices|
      invariant key == head + Joined(indices[..i])
    {
      hide Joined, Itoa;
      JoinedMore(indices, i);
      ghost var comma := if i > 0 then "," else "";
      Associate(head, Joined(indices[..i]), comma + Itoa(indices[i]));
      Associate(key, comma, Itoa(indices[i]));
      if i > 0 {
        key := key + ",";
      }
      key := key + Itoa(indices[i]);
    }
    assert indices[..|indices|] == indices;
    hide Joined;
    Associate(b, schema + "|", Joined(indices));
  }
}
