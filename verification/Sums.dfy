/** Adding up a measure over all goroutines. */
module Sums {

  function Sum<T>(s: seq<T>, f: T -> int): int {
    if s == [] then 0 else f(s[0]) + Sum(s[1..], f)
  }

  lemma {:induction false} SumUpdate<T>(s: seq<T>, f: T -> int, i: nat, x: T)
    requires i < |s|
    ensures Sum(s[i := x], f) == Sum(s, f) - f(s[i]) + f(x)
  {
    if i == 0 {
      assert s[i := x][1..] == s[1..];
    } else {
      SumUpdate(s[1..], f, i - 1, x);
      assert s[i := x][1..] == s[1..][i - 1 := x];
    }
  }

  lemma {:induction false} SumSame<T>(s: seq<T>, f: T -> int, g: T -> int)
    requires forall i :: 0 <= i < |s| ==> f(s[i]) == g(s[i])
    ensures Sum(s, f) == Sum(s, g)
  {
    if s != [] {
      forall i | 0 <= i < |s[1..]| ensures f(s[1..][i]) == g(s[1..][i]) { assert s[1..][i] == s[i + 1]; }
      SumSame(s[1..], f, g);
    }
  }

  /** A 0/1 measure that is 0 somewhere counts at most all the others. */
  lemma {:induction false} CountOthers<T>(s: seq<T>, f: T -> int, i: nat)
    requires i < |s| && f(s[i]) == 0
    requires forall j :: 0 <= j < |s| ==> f(s[j]) <= 1
    ensures Sum(s, f) <= |s| - 1
  {
    forall j | 0 <= j < |s[1..]| ensures f(s[1..][j]) <= 1 { assert s[1..][j] == s[j + 1]; }
    if i == 0 {
      CountAll(s[1..], f);
    } else {
      CountOthers(s[1..], f, i - 1);
    }
  }

  lemma {:induction false} CountAll<T>(s: seq<T>, f: T -> int)
    requires forall j :: 0 <= j < |s| ==> f(s[j]) <= 1
    ensures Sum(s, f) <= |s|
  {
    if s != [] {
      forall j | 0 <= j < |s[1..]| ensures f(s[1..][j]) <= 1 { assert s[1..][j] == s[j + 1]; }
      CountAll(s[1..], f);
    }
  }

  lemma {:induction false} SumOne<T>(s: seq<T>, f: T -> int, i: nat)
    requires i < |s|
    requires forall j :: 0 <= j < |s| ==> f(s[j]) >= 0
    ensures Sum(s, f) >= f(s[i])
  {
    forall j | 0 <= j < |s[1..]| ensures f(s[1..][j]) >= 0 { assert s[1..][j] == s[j + 1]; }
    if i != 0 {
      SumOne(s[1..], f, i - 1);
    } else {
      SumNonNegative(s[1..], f);
    }
  }

  lemma {:induction false} SumNonNegative<T>(s: seq<T>, f: T -> int)
    requires forall j :: 0 <= j < |s| ==> f(s[j]) >= 0
    ensures Sum(s, f) >= 0
  {
    if s != [] {
      forall j | 0 <= j < |s[1..]| ensures f(s[1..][j]) >= 0 { assert s[1..][j] == s[j + 1]; }
      SumNonNegative(s[1..], f);
    }
  }

  lemma {:induction false} SumZero<T>(s: seq<T>, f: T -> int)
    requires forall j :: 0 <= j < |s| ==> f(s[j]) == 0
    ensures Sum(s, f) == 0
  {
    if s != [] {
      forall j | 0 <= j < |s[1..]| ensures f(s[1..][j]) == 0 { assert s[1..][j] == s[j + 1]; }
      SumZero(s[1..], f);
    }
  }

  /** Two measures that differ on one goroutine only. */
  lemma {:induction false} SumDiffersAt<T>(s: seq<T>, f: T -> int, g: T -> int, i: nat)
    requires i < |s|
    requires forall j :: 0 <= j < |s| && j != i ==> f(s[j]) == g(s[j])
    ensures Sum(s, f) - Sum(s, g) == f(s[i]) - g(s[i])
  {
    if i == 0 {
      forall j | 0 <= j < |s[1..]| ensures f(s[1..][j]) == g(s[1..][j]) { assert s[1..][j] == s[j + 1]; }
      SumSame(s[1..], f, g);
    } else {
      forall j | 0 <= j < |s[1..]| && j != i - 1 ensures f(s[1..][j]) == g(s[1..][j]) { assert s[1..][j] == s[j + 1]; }
      SumDiffersAt(s[1..], f, g, i - 1);
    }
  }

  lemma SumOfTwo<T>(s: seq<T>, f: T -> int)
    requires |s| <= 2
    ensures Sum(s, f) == if |s| == 0 then 0 else if |s| == 1 then f(s[0]) else f(s[0]) + f(s[1])
  {
    if |s| == 2 { assert s[1..][1..] == []; }
  }

  lemma {:induction false} SumAllButLast<T>(s: seq<T>, f: T -> int, c: int)
    requires s != [] && f(s[|s| - 1]) == 0
    requires forall i :: 0 <= i < |s| - 1 ==> f(s[i]) == c
    ensures Sum(s, f) == (|s| - 1) * c
  {
    if |s| == 1 {
      assert Sum(s[1..], f) == 0;
    } else {
      forall i | 0 <= i < |s[1..]| - 1 ensures f(s[1..][i]) == c { assert s[1..][i] == s[i + 1]; }
      SumAllButLast(s[1..], f, c);
      assert (|s| - 1) * c == (|s| - 2) * c + c;
    }
  }

  lemma Distribute(c: int, a: int, b: int)
    ensures c * (a + b) == c * a + c * b
  {
  }
}
