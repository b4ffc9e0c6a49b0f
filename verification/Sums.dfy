/** Sums and counts over sequences, and their independence of order. */
module Sums {
  import opened Sorting

  function SumBy<T>(s: seq<T>, f: T -> int): int {
    if s == [] then 0 else SumBy(s[..|s| - 1], f) + f(s[|s| - 1])
  }

  lemma {:induction false} SumJoined<T>(a: seq<T>, b: seq<T>, f: T -> int)
    ensures SumBy(a + b, f) == SumBy(a, f) + SumBy(b, f)
  {
    if b == [] {
      assert a + b == a;
    } else {
      SumJoined(a, b[..|b| - 1], f);
      assert (a + b)[..|a + b| - 1] == a + b[..|b| - 1];
    }
  }

  lemma SumOne<T>(x: T, f: T -> int)
    ensures SumBy([x], f) == f(x)
  {
    assert [x][..0] == [];
  }

  lemma SumWithout<T>(s: seq<T>, k: nat, f: T -> int)
    requires k < |s|
    ensures SumBy(s, f) == SumBy(s[..k] + s[k + 1..], f) + f(s[k])
  {
    hide SumBy;
    SumOne(s[k], f);
    SumJoined(s[..k], s[k + 1..], f);
    SumJoined(s[..k], [s[k]] + s[k + 1..], f);
    SumJoined([s[k]], s[k + 1..], f);
    assert s == s[..k] + ([s[k]] + s[k + 1..]);
  }

  lemma {:induction false} SumPermuted<T>(a: seq<T>, b: seq<T>, f: T -> int)
    requires multiset(a) == multiset(b)
    ensures SumBy(a, f) == SumBy(b, f)
    decreases |a|
  {
    assert |a| == |multiset(a)| == |multiset(b)| == |b|;
    if a != [] {
      var last := a[|a| - 1];
      InMultiset(a, last);
      InMultiset(b, last);
      var k := RemoveOne(b, last);
      SumWithout(b, k, f);
      assert a == a[..|a| - 1] + [last];
      assert multiset(a[..|a| - 1]) == multiset(a) - multiset{last};
      SumPermuted(a[..|a| - 1], b[..k] + b[k + 1..], f);
    }
  }

  lemma {:induction false} SumSame<T>(s: seq<T>, f: T -> int, g: T -> int)
    requires forall k :: 0 <= k < |s| ==> f(s[k]) == g(s[k])
    ensures SumBy(s, f) == SumBy(s, g)
  {
    if s != [] {
      SumSame(s[..|s| - 1], f, g);
    }
  }

  lemma {:induction false} SumZero<T>(s: seq<T>, f: T -> int)
    requires forall k :: 0 <= k < |s| ==> f(s[k]) == 0
    ensures SumBy(s, f) == 0
  {
    if s != [] {
      SumZero(s[..|s| - 1], f);
    }
  }

  // ---------------------------------------------------------------- counting

  function Indicator<T>(p: T -> bool): T -> int {
    x => if p(x) then 1 else 0
  }

  function Count<T>(s: seq<T>, p: T -> bool): (n: nat)
    ensures n <= |s|
  {
    if s == [] then 0 else Count(s[..|s| - 1], p) + (if p(s[|s| - 1]) then 1 else 0)
  }

  lemma {:induction false} CountIsSum<T>(s: seq<T>, p: T -> bool)
    ensures Count(s, p) == SumBy(s, Indicator(p))
  {
    if s != [] {
      CountIsSum(s[..|s| - 1], p);
    }
  }

  lemma CountPermuted<T>(a: seq<T>, b: seq<T>, p: T -> bool)
    requires multiset(a) == multiset(b)
    ensures Count(a, p) == Count(b, p)
  {
    CountIsSum(a, p);
    CountIsSum(b, p);
    SumPermuted(a, b, Indicator(p));
  }

  lemma CountJoined<T>(a: seq<T>, b: seq<T>, p: T -> bool)
    ensures Count(a + b, p) == Count(a, p) + Count(b, p)
  {
    CountIsSum(a, p);
    CountIsSum(b, p);
    CountIsSum(a + b, p);
    SumJoined(a, b, Indicator(p));
  }

  lemma CountNext<T>(s: seq<T>, k: nat, p: T -> bool)
    requires k < |s|
    ensures Count(s[..k + 1], p) == Count(s[..k], p) + (if p(s[k]) then 1 else 0)
  {
    assert s[..k + 1][..k] == s[..k];
  }

  lemma {:induction false} CountSame<T>(s: seq<T>, p: T -> bool, q: T -> bool)
    requires forall k :: 0 <= k < |s| ==> p(s[k]) == q(s[k])
    ensures Count(s, p) == Count(s, q)
  {
    if s != [] {
      CountSame(s[..|s| - 1], p, q);
    }
  }

  lemma {:induction false} CountNone<T>(s: seq<T>, p: T -> bool)
    requires forall k :: 0 <= k < |s| ==> !p(s[k])
    ensures Count(s, p) == 0
  {
    if s != [] {
      CountNone(s[..|s| - 1], p);
    }
  }

  lemma {:induction false} CountGrows<T>(s: seq<T>, k: nat, l: nat, p: T -> bool)
    requires k < l <= |s|
    ensures Count(s[..l], p) >= Count(s[..k], p) + (if p(s[k]) then 1 else 0)
    decreases l
  {
    CountNext(s, l - 1, p);
    if k < l - 1 {
      CountGrows(s, k, l - 1, p);
    }
  }
}
