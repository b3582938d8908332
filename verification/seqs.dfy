/** Sequence helpers mirroring the Python list operations the source relies on. */
module Seqs {

  /** No element occurs twice. */
  predicate Distinct<T(==)>(s: seq<T>) {
    forall i, j :: 0 <= i < j < |s| ==> s[i] != s[j]
  }

  /** `a` is what is left of `b` once some elements have been taken off its front. */
  predicate IsSuffix<T(==)>(a: seq<T>, b: seq<T>) {
    |a| <= |b| && a == b[|b| - |a|..]
  }

  /** Taking from the front twice takes from the front. */
  lemma SuffixTransitive<T>(a: seq<T>, b: seq<T>, c: seq<T>)
    requires IsSuffix(a, b) && IsSuffix(b, c)
    ensures IsSuffix(a, c)
  {
    assert c[|c| - |b|..][|b| - |a|..] == c[|c| - |a|..];
  }

  function Min(a: int, b: int): int { if a <= b then a else b }

  function Max(a: int, b: int): int { if a >= b then a else b }

  /** Position of the first occurrence of `x` (the index Python's `list.remove` deletes). */
  function IndexOf<T(==)>(s: seq<T>, x: T): (i: nat)
    requires x in s
    ensures i < |s| && s[i] == x
    ensures x !in s[..i]
  {
    if s[0] == x then 0 else 1 + IndexOf(s[1..], x)
  }

  /** Python's `list.remove(x)`: drop the first occurrence of `x`, keep the rest in order. */
  function RemoveFirst<T(==)>(s: seq<T>, x: T): (r: seq<T>)
    requires x in s
    ensures |r| == |s| - 1
    ensures multiset(r) + multiset{x} == multiset(s)
  {
    var i := IndexOf(s, x);
    assert s == s[..i] + [x] + s[i + 1..];
    s[..i] + s[i + 1..]
  }

  /** The cut point of the Python slice `s[:n]` on a list of length `len`:
      a negative `n` counts from the end, and any `n` is clamped to the list. */
  function Cut(n: int, len: nat): (k: nat)
    ensures k <= len
    ensures 0 <= n ==> k == Min(n, len)
    ensures n < 0 ==> k == Max(0, len + n)
  {
    if n >= 0 then Min(n, len) else Max(0, len + n)
  }

  /** A sequence without repetitions counts every element at most once. */
  lemma {:induction false} DistinctCounts<T>(s: seq<T>)
    requires Distinct(s)
    ensures forall x :: multiset(s)[x] <= 1
  {
    if s != [] {
      assert s == [s[0]] + s[1..];
      DistinctCounts(s[1..]);
      assert s[0] !in s[1..];
    }
  }

  /** Conversely, counting every element at most once means there are no repetitions. */
  lemma {:induction false} CountsDistinct<T>(s: seq<T>)
    requires forall x :: multiset(s)[x] <= 1
    ensures Distinct(s)
  {
    if s != [] {
      assert s == [s[0]] + s[1..];
      assert forall x :: multiset(s[1..])[x] <= multiset(s)[x];
      CountsDistinct(s[1..]);
      assert multiset(s)[s[0]] == 1 + multiset(s[1..])[s[0]];
      assert s[0] !in s[1..];
    }
  }

  /** Reordering a repetition-free sequence (a shuffle) keeps it repetition-free. */
  lemma DistinctPermutation<T>(s: seq<T>, t: seq<T>)
    requires Distinct(s)
    requires multiset(s) == multiset(t)
    ensures Distinct(t)
  {
    DistinctCounts(s);
    CountsDistinct(t);
  }

  /** Removing one element from a repetition-free sequence removes exactly that element. */
  lemma DistinctRemoveFirst<T>(s: seq<T>, x: T)
    requires Distinct(s) && x in s
    ensures Distinct(RemoveFirst(s, x))
    ensures forall y :: y in RemoveFirst(s, x) <==> y in s && y != x
  {
    var r := RemoveFirst(s, x);
    DistinctCounts(s);
    assert forall y :: multiset(r)[y] <= multiset(s)[y];
    CountsDistinct(r);
    forall y
      ensures y in r <==> y in s && y != x
    {
      assert multiset(r)[y] + (if y == x then 1 else 0) == multiset(s)[y];
    }
  }

  /** Two orderings of the same elements still agree once the first element of one is removed from both. */
  lemma TailPermutation<T>(s: seq<T>, t: seq<T>)
    requires s != [] && multiset(s) == multiset(t)
    ensures s[0] in t
    ensures multiset(s[1..]) == multiset(RemoveFirst(t, s[0]))
  {
    assert s == [s[0]] + s[1..];
    assert s[0] in multiset(t);
    var r := RemoveFirst(t, s[0]);
    forall y
      ensures multiset(s[1..])[y] == multiset(r)[y]
    {
      assert multiset(s)[y] == multiset{s[0]}[y] + multiset(s[1..])[y];
      assert multiset(t)[y] == multiset(r)[y] + multiset{s[0]}[y];
    }
  }

  /** Moving a bundle of elements from one multiset to another keeps their sum. */
  lemma MultisetTransfer<T>(a0: multiset<T>, a1: multiset<T>, b0: multiset<T>, b1: multiset<T>, x0: multiset<T>, x1: multiset<T>)
    requires a1 + x1 == a0 + x0
    requires b1 + x0 == b0 + x1
    ensures a1 + b1 == a0 + b0
  {
    forall y
      ensures (a1 + b1)[y] == (a0 + b0)[y]
    {
      assert (a1 + x1)[y] == (a0 + x0)[y];
      assert (b1 + x0)[y] == (b0 + x1)[y];
    }
  }

  /** If a part `e` is taken out of `x`, the whole loses exactly `e`. */
  lemma MultisetTakeOut<T>(b0: multiset<T>, b1: multiset<T>, x0: multiset<T>, x1: multiset<T>, e: multiset<T>)
    requires b1 + x0 == b0 + x1
    requires x1 + e == x0
    ensures b1 + e == b0
  {
    forall y
      ensures (b1 + e)[y] == b0[y]
    {
      assert (b1 + x0)[y] == (b0 + x1)[y];
      assert (x1 + e)[y] == x0[y];
    }
  }
}
