/** Lists with the same elements in another order. */
module Permutations {
  import opened Text

  function Without<T>(list: seq<T>, k: nat): seq<T>
    requires k < |list|
  {
    list[..k] + list[k + 1..]
  }

  lemma RemovingOne<T>(list: seq<T>, k: nat)
    requires k < |list|
    ensures multiset(list) == multiset(Without(list, k)) + multiset{list[k]}
  {
    assert list == list[..k] + [list[k]] + list[k + 1..];
  }

  lemma CancelOne<T>(m: multiset<T>, n: multiset<T>, x: T)
    requires m + multiset{x} == n + multiset{x}
    ensures m == n
  {
    forall y ensures m[y] == n[y] {
      assert (m + multiset{x})[y] == m[y] + multiset{x}[y] && (n + multiset{x})[y] == n[y] + multiset{x}[y];
    }
  }

  function Mapped<S, T>(f: S -> T, list: seq<S>): (r: seq<T>)
    ensures |r| == |list|
    ensures forall i :: 0 <= i < |r| ==> r[i] == f(list[i])
  {
    seq(|list|, i requires 0 <= i < |list| => f(list[i]))
  }

  lemma MappedLast<S, T>(f: S -> T, list: seq<S>)
    requires list != []
    ensures Mapped(f, list) == Mapped(f, list[..|list| - 1]) + [f(list[|list| - 1])]
  {
  }

  lemma CountOfLast<T>(list: seq<T>, x: T)
    requires list != []
    ensures multiset(list)[x] == multiset(list[..|list| - 1])[x] + (if list[|list| - 1] == x then 1 else 0)
  {
    assert list == list[..|list| - 1] + [list[|list| - 1]];
  }

  lemma MappedWithout<S, T>(f: S -> T, list: seq<S>, k: nat)
    requires k < |list|
    ensures Mapped(f, Without(list, k)) == Without(Mapped(f, list), k)
  {
  }

  /** Mapping respects reordering. */
  lemma {:induction false} MappedAlike<S, T>(f: S -> T, a: seq<S>, b: seq<S>)
    requires multiset(a) == multiset(b)
    ensures multiset(Mapped(f, a)) == multiset(Mapped(f, b))
    decreases |a|
  {
    if a == [] {
      assert |b| == |multiset(b)| == |multiset(a)| == 0;
    } else {
      assert a[0] in multiset(b);
      var k :| 0 <= k < |b| && b[k] == a[0];
      RemovingOne(a, 0);
      RemovingOne(b, k);
      CancelOne(multiset(Without(a, 0)), multiset(Without(b, k)), a[0]);
      MappedWithout(f, a, 0);
      MappedWithout(f, b, k);
      MappedAlike(f, Without(a, 0), Without(b, k));
      RemovingOne(Mapped(f, a), 0);
      RemovingOne(Mapped(f, b), k);
    }
  }

  lemma SameMembers<T>(a: seq<T>, b: seq<T>)
    requires multiset(a) == multiset(b)
    ensures |a| == |b| && forall x :: x in a <==> x in b
  {
    assert |a| == |multiset(a)| == |multiset(b)| == |b|;
    assert forall x :: x in a <==> x in multiset(a);
    assert forall x :: x in b <==> x in multiset(b);
  }

  lemma DistinctIgnoresOrder(a: seq<string>, b: seq<string>)
    requires multiset(a) == multiset(b) && Distinct(a)
    ensures Distinct(b)
  {
    SameMembers(a, b);
    forall i, j | 0 <= i < j < |b| ensures b[i] != b[j] {
      assert b[i] in a;
      if b[i] == b[j] {
        RepetitionCounts(b, i, j);
        var k :| 0 <= k < |a| && a[k] == b[i];
        DistinctCountsOnce(a, k);
      }
    }
  }

  lemma RepetitionCounts(s: seq<string>, i: nat, j: nat)
    requires i < j < |s| && s[i] == s[j]
    ensures multiset(s)[s[i]] >= 2
  {
    assert s == s[..j] + s[j..];
    assert s[i] in s[..j] && s[i] in s[j..];
  }

  lemma DistinctCountsOnce(s: seq<string>, k: nat)
    requires Distinct(s) && k < |s|
    ensures multiset(s)[s[k]] == 1
  {
    assert s == s[..k] + [s[k]] + s[k + 1..];
    assert s[k] !in s[..k] && s[k] !in s[k + 1..];
  }
}
