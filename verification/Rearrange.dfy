/** What rearranging a sequence does to its images, concatenations and distinctness. */
module Rearrange {
  import opened Orders

  function Mapped<T, U>(s: seq<T>, f: T -> U): seq<U> {
    seq(|s|, i requires 0 <= i < |s| => f(s[i]))
  }

  function FlatMapped<T, U>(s: seq<T>, f: T -> seq<U>): seq<U> {
    if s == [] then [] else FlatMapped(s[..|s| - 1], f) + f(s[|s| - 1])
  }

  lemma {:induction false} FlatMappedAppend<T, U>(a: seq<T>, b: seq<T>, f: T -> seq<U>)
    ensures FlatMapped(a + b, f) == FlatMapped(a, f) + FlatMapped(b, f)
  {
    if b == [] {
      assert a + b == a;
    } else {
      assert (a + b)[..|a + b| - 1] == a + b[..|b| - 1];
      FlatMappedAppend(a, b[..|b| - 1], f);
    }
  }

  lemma FlatMappedRemove<T, U>(s: seq<T>, i: nat, f: T -> seq<U>)
    requires i < |s|
    ensures multiset(FlatMapped(s, f)) == multiset(FlatMapped(s[..i] + s[i + 1..], f)) + multiset(f(s[i]))
  {
    hide *;
    assert s == s[..i] + [s[i]] + s[i + 1..];
    FlatMappedMiddle(s[..i], s[i], s[i + 1..], f);
  }

  lemma FlatMappedMiddle<T, U>(a: seq<T>, x: T, b: seq<T>, f: T -> seq<U>)
    ensures multiset(FlatMapped(a + [x] + b, f)) == multiset(FlatMapped(a + b, f)) + multiset(f(x))
  {
    FlatMappedOne(x, f);
    hide *;
    FlatMappedAppend(a + [x], b, f);
    FlatMappedAppend(a, [x], f);
    FlatMappedAppend(a, b, f);
    MultisetOfThree(FlatMapped(a, f), f(x), FlatMapped(b, f));
  }

  lemma FlatMappedOne<T, U>(x: T, f: T -> seq<U>)
    ensures FlatMapped([x], f) == f(x)
  {
    assert [x][..0] == [];
  }

  lemma MultisetOfThree<U>(a: seq<U>, x: seq<U>, b: seq<U>)
    ensures multiset(a + x + b) == multiset(a + b) + multiset(x)
  {
  }

  /** Where an element of the other arrangement sits. */
  lemma Find<T>(a: seq<T>, b: seq<T>) returns (i: nat)
    requires multiset(a) == multiset(b) && a != []
    ensures i < |b| && b[i] == a[|a| - 1] && |a| == |b|
    ensures multiset(a[..|a| - 1]) == multiset(b[..i] + b[i + 1..])
  {
    assert |a| == |multiset(a)| && |b| == |multiset(b)|;
    assert a[|a| - 1] in multiset(b);
    i :| 0 <= i < |b| && b[i] == a[|a| - 1];
    MultisetRemove(a, |a| - 1);
    MultisetRemove(b, i);
    assert a[..|a| - 1] + a[|a|..] == a[..|a| - 1];
  }

  lemma {:induction false} FlatMappedPermuted<T, U>(a: seq<T>, b: seq<T>, f: T -> seq<U>)
    requires multiset(a) == multiset(b)
    ensures multiset(FlatMapped(a, f)) == multiset(FlatMapped(b, f))
    decreases |a|
  {
    if a == [] {
      assert |b| == |multiset(b)|;
      assert a == b;
    } else {
      var i := Find(a, b);
      FlatMappedPermuted(a[..|a| - 1], b[..i] + b[i + 1..], f);
      FlatMappedRemove(b, i, f);
    }
  }

  lemma {:induction false} MappedIsFlat<T, U>(s: seq<T>, f: T -> U)
    ensures Mapped(s, f) == FlatMapped(s, x => [f(x)])
  {
    if s != [] {
      MappedIsFlat(s[..|s| - 1], f);
      assert Mapped(s, f) == Mapped(s[..|s| - 1], f) + [f(s[|s| - 1])];
    }
  }

  lemma MappedPermuted<T, U>(a: seq<T>, b: seq<T>, f: T -> U)
    requires multiset(a) == multiset(b)
    ensures multiset(Mapped(a, f)) == multiset(Mapped(b, f))
  {
    MappedIsFlat(a, f);
    MappedIsFlat(b, f);
    FlatMappedPermuted(a, b, x => [f(x)]);
  }

  lemma SameMembers<T>(a: seq<T>, b: seq<T>)
    requires multiset(a) == multiset(b)
    ensures forall x :: x in a <==> x in b
    ensures |a| == |b|
  {
    assert forall x :: x in a <==> x in multiset(a);
    assert forall x :: x in b <==> x in multiset(b);
    assert |a| == |multiset(a)| && |b| == |multiset(b)|;
  }

  /** Two positions hold images that differ. */
  predicate DistinctBy<T, U(==)>(s: seq<T>, key: T -> U) {
    forall i, j | 0 <= i < j < |s| :: key(s[i]) != key(s[j])
  }

  ghost predicate NoRepetition<U>(m: multiset<U>) {
    forall k | k in m :: m[k] == 1
  }

  /** Distinctness says that the multiset of the images has no repetition. */
  lemma {:induction false} DistinctByCounts<T, U>(s: seq<T>, key: T -> U)
    ensures DistinctBy(s, key) <==> NoRepetition(multiset(Mapped(s, key)))
  {
    if s != [] {
      var n := |s| - 1;
      DistinctByCounts(s[..n], key);
      var init, all := Mapped(s[..n], key), Mapped(s, key);
      assert all == init + [key(s[n])];
      DistinctByLast(s, key);
      hide Mapped, DistinctBy;
      OneMore(init, key(s[n]));
    }
  }

  lemma OneMore<U>(s: seq<U>, x: U)
    ensures NoRepetition(multiset(s + [x])) <==> NoRepetition(multiset(s)) && x !in s
  {
    var m, more := multiset(s), multiset(s + [x]);
    assert more == m + multiset{x};
    assert x in s <==> x in m;
    assert more[x] == m[x] + 1;
    if exists k :: k in m && m[k] != 1 {
      var k :| k in m && m[k] != 1;
      assert k in more && more[k] != 1;
    }
  }

  lemma DistinctByLast<T, U>(s: seq<T>, key: T -> U)
    requires s != []
    ensures DistinctBy(s, key) <==> DistinctBy(s[..|s| - 1], key) && key(s[|s| - 1]) !in Mapped(s[..|s| - 1], key)
  {
    var n := |s| - 1;
    var init := Mapped(s[..n], key);
    assert forall i :: 0 <= i < n ==> init[i] == key(s[i]);
    assert forall i :: 0 <= i < n ==> s[..n][i] == s[i];
  }

  lemma DistinctByPermuted<T, U>(a: seq<T>, b: seq<T>, key: T -> U)
    requires multiset(a) == multiset(b)
    ensures DistinctBy(a, key) <==> DistinctBy(b, key)
  {
    DistinctByCounts(a, key);
    DistinctByCounts(b, key);
    MappedPermuted(a, b, key);
  }
}
