/** Total orders and the stable sort that the source's sort calls perform. */
module Orders {

  ghost predicate Preorder<T(!new)>(le: (T, T) -> bool) {
    && (forall x, y :: le(x, y) || le(y, x))
    && (forall x, y, z :: le(x, y) && le(y, z) ==> le(x, z))
  }

  ghost predicate TotalOrder<T(!new)>(le: (T, T) -> bool) {
    && Preorder(le)
    && (forall x, y :: le(x, y) && le(y, x) ==> x == y)
  }

  ghost predicate Sorted<T>(s: seq<T>, le: (T, T) -> bool) {
    forall i, j :: 0 <= i < j < |s| ==> le(s[i], s[j])
  }

  /** No two different elements of the sequence tie. */
  ghost predicate NoTies<T>(s: seq<T>, le: (T, T) -> bool) {
    forall x, y :: x in s && y in s && le(x, y) && le(y, x) ==> x == y
  }

  function Insert<T>(x: T, s: seq<T>, le: (T, T) -> bool): seq<T> {
    if s == [] || le(x, s[0]) then [x] + s else [s[0]] + Insert(x, s[1..], le)
  }

  /** Stable: an element stays in front of the later elements it ties with. */
  function Sort<T>(s: seq<T>, le: (T, T) -> bool): seq<T> {
    if s == [] then [] else Insert(s[0], Sort(s[1..], le), le)
  }

  lemma {:induction false} InsertContents<T>(x: T, s: seq<T>, le: (T, T) -> bool)
    ensures multiset(Insert(x, s, le)) == multiset{x} + multiset(s)
  {
    if s == [] || le(x, s[0]) {
    } else {
      InsertContents(x, s[1..], le);
      assert s == [s[0]] + s[1..];
    }
  }

  lemma {:induction false} SortContents<T>(s: seq<T>, le: (T, T) -> bool)
    ensures multiset(Sort(s, le)) == multiset(s)
  {
    if s != [] {
      SortContents(s[1..], le);
      InsertContents(s[0], Sort(s[1..], le), le);
      assert s == [s[0]] + s[1..];
    }
  }

  lemma SortMembers<T>(s: seq<T>, le: (T, T) -> bool)
    ensures forall x :: x in Sort(s, le) <==> x in s
    ensures |Sort(s, le)| == |s|
  {
    SortContents(s, le);
    assert forall x :: x in Sort(s, le) <==> x in multiset(Sort(s, le));
    assert |multiset(Sort(s, le))| == |Sort(s, le)| && |multiset(s)| == |s|;
  }

  lemma {:induction false} InsertSorted<T(!new)>(x: T, s: seq<T>, le: (T, T) -> bool)
    requires Preorder(le) && Sorted(s, le)
    ensures Sorted(Insert(x, s, le), le)
  {
    if s == [] || le(x, s[0]) {
    } else {
      InsertSorted(x, s[1..], le);
      InsertContents(x, s[1..], le);
      var rest := Insert(x, s[1..], le);
      forall j | 0 <= j < |rest| ensures le(s[0], rest[j]) {
        assert rest[j] in multiset(rest);
        if rest[j] != x {
          assert rest[j] in s[1..];
        }
      }
    }
  }

  lemma {:induction false} SortSorted<T(!new)>(s: seq<T>, le: (T, T) -> bool)
    requires Preorder(le)
    ensures Sorted(Sort(s, le), le)
  {
    if s != [] {
      SortSorted(s[1..], le);
      InsertSorted(s[0], Sort(s[1..], le), le);
    }
  }

  lemma HeadsAgree<T(!new)>(a: seq<T>, b: seq<T>, le: (T, T) -> bool)
    requires Preorder(le) && Sorted(a, le) && Sorted(b, le)
    requires multiset(a) == multiset(b) && NoTies(a, le) && a != [] && b != []
    ensures a[0] == b[0]
  {
    assert a[0] in multiset(b) && b[0] in multiset(a);
    var i :| 0 <= i < |b| && b[i] == a[0];
    var j :| 0 <= j < |a| && a[j] == b[0];
    assert le(a[0], a[0]) && le(b[0], b[0]);
    assert le(a[0], a[j]) && le(b[0], b[i]);
  }

  /** Two sorted arrangements of the same elements without ties are the same sequence. */
  lemma {:induction false} SortedUnique<T(!new)>(a: seq<T>, b: seq<T>, le: (T, T) -> bool)
    requires Preorder(le) && Sorted(a, le) && Sorted(b, le)
    requires multiset(a) == multiset(b) && NoTies(a, le)
    ensures a == b
  {
    assert |a| == |multiset(a)| && |b| == |multiset(b)|;
    if a != [] {
      HeadsAgree(a, b, le);
      assert a == [a[0]] + a[1..] && b == [b[0]] + b[1..];
      assert multiset(a[1..]) == multiset(b[1..]) by {
        hide *;
        assert multiset(a[1..]) == multiset(a) - multiset{a[0]};
        assert multiset(b[1..]) == multiset(b) - multiset{b[0]};
      }
      assert Sorted(a[1..], le) && Sorted(b[1..], le);
      assert NoTies(a[1..], le) by {
        hide Preorder, Sorted;
        assert forall x :: x in a[1..] ==> x in a;
      }
      hide *;
      SortedUnique(a[1..], b[1..], le);
    }
  }

  /** Sorting forgets the order of the input when nothing ties. */
  lemma SortForgetsOrder<T(!new)>(a: seq<T>, b: seq<T>, le: (T, T) -> bool)
    requires Preorder(le) && multiset(a) == multiset(b) && NoTies(a, le)
    ensures Sort(a, le) == Sort(b, le)
  {
    SortContents(a, le);
    SortContents(b, le);
    SortSorted(a, le);
    SortSorted(b, le);
    SortMembers(a, le);
    SortedUnique(Sort(a, le), Sort(b, le), le);
  }

  // ---- Sorting by several string keys ----

  /** The comparison of key tuples, first difference deciding. */
  predicate LexLeq(le: (string, string) -> bool, a: seq<string>, b: seq<string>) {
    if a == [] || b == [] then a == []
    else if a[0] == b[0] then LexLeq(le, a[1..], b[1..])
    else le(a[0], b[0])
  }

  lemma {:induction false} LexTotal(le: (string, string) -> bool, a: seq<string>, b: seq<string>)
    requires TotalOrder(le)
    ensures LexLeq(le, a, b) || LexLeq(le, b, a)
    ensures LexLeq(le, a, b) && LexLeq(le, b, a) ==> a == b
  {
    if a != [] && b != [] && a[0] == b[0] {
      LexTotal(le, a[1..], b[1..]);
      assert a == [a[0]] + a[1..] && b == [b[0]] + b[1..];
    }
  }

  lemma {:induction false} LexTransitive(le: (string, string) -> bool, a: seq<string>, b: seq<string>, c: seq<string>)
    requires TotalOrder(le) && LexLeq(le, a, b) && LexLeq(le, b, c)
    ensures LexLeq(le, a, c)
  {
    if a != [] && b != [] && c != [] && a[0] == b[0] && b[0] == c[0] {
      LexTransitive(le, a[1..], b[1..], c[1..]);
    }
  }

  /** Sorting by a key tuple. */
  function ByKey<T>(le: (string, string) -> bool, key: T -> seq<string>): (T, T) -> bool {
    (x, y) => LexLeq(le, key(x), key(y))
  }

  lemma ByKeyIsPreorder<T(!new)>(le: (string, string) -> bool, key: T -> seq<string>)
    requires TotalOrder(le)
    ensures Preorder(ByKey(le, key))
  {
    var order := ByKey(le, key);
    forall x, y ensures order(x, y) || order(y, x) {
      LexTotal(le, key(x), key(y));
    }
    forall x, y, z | order(x, y) && order(y, z) ensures order(x, z) {
      LexTransitive(le, key(x), key(y), key(z));
    }
  }

  ghost predicate UniqueKeys<T(!new)>(s: seq<T>, key: T -> seq<string>) {
    forall x, y :: x in s && y in s && key(x) == key(y) ==> x == y
  }

  /** Sorting by unique keys forgets the order of the input. */
  lemma SortByUniqueKey<T(!new)>(le: (string, string) -> bool, key: T -> seq<string>, a: seq<T>, b: seq<T>)
    requires TotalOrder(le) && multiset(a) == multiset(b) && UniqueKeys(a, key)
    ensures Sort(a, ByKey(le, key)) == Sort(b, ByKey(le, key))
  {
    var order := ByKey(le, key);
    ByKeyIsPreorder(le, key);
    forall x, y | x in a && y in a && order(x, y) && order(y, x) ensures x == y {
      LexTotal(le, key(x), key(y));
    }
    SortForgetsOrder(a, b, order);
  }

  // ---- Sums ----

  function SumBy<T>(s: seq<T>, f: T -> real): real {
    if s == [] then 0.0 else SumBy(s[..|s| - 1], f) + f(s[|s| - 1])
  }

  lemma {:induction false} SumByAppend<T>(a: seq<T>, b: seq<T>, f: T -> real)
    ensures SumBy(a + b, f) == SumBy(a, f) + SumBy(b, f)
  {
    if b == [] {
      assert a + b == a;
    } else {
      assert (a + b)[..|a + b| - 1] == a + b[..|b| - 1];
      SumByAppend(a, b[..|b| - 1], f);
    }
  }

  lemma SumByRemove<T>(s: seq<T>, i: nat, f: T -> real)
    requires i < |s|
    ensures SumBy(s, f) == SumBy(s[..i] + s[i + 1..], f) + f(s[i])
  {
    var x := s[i];
    assert s == s[..i] + ([x] + s[i + 1..]);
    SumByAppend(s[..i], [x] + s[i + 1..], f);
    SumByAppend([x], s[i + 1..], f);
    SumByAppend(s[..i], s[i + 1..], f);
    assert SumBy([x], f) == f(x) by { assert [x][..0] == []; }
  }

  lemma MultisetRemove<T>(s: seq<T>, i: nat)
    requires i < |s|
    ensures multiset(s[..i] + s[i + 1..]) == multiset(s) - multiset{s[i]}
  {
    assert s == s[..i] + [s[i]] + s[i + 1..];
  }

  /** A sum does not depend on the order of its terms. */
  lemma {:induction false} SumByPermuted<T>(a: seq<T>, b: seq<T>, f: T -> real)
    requires multiset(a) == multiset(b)
    ensures SumBy(a, f) == SumBy(b, f)
    decreases |a|
  {
    assert |a| == |multiset(a)| && |b| == |multiset(b)|;
    if a != [] {
      var n := |a| - 1;
      assert a[n] in multiset(b);
      var i :| 0 <= i < |b| && b[i] == a[n];
      hide SumBy;
      MultisetRemove(a, n);
      MultisetRemove(b, i);
      SumByRemove(a, n, f);
      SumByRemove(b, i, f);
      SumByPermuted(a[..n] + a[n + 1..], b[..i] + b[i + 1..], f);
    }
  }
}
