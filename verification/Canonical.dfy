/** Canonical dependency lists and heartbeat payloads. */
module Canonical {
  import opened Text
  import opened Orders
  import opened Locales

  function Normal(l: Locale, d: string): string {
    l.text.nfc(Trim(d))
  }

  /** The nonempty normal forms, each once, in the order of their first occurrence. */
  function Uniques(l: Locale, ds: seq<string>): seq<string> {
    if ds == [] then []
    else
      var before, d := Uniques(l, ds[..|ds| - 1]), Normal(l, ds[|ds| - 1]);
      if d == "" || d in before then before else before + [d]
  }

  function Canonicalized(l: Locale, ds: seq<string>): seq<string> {
    Sort(Uniques(l, ds), l.ordinal)
  }

  function MeaningOf(l: Locale, ds: seq<string>): set<string> {
    set d | d in ds && Normal(l, d) != "" :: Normal(l, d)
  }

  ghost predicate NoRepeats(s: seq<string>) {
    forall i, j :: 0 <= i < j < |s| ==> s[i] != s[j]
  }

  method CanonicalizeDependencies(l: Locale, ds: seq<string>) returns (r: seq<string>)
    ensures r == Canonicalized(l, ds)
    ensures TotalOrder(l.ordinal) ==>
              Sorted(r, l.ordinal) && |r| == |MeaningOf(l, ds)| && forall d :: d in r <==> d in MeaningOf(l, ds)
  {
    var unique: seq<string> := [];
    assert ds[..0] == [];
    hide Normal;
    for i := 0 to |ds|
      invariant unique == Uniques(l, ds[..i])
    {
      assert ds[..i + 1][..i] == ds[..i];
      var d := Normal(l, ds[i]);
      if |d| > 0 && d !in unique { unique := unique + [d]; }
    }
    assert ds[..|ds|] == ds;
    r := Sort(unique, l.ordinal);
    if TotalOrder(l.ordinal) { CanonicalIsOrderedSet(l, ds); }
    hide *;
  }

  lemma {:induction false} UniquesAre(l: Locale, ds: seq<string>)
    ensures NoRepeats(Uniques(l, ds))
    ensures forall d :: d in Uniques(l, ds) <==> d in MeaningOf(l, ds)
  {
    hide Normal;
    if ds != [] {
      var n := |ds| - 1;
      UniquesAre(l, ds[..n]);
      assert ds == ds[..n] + [ds[n]];
      var d := Normal(l, ds[n]);
      assert MeaningOf(l, ds) == MeaningOf(l, ds[..n]) + if d == "" then {} else {d};
    }
  }

  /** Sorted, without repetition or empty entry, and exactly the nonempty normal forms. */
  lemma CanonicalIsOrderedSet(l: Locale, ds: seq<string>)
    requires TotalOrder(l.ordinal)
    ensures var r := Canonicalized(l, ds);
            Sorted(r, l.ordinal) && |r| == |MeaningOf(l, ds)| && forall d :: d in r <==> d in MeaningOf(l, ds)
  {
    var u := Uniques(l, ds);
    UniquesAre(l, ds);
    SortSorted(u, l.ordinal);
    SortMembers(u, l.ordinal);
    CountOf(u);
    hide Sort, Uniques;
    assert (set d | d in u) == MeaningOf(l, ds);
  }

  lemma {:induction false} CountOf(s: seq<string>)
    requires NoRepeats(s)
    ensures |(set d | d in s)| == |s|
  {
    if s == [] {
      assert (set d | d in s) == {};
    } else {
      var n := |s| - 1;
      assert NoRepeats(s[..n]);
      CountOf(s[..n]);
      assert s == s[..n] + [s[n]];
      assert forall i :: 0 <= i < n ==> s[..n][i] == s[i] != s[n];
      assert (set d | d in s) == (set d | d in s[..n]) + {s[n]};
    }
  }

  lemma {:induction false} OnceEach(s: seq<string>, x: string)
    requires NoRepeats(s)
    ensures multiset(s)[x] == if x in s then 1 else 0
  {
    if s != [] {
      var n := |s| - 1;
      assert NoRepeats(s[..n]);
      OnceEach(s[..n], x);
      assert s == s[..n] + [s[n]];
      assert forall i :: 0 <= i < n ==> s[..n][i] == s[i] != s[n];
    }
  }

  /**
   Reordering or repeating dependencies, or spelling them differently before normalisation, is all that goes
   unnoticed.
   */
  lemma SameCanonicalIff(l: Locale, a: seq<string>, b: seq<string>)
    requires TotalOrder(l.ordinal)
    ensures Canonicalized(l, a) == Canonicalized(l, b) <==> MeaningOf(l, a) == MeaningOf(l, b)
  {
    var u, v := Uniques(l, a), Uniques(l, b);
    UniquesAre(l, a);
    UniquesAre(l, b);
    SortMembers(u, l.ordinal);
    SortMembers(v, l.ordinal);
    hide Uniques, MeaningOf;
    if MeaningOf(l, a) == MeaningOf(l, b) {
      forall x ensures multiset(u)[x] == multiset(v)[x] {
        OnceEach(u, x);
        OnceEach(v, x);
      }
      assert multiset(u) == multiset(v);
      SortForgetsOrder(u, v, l.ordinal);
    }
    if Canonicalized(l, a) == Canonicalized(l, b) {
      assert forall d :: d in u <==> d in v;
      assert MeaningOf(l, a) == MeaningOf(l, b);
    }
  }

  // ---- Heartbeats ----

  /** All source fields but the dependencies, losslessly, and the dependencies as they came. */
  datatype Beat = Beat(id: string, fields: string, dependencies: seq<string>)

  /** The canonical payload, which stands for its hash. */
  datatype Payload = Payload(id: string, fields: string, dependencies: seq<string>)

  function PayloadOf(l: Locale, b: Beat): Payload {
    Payload(b.id, b.fields, Canonicalized(l, b.dependencies))
  }

  /** Two occurrences of an id conflict exactly when a field differs or the sets of dependencies differ. */
  lemma ConflictIff(l: Locale, a: Beat, b: Beat)
    requires TotalOrder(l.ordinal) && a.id == b.id
    ensures PayloadOf(l, a) != PayloadOf(l, b)
            <==> a.fields != b.fields || MeaningOf(l, a.dependencies) != MeaningOf(l, b.dependencies)
  {
    SameCanonicalIff(l, a.dependencies, b.dependencies);
    hide Canonicalized, MeaningOf;
  }
}
