/**
 What a classification does not depend on: the order of the rules, their ids and
 creation times, and every rule below the winner's precedence.
 */
module RuleInvariance {
  import opened Options
  import opened Locales
  import opened SliceTypes
  import opened Text
  import opened Orders
  import opened Classification

  /** The folder that an exact folder selector matches: the stored selector is normalised once more. */
  function FolderOf(text: TextOps, value: string): string {
    NormalizePath(text, NormalizeSelector(text, FolderPrefix, value))
  }

  /** The length of a folder selector that enters the precedence key. */
  function FolderMeasure(text: TextOps, value: string): nat {
    Utf16Length(NormalizePath(text, value))
  }

  /** The pattern that a rule matches with. */
  function PatternOf(text: TextOps, t: SelectorType, mode: MatchMode, value: string): string {
    if t == FolderPrefix && mode == Exact then FolderOf(text, value) else NormalizeSelector(text, t, value)
  }

  /** All of a rule that its selector, its precedence and its class depend on. */
  datatype Meaning = Meaning(selectorType: SelectorType, matchMode: MatchMode, pattern: string, key: Key,
                             classification: RuleClass, enabled: bool, tooLong: bool)

  function MeaningOf(text: TextOps, r: Rule): Meaning {
    Meaning(r.selectorType, r.matchMode, PatternOf(text, r.selectorType, r.matchMode, r.selectorValue), KeyOf(text, r),
            r.classification, r.enabled, TooLong(r.selectorValue))
  }

  /** What the enabled rules of a list mean; disabled rules decide nothing. */
  ghost function Meanings(text: TextOps, rules: seq<Rule>): set<Meaning> {
    set r | r in rules && r.enabled :: MeaningOf(text, r)
  }

  /** Classification and source, without ids. */
  datatype Verdict = Verdict(classification: Class, source: Source) | NoVerdict

  function VerdictOf(outcome: Outcome): Verdict {
    if outcome.Decided? then Verdict(outcome.decision.classification, outcome.decision.source) else NoVerdict
  }

  lemma MeaningApplies(text: TextOps, slice: Slice, a: Rule, b: Rule)
    requires MeaningOf(text, a) == MeaningOf(text, b)
    ensures Applies(text, slice, a) == Applies(text, slice, b)
  {
    hide NormalizeSelector, NormalizePath, KeyOf, TooLong;
    assert forall c :: PatternMatches(text, a.selectorType, a.selectorValue, a.matchMode, c) ==
                       PatternMatches(text, b.selectorType, b.selectorValue, b.matchMode, c);
  }

  lemma TopTransfers(text: TextOps, slice: Slice, xs: seq<Rule>, ys: seq<Rule>, r: Rule)
    requires Meanings(text, xs) == Meanings(text, ys) && r in Top(text, slice, xs)
    ensures r.classification in TopClasses(text, slice, ys)
  {
    var s := Twin(text, xs, ys, r);
    MeaningApplies(text, slice, r, s);
    forall q | q in ys && Applies(text, slice, q) ensures !Below(KeyOf(text, s), KeyOf(text, q)) {
      var p := Twin(text, ys, xs, q);
      MeaningApplies(text, slice, q, p);
      assert MeaningOf(text, p).key == KeyOf(text, q) && MeaningOf(text, s).key == KeyOf(text, r);
    }
    hide Applies, KeyOf, Below;
    assert s in Top(text, slice, ys);
    assert MeaningOf(text, s).classification == r.classification;
  }

  lemma Twin(text: TextOps, xs: seq<Rule>, ys: seq<Rule>, r: Rule) returns (s: Rule)
    requires Meanings(text, xs) == Meanings(text, ys) && r in xs && r.enabled
    ensures s in ys && s.enabled && MeaningOf(text, s) == MeaningOf(text, r)
  {
    assert MeaningOf(text, r) in Meanings(text, ys);
    s :| s in ys && s.enabled && MeaningOf(text, s) == MeaningOf(text, r);
  }

  lemma SameTopClasses(text: TextOps, slice: Slice, xs: seq<Rule>, ys: seq<Rule>)
    requires Meanings(text, xs) == Meanings(text, ys)
    ensures TopClasses(text, slice, xs) == TopClasses(text, slice, ys)
  {
    hide Meanings;
    forall c | c in TopClasses(text, slice, xs) ensures c in TopClasses(text, slice, ys) {
      var r :| r in Top(text, slice, xs) && r.classification == c;
      TopTransfers(text, slice, xs, ys, r);
    }
    forall c | c in TopClasses(text, slice, ys) ensures c in TopClasses(text, slice, xs) {
      var r :| r in Top(text, slice, ys) && r.classification == c;
      TopTransfers(text, slice, ys, xs, r);
    }
  }

  lemma SameTooLong(text: TextOps, xs: seq<Rule>, ys: seq<Rule>)
    requires Meanings(text, xs) == Meanings(text, ys)
    ensures AnyTooLong(xs) ==> AnyTooLong(ys)
  {
    if i :| 0 <= i < |xs| && xs[i].enabled && TooLong(xs[i].selectorValue) {
      var s := Twin(text, xs, ys, xs[i]);
      assert MeaningOf(text, s).tooLong && MeaningOf(text, s).enabled;
      var j :| 0 <= j < |ys| && ys[j] == s;
    }
  }

  lemma VerdictFromTop(l: Locale, slice: Slice, rules: seq<Rule>)
    requires Lawful(l) && slice.kind == EntitySlice && !AnyTooLong(rules)
    ensures var classes := TopClasses(l.text, slice, rules);
            VerdictOf(Classify(l, slice, rules, None)) ==
            if classes == {} then Verdict(Unclassified, Default)
            else if classes == {Work} then Verdict(Work, FromRule)
            else if classes == {Personal} then Verdict(Personal, FromRule)
            else Verdict(Unclassified, Ambiguous)
  {
    ClassifyIsDeclarative(l, slice, rules);
    hide Classify, Top, Lawful, AnyTooLong, TieBefore;
    var d := Classify(l, slice, rules, None).decision;
    if d.source == Default {
      assert TopClasses(l.text, slice, rules) == {};
    } else if r :| r in Top(l.text, slice, rules) {
      assert r.classification in TopClasses(l.text, slice, rules);
    }
    assert d.source == FromOverride ==> false by { ReadsNoOverride(l, slice, rules); }
  }

  lemma ReadsNoOverride(l: Locale, slice: Slice, rules: seq<Rule>)
    ensures Classify(l, slice, rules, None).Decided? ==> Classify(l, slice, rules, None).decision.source != FromOverride
  {
  }

  /** Rule lists with the same meanings classify every slice alike, whatever their order, ids and creation times. */
  lemma OrderAndTimeIrrelevant(l: Locale, slice: Slice, xs: seq<Rule>, ys: seq<Rule>, override: Option<Class>)
    requires Lawful(l) && Meanings(l.text, xs) == Meanings(l.text, ys)
    ensures VerdictOf(Classify(l, slice, xs, override)) == VerdictOf(Classify(l, slice, ys, override))
  {
    if override.None? && slice.kind == EntitySlice {
      SameTooLong(l.text, xs, ys);
      SameTooLong(l.text, ys, xs);
      hide AnyTooLong, Meanings, Lawful, TopClasses;
      if !AnyTooLong(xs) {
        SameTopClasses(l.text, slice, xs, ys);
        VerdictFromTop(l, slice, xs);
        VerdictFromTop(l, slice, ys);
      }
    }
  }

  ghost predicate DistinctIds(rules: seq<Rule>) {
    forall i, j :: 0 <= i < j < |rules| ==> rules[i].id != rules[j].id
  }

  lemma PermutedTooLong(xs: seq<Rule>, ys: seq<Rule>)
    requires multiset(xs) == multiset(ys)
    ensures AnyTooLong(xs) ==> AnyTooLong(ys)
  {
    hide TooLong;
    if i :| 0 <= i < |xs| && xs[i].enabled && TooLong(xs[i].selectorValue) {
      assert xs[i] in multiset(ys);
      var j :| 0 <= j < |ys| && ys[j] == xs[i];
    }
  }

  lemma PermutedMatching(l: Locale, slice: Slice, xs: seq<Rule>, ys: seq<Rule>)
    requires Lawful(l) && multiset(xs) == multiset(ys) && DistinctIds(xs)
    ensures multiset(Matching(l.text, slice, xs)) == multiset(Matching(l.text, slice, ys))
    ensures NoTies(Matching(l.text, slice, xs), RuleOrder(l))
  {
    MatchingContents(l.text, slice, xs);
    MatchingContents(l.text, slice, ys);
    MatchingMembers(l.text, slice, xs);
    hide Applies, Matching, Lawful;
    DistinctIdsDoNotTie(l, Matching(l.text, slice, xs));
  }

  /** With distinct ids the whole decision, winner and competing ids included, ignores the order of the list. */
  lemma PermutedRulesSameDecision(l: Locale, slice: Slice, xs: seq<Rule>, ys: seq<Rule>, override: Option<Class>)
    requires Lawful(l) && multiset(xs) == multiset(ys) && DistinctIds(xs)
    ensures Classify(l, slice, xs, override) == Classify(l, slice, ys, override)
  {
    hide Matching, AnyTooLong, Decide, Lawful, DistinctIds, NoTies, Preorder, RuleOrder, Sort;
    PermutedTooLong(xs, ys);
    PermutedTooLong(ys, xs);
    PermutedMatching(l, slice, xs, ys);
    RuleOrderIsPreorder(l);
    SortForgetsOrder(Matching(l.text, slice, xs), Matching(l.text, slice, ys), RuleOrder(l));
  }

  lemma {:induction false} MatchingContents(text: TextOps, slice: Slice, rules: seq<Rule>)
    ensures forall r :: multiset(Matching(text, slice, rules))[r] ==
                        if Applies(text, slice, r) then multiset(rules)[r] else 0
  {
    if rules != [] {
      MatchingContents(text, slice, rules[1..]);
      assert rules == [rules[0]] + rules[1..];
      assert multiset(rules) == multiset{rules[0]} + multiset(rules[1..]);
      hide Applies;
    }
  }

  // ---- Rules below the winner ----

  /** The sub-list of rules that decide: those of greatest key among the enabled matching ones. */
  ghost function Deciding(text: TextOps, slice: Slice, rules: seq<Rule>, key: Key): seq<Rule> {
    if rules == [] then []
    else (if Applies(text, slice, rules[0]) && KeyOf(text, rules[0]) == key then [rules[0]] else [])
         + Deciding(text, slice, rules[1..], key)
  }

  lemma {:induction false} MatchingOfDeciding(text: TextOps, slice: Slice, rules: seq<Rule>, key: Key)
    ensures Matching(text, slice, Deciding(text, slice, rules, key)) == Deciding(text, slice, rules, key)
    ensures Deciding(text, slice, rules, key) == WithKey(text, Matching(text, slice, rules), key)
  {
    if rules != [] {
      MatchingOfDeciding(text, slice, rules[1..], key);
      var rest := Deciding(text, slice, rules[1..], key);
      hide Applies, KeyOf;
      assert ([rules[0]] + rest)[1..] == rest;
      assert [] + rest == rest;
      var matching := Matching(text, slice, rules[1..]);
      assert [] + matching == matching && ([rules[0]] + matching)[1..] == matching;
    }
  }

  lemma {:induction false} WithKeyTwice(text: TextOps, rules: seq<Rule>, key: Key)
    ensures WithKey(text, WithKey(text, rules, key), key) == WithKey(text, rules, key)
  {
    if rules != [] {
      WithKeyTwice(text, rules[1..], key);
      hide KeyOf;
      var rest := WithKey(text, rules[1..], key);
      assert ([rules[0]] + rest)[1..] == rest && [] + rest == rest;
    }
  }

  /** Keeping only one key commutes with inserting into a sorted list. */
  lemma {:induction false} InsertWithKey(l: Locale, x: Rule, s: seq<Rule>, key: Key)
    requires Preorder(RuleOrder(l)) && Sorted(s, RuleOrder(l))
    ensures WithKey(l.text, Insert(x, s, RuleOrder(l)), key) ==
            if KeyOf(l.text, x) == key then Insert(x, WithKey(l.text, s, key), RuleOrder(l))
                else WithKey(l.text, s, key)
  {
    var le := RuleOrder(l);
    var kept := WithKey(l.text, s, key);
    if s == [] || le(x, s[0]) {
      assert ([x] + s)[1..] == s;
      WithKeyMembers(l.text, s, key);
      hide KeyOf, Preorder;
      if kept != [] {
        assert kept[0] in s;
        var i :| 0 <= i < |s| && s[i] == kept[0];
        assert le(x, s[i]) by { BelowFirst(le, x, s, i); }
      }
    } else {
      InsertWithKey(l, x, s[1..], key);
      var inner := Insert(x, s[1..], le);
      assert ([s[0]] + inner)[1..] == inner;
      hide KeyOf, Preorder, RuleOrder;
      var rest := WithKey(l.text, s[1..], key);
      assert ([s[0]] + rest)[1..] == rest && [] + rest == rest;
    }
  }

  lemma BelowFirst<T(!new)>(le: (T, T) -> bool, x: T, s: seq<T>, i: nat)
    requires Preorder(le) && Sorted(s, le) && i < |s| && le(x, s[0])
    ensures le(x, s[i])
  {
    if i > 0 { assert le(s[0], s[i]); }
  }

  lemma {:induction false} SortWithKey(l: Locale, s: seq<Rule>, key: Key)
    requires Preorder(RuleOrder(l))
    ensures WithKey(l.text, Sort(s, RuleOrder(l)), key) == Sort(WithKey(l.text, s, key), RuleOrder(l))
  {
    if s != [] {
      SortWithKey(l, s[1..], key);
      SortSorted(s[1..], RuleOrder(l));
      InsertWithKey(l, s[0], Sort(s[1..], RuleOrder(l)), key);
      hide KeyOf, Preorder, RuleOrder, Sorted;
      var rest := WithKey(l.text, s[1..], key);
      assert ([s[0]] + rest)[1..] == rest && [] + rest == rest;
    }
  }

  /** Removing every rule below the winner's key leaves the whole decision unchanged. */
  lemma LowerRulesIrrelevant(l: Locale, slice: Slice, rules: seq<Rule>, top: Rule)
    requires Lawful(l) && slice.kind == EntitySlice && !AnyTooLong(rules)
    requires top in Top(l.text, slice, rules)
    ensures Classify(l, slice, rules, None) ==
            Classify(l, slice, Deciding(l.text, slice, rules, KeyOf(l.text, top)), None)
  {
    var key := KeyOf(l.text, top);
    var matching := Matching(l.text, slice, rules);
    var le := RuleOrder(l);
    var deciding := Deciding(l.text, slice, rules, key);
    RuleOrderIsPreorder(l);
    MatchingOfDeciding(l.text, slice, rules, key);
    SortWithKey(l, matching, key);
    FirstIsTop(l, slice, rules);
    DecidingIsShortEnough(l.text, slice, rules, key);
    var sorted := Sort(matching, le);
    hide KeyOf, Preorder, RuleOrder, Sorted, Top, Lawful, Applies, TieBefore, AnyTooLong, Matching, Sort;
    assert sorted != [];
    assert KeyOf(l.text, sorted[0]) == key by { WithKeyMembers(l.text, sorted, KeyOf(l.text, sorted[0])); }
    DecideIgnoresOthers(l, sorted);
  }

  lemma DecideIgnoresOthers(l: Locale, sorted: seq<Rule>)
    requires sorted != []
    ensures Decide(l, sorted) == Decide(l, WithKey(l.text, sorted, KeyOf(l.text, sorted[0])))
  {
    var key := KeyOf(l.text, sorted[0]);
    WithKeyTwice(l.text, sorted, key);
    var tied := WithKey(l.text, sorted, key);
    hide KeyOf;
    assert tied[0] == sorted[0];
  }

  lemma DecidingIsShortEnough(text: TextOps, slice: Slice, rules: seq<Rule>, key: Key)
    requires !AnyTooLong(rules)
    ensures !AnyTooLong(Deciding(text, slice, rules, key))
  {
    MatchingOfDeciding(text, slice, rules, key);
    MatchingMembers(text, slice, rules);
    WithKeyMembers(text, Matching(text, slice, rules), key);
    var deciding := Deciding(text, slice, rules, key);
    hide Applies, KeyOf, Matching, WithKey, TooLong, Deciding;
    forall i | 0 <= i < |deciding| ensures !(deciding[i].enabled && TooLong(deciding[i].selectorValue)) {
      assert deciding[i] in rules;
    }
  }

  // ---- Exact folder rules ----

  lemma FolderIsPrefix(text: TextOps, slice: Slice, r: Rule)
    requires r.selectorType == FolderPrefix && r.matchMode == Exact && Applies(text, slice, r)
    ensures FolderOf(text, r.selectorValue) <= NormalizePath(text, slice.entity)
  {
    hide NormalizePath, NormalizeSelector;
  }

  lemma FolderKeys(text: TextOps, a: Rule, b: Rule)
    requires a.selectorType == FolderPrefix && b.selectorType == FolderPrefix && a.matchMode == Exact
             && b.matchMode == Exact
    ensures KeyOf(text, a) == KeyOf(text, b) <==>
            a.priority == b.priority && FolderMeasure(text, a.selectorValue) == FolderMeasure(text, b.selectorValue)
  {
    hide NormalizePath;
  }

  /**
   Two exact folder rules of one priority that match the same slice tie exactly when they match the same folder, if
   and only if the lengths in their keys agree just when the lengths of their folders do.
   */
  lemma FolderTieIff(text: TextOps, slice: Slice, a: Rule, b: Rule)
    requires a.selectorType == FolderPrefix && b.selectorType == FolderPrefix && a.matchMode == Exact
             && b.matchMode == Exact
    requires a.priority == b.priority && Applies(text, slice, a) && Applies(text, slice, b)
    ensures var v, w := a.selectorValue, b.selectorValue;
            (KeyOf(text, a) == KeyOf(text, b) <==> FolderOf(text, v) == FolderOf(text, w)) <==>
            (FolderMeasure(text, v) == FolderMeasure(text, w) <==>
             Utf16Length(FolderOf(text, v)) == Utf16Length(FolderOf(text, w)))
  {
    FolderIsPrefix(text, slice, a);
    FolderIsPrefix(text, slice, b);
    FolderKeys(text, a, b);
    var f, g := FolderOf(text, a.selectorValue), FolderOf(text, b.selectorValue);
    hide NormalizePath, Applies, FolderOf, FolderMeasure, KeyOf, Utf16Length;
    if Utf16Length(f) == Utf16Length(g) {
      EqualPrefixes(f, g, NormalizePath(text, slice.entity));
    }
  }

  /** The key measures the folder that is matched. */
  predicate MeasuresItsFolder(text: TextOps, value: string) {
    FolderMeasure(text, value) == Utf16Length(FolderOf(text, value))
  }

  /** Selectors that measure the folder they match tie exactly on the same folder. */
  lemma MeasuredRulesTieOnSameFolder(text: TextOps, slice: Slice, a: Rule, b: Rule)
    requires a.selectorType == FolderPrefix && b.selectorType == FolderPrefix && a.matchMode == Exact
             && b.matchMode == Exact
    requires MeasuresItsFolder(text, a.selectorValue) && MeasuresItsFolder(text, b.selectorValue)
    requires a.priority == b.priority && Applies(text, slice, a) && Applies(text, slice, b)
    ensures KeyOf(text, a) == KeyOf(text, b) <==> FolderOf(text, a.selectorValue) == FolderOf(text, b.selectorValue)
  {
    FolderTieIff(text, slice, a, b);
    hide FolderOf, FolderMeasure, KeyOf, Applies;
  }

  /** The stored selector is already what both normalisations make of it. */
  predicate FolderInNormalForm(text: TextOps, value: string) {
    NormalizePath(text, value) == value && NormalizeSelector(text, FolderPrefix, value) == value
  }

  /** In particular for selectors in normal form, whose folder is the selector itself. */
  lemma FolderRulesTieOnSameFolder(text: TextOps, slice: Slice, a: Rule, b: Rule)
    requires a.selectorType == FolderPrefix && b.selectorType == FolderPrefix && a.matchMode == Exact
             && b.matchMode == Exact
    requires FolderInNormalForm(text, a.selectorValue) && FolderInNormalForm(text, b.selectorValue)
    requires a.priority == b.priority && Applies(text, slice, a) && Applies(text, slice, b)
    ensures KeyOf(text, a) == KeyOf(text, b) <==> a.selectorValue == b.selectorValue
  {
    MeasuredRulesTieOnSameFolder(text, slice, a, b);
    hide NormalizePath, NormalizeSelector, KeyOf, Applies;
  }

  /** Text operations that leave every string as it is. */
  const PLAIN := TextOps(s => s, s => s)

  function FolderRule(value: string, c: RuleClass): Rule {
    Rule(value, FolderPrefix, value, Exact, 0, "", c, true)
  }

  /**
   The condition can fail: the selector "/a/ /", which is what "/a/ //" is stored as, matches as "/a" but counts
   four characters, so it ties with the narrower folder "/a/b".
   */
  lemma DifferentFoldersMayTie()
    ensures var slice := Slice(None, File, "/a/b/c", [], [], EntitySlice);
            var a, b := FolderRule("/a/ /", Work), FolderRule("/a/b", Personal);
            && NormalizeSelector(PLAIN, FolderPrefix, "/a/ //") == a.selectorValue
            && Applies(PLAIN, slice, a) && Applies(PLAIN, slice, b) && KeyOf(PLAIN, a) == KeyOf(PLAIN, b)
            && FolderOf(PLAIN, a.selectorValue) == "/a" && FolderOf(PLAIN, b.selectorValue) == "/a/b"
  {
    FoldersOfExample();
    hide NormalizePath, NormalizeSelector, Trim;
    assert Utf16Length("/a/ ") == 4 && Utf16Length("/a/b") == 4;
    assert "/a" + "/" <= "/a/b/c" && "/a/b" + "/" <= "/a/b/c";
  }

  lemma FoldersOfExample()
    ensures NormalizePath(PLAIN, "/a/ /") == "/a/ " && NormalizePath(PLAIN, "/a/b") == "/a/b"
            && NormalizePath(PLAIN, "/a/b/c") == "/a/b/c"
    ensures NormalizePath(PLAIN, "/a/ ") == "/a"
    ensures NormalizeSelector(PLAIN, FolderPrefix, "/a/ //") == "/a/ /"
    ensures NormalizeSelector(PLAIN, FolderPrefix, "/a/ /") == "/a/ "
            && NormalizeSelector(PLAIN, FolderPrefix, "/a/b") == "/a/b"
  {
    NormalizePlain("/a/ //");
    NormalizePlain("/a/ /");
    NormalizePlain("/a/b");
    NormalizePlain("/a/b/c");
    assert Trim("/a/ ") == "/a/" by { TrimEndsAt("/a/", " "); }
    assert NormalizePath(PLAIN, "/a/ ") == "/a";
    hide NormalizePath, Trim;
  }

  lemma TrimEndsAt(s: string, space: string)
    requires s != "" && !IsSpace(s[0]) && !IsSpace(s[|s| - 1])
    requires |space| <= 1 && forall c :: c in space ==> IsSpace(c)
    ensures Trim(s + space) == s
  {
    assert TrimStart(s + space) == s + space;
    if space == "" {
      assert s + space == s;
    } else {
      assert (s + space)[..|s + space| - 1] == s;
      assert TrimEnd(s) == s;
    }
  }

  lemma NormalizePlain(s: string)
    requires |s| > 1 && s[0] == '/' && !IsSpace(s[|s| - 1]) && '\\' !in s
    ensures Trim(s) == s
    ensures NormalizePath(PLAIN, s) == StripSlash(s)
  {
    TrimEndsAt(s, "");
    assert s + "" == s;
    assert ForwardSlashes(s) == s;
  }
}
