/**
 Rule matching, rule precedence and the classification of one slice of recorded time.
 The decision sorts the matching rules and looks for ties; the module's declarative
 reading speaks only about the set of rules with the greatest precedence key.
 */
module Classification {
  import opened Options
  import opened Locales
  import opened SliceTypes
  import opened Text
  import opened Glob
  import opened GlobCompiler
  import opened Orders

  datatype SelectorType = Machine | Editor | Application | DomainName | Project | FolderPrefix | Entity
  datatype MatchMode = Exact | GlobMode
  datatype Class = Work | Personal | Unclassified
  type RuleClass = c: Class | c != Unclassified witness Work

  datatype Rule = Rule(id: string, selectorType: SelectorType, selectorValue: string, matchMode: MatchMode,
                       priority: int, createdAt: string, classification: RuleClass, enabled: bool)

  datatype Slice = Slice(project: Option<string>, entityType: EntityType, entity: string,
                         machineIds: seq<string>, editors: seq<string>, kind: SliceKind)

  datatype Source = FromOverride | FromRule | Ambiguous | Default
  datatype Decision = Decision(classification: Class, source: Source, winner: Option<string>, competing: seq<string>)

  /** classifySlice throws when an enabled rule's pattern is over the length limit. */
  datatype Outcome = Decided(decision: Decision) | PatternTooLong

  const MAX_PATTERN_LENGTH := 500

  function Specificity(t: SelectorType): int {
    match t
    case Project => 40
    case FolderPrefix => 50
    case Entity => 60
    case _ => 10
  }

  function NormalizeSelector(text: TextOps, t: SelectorType, value: string): string {
    var trimmed := text.nfc(Trim(value));
    match t
    case FolderPrefix => NormalizePath(text, trimmed)
    case Entity => NormalizePath(text, trimmed)
    case Project => trimmed
    case _ => text.lower(trimmed)
  }

  predicate FolderMatches(text: TextOps, entity: string, prefix: string) {
    var e, p := NormalizePath(text, entity), NormalizePath(text, prefix);
    e == p || p + "/" <= e
  }

  predicate TooLong(value: string) {
    Utf16Length(value) > MAX_PATTERN_LENGTH
  }

  function LowerTokens(text: TextOps, tokens: seq<Token>): seq<Token> {
    seq(|tokens|, i requires 0 <= i < |tokens| =>
      if tokens[i].Literal? then Literal(text.lower(tokens[i].value)) else tokens[i])
  }

  /** What the compiled pattern answers for a candidate. */
  predicate PatternMatches(text: TextOps, t: SelectorType, value: string, mode: MatchMode, candidate: string) {
    var pattern, subject := NormalizeSelector(text, t, value), NormalizeSelector(text, t, candidate);
    if mode == Exact then
      if t == FolderPrefix then FolderMatches(text, candidate, pattern) else subject == pattern
    else
      var tokens := Compiled(pattern);
      Accepts(if (t == FolderPrefix || t == Entity) && IsDrivePath(subject) then LowerTokens(text, tokens)
          else tokens, subject)
  }

  /** compilePattern followed by one test, run with the compiling scan and the iterative matcher. */
  method TestPattern(text: TextOps, t: SelectorType, value: string, mode: MatchMode, candidate: string)
    returns (r: Option<bool>)
    ensures r == if TooLong(value) then None else Some(PatternMatches(text, t, value, mode, candidate))
  {
    if Utf16Length(value) > MAX_PATTERN_LENGTH {
      return None;
    }
    var pattern, subject := NormalizeSelector(text, t, value), NormalizeSelector(text, t, candidate);
    if mode == Exact {
      return Some(if t == FolderPrefix then FolderMatches(text, candidate, pattern) else subject == pattern);
    }
    var tokens, _ := CompileGlob(pattern);
    var lowered := (t == FolderPrefix || t == Entity) && IsDrivePath(subject);
    var matched, _ := MatchGlobTokens(if lowered then LowerTokens(text, tokens) else tokens, subject);
    r := Some(matched);
  }

  predicate RuleMatches(text: TextOps, rule: Rule, slice: Slice) {
    && slice.kind == EntitySlice
    && match rule.selectorType
       case Machine => exists m | m in slice.machineIds ::
           PatternMatches(text, Machine, rule.selectorValue, rule.matchMode, m)
       case Editor => exists e | e in slice.editors ::
           PatternMatches(text, Editor, rule.selectorValue, rule.matchMode, e)
       case Application =>
           slice.entityType == App && PatternMatches(text, Application, rule.selectorValue, rule.matchMode,
           slice.entity)
       case DomainName =>
           slice.entityType == Domain && PatternMatches(text, DomainName, rule.selectorValue, rule.matchMode,
           slice.entity)
       case Project =>
           slice.project.Some? && PatternMatches(text, Project, rule.selectorValue, rule.matchMode, slice.project.value)
       case FolderPrefix =>
           slice.entityType == File && PatternMatches(text, FolderPrefix, rule.selectorValue, rule.matchMode,
           slice.entity)
       case Entity => PatternMatches(text, Entity, rule.selectorValue, rule.matchMode, slice.entity)
  }

  // ---- Precedence ----

  datatype Key = Key(priority: int, specificity: int, modeRank: int, modeSpecificity: int)

  function KeyOf(text: TextOps, rule: Rule): Key {
    Key(rule.priority, Specificity(rule.selectorType), if rule.matchMode == Exact then 1 else 0,
        if rule.matchMode == GlobMode then
          LiteralChars(Compiled(NormalizeSelector(text, rule.selectorType, rule.selectorValue)))
        else if rule.selectorType == FolderPrefix then Utf16Length(NormalizePath(text, rule.selectorValue))
        else 0)
  }

  predicate Below(a: Key, b: Key) {
    || a.priority < b.priority
    || (a.priority == b.priority &&
        (a.specificity < b.specificity
         || (a.specificity == b.specificity &&
             (a.modeRank < b.modeRank
              || (a.modeRank == b.modeRank && a.modeSpecificity < b.modeSpecificity)))))
  }

  /** The stable order of rules with the same key: creation time, id, selector value. */
  predicate TieBefore(l: Locale, a: Rule, b: Rule) {
    if a.createdAt != b.createdAt then l.collate(a.createdAt, b.createdAt)
    else if a.id != b.id then l.collate(a.id, b.id)
    else a.selectorValue == b.selectorValue || l.collate(a.selectorValue, b.selectorValue)
  }

  /** compareRulePrecedence(a, b) <= 0. */
  predicate Precedes(l: Locale, a: Rule, b: Rule) {
    var ka, kb := KeyOf(l.text, a), KeyOf(l.text, b);
    if ka != kb then Below(kb, ka) else TieBefore(l, a, b)
  }

  function RuleOrder(l: Locale): (Rule, Rule) -> bool {
    (a, b) => Precedes(l, a, b)
  }

  lemma TieBeforeIsPreorder(l: Locale)
    requires Lawful(l)
    ensures forall a, b :: TieBefore(l, a, b) || TieBefore(l, b, a)
    ensures forall a, b, c :: TieBefore(l, a, b) && TieBefore(l, b, c) ==> TieBefore(l, a, c)
  {
  }

  lemma BelowIsStrictOrder()
    ensures forall a, b :: Below(a, b) || Below(b, a) || a == b
    ensures forall a, b :: Below(a, b) ==> !Below(b, a) && a != b
    ensures forall a, b, c :: Below(a, b) && Below(b, c) ==> Below(a, c)
  {
  }

  lemma RuleOrderIsPreorder(l: Locale)
    requires Lawful(l)
    ensures Preorder(RuleOrder(l))
  {
    TieBeforeIsPreorder(l);
    BelowIsStrictOrder();
    hide KeyOf, Below, TieBefore, Lawful;
    var le := RuleOrder(l);
    assert forall a, b :: le(a, b) == Precedes(l, a, b);
    assert forall a, b, c :: Precedes(l, a, b) && Precedes(l, b, c) ==> Precedes(l, a, c);
  }

  lemma DistinctIdsDoNotTie(l: Locale, rules: seq<Rule>)
    requires Lawful(l)
    requires forall a, b :: a in rules && b in rules && a.id == b.id ==> a == b
    ensures NoTies(rules, RuleOrder(l))
  {
    BelowIsStrictOrder();
    hide KeyOf, Below;
  }

  // ---- The decision ----

  predicate Applies(text: TextOps, slice: Slice, rule: Rule) {
    rule.enabled && RuleMatches(text, rule, slice)
  }

  function Matching(text: TextOps, slice: Slice, rules: seq<Rule>): seq<Rule> {
    if rules == [] then []
    else (if Applies(text, slice, rules[0]) then [rules[0]] else []) + Matching(text, slice, rules[1..])
  }

  /** The rules that tie with the given key, in list order. */
  function WithKey(text: TextOps, rules: seq<Rule>, key: Key): seq<Rule> {
    if rules == [] then []
    else (if KeyOf(text, rules[0]) == key then [rules[0]] else []) + WithKey(text, rules[1..], key)
  }

  function Ids(rules: seq<Rule>): seq<string> {
    seq(|rules|, i requires 0 <= i < |rules| => rules[i].id)
  }

  const NO_DECISION := Decision(Unclassified, Default, None, [])

  /** The decision once the sorted list of matching rules is known. */
  function Decide(l: Locale, sorted: seq<Rule>): Decision {
    if sorted == [] then NO_DECISION
    else
      var tied := WithKey(l.text, sorted, KeyOf(l.text, sorted[0]));
      if exists i | 0 <= i < |tied| :: tied[i].classification != sorted[0].classification then
        Decision(Unclassified, Ambiguous, None, Sort(Ids(tied), l.ordinal))
      else
        Decision(sorted[0].classification, FromRule, Some(sorted[0].id), [])
  }

  predicate AnyTooLong(rules: seq<Rule>) {
    exists i | 0 <= i < |rules| :: rules[i].enabled && TooLong(rules[i].selectorValue)
  }

  /** classifySlice. */
  function Classify(l: Locale, slice: Slice, rules: seq<Rule>, override: Option<Class>): Outcome {
    if override.Some? then Decided(Decision(override.value, FromOverride, None, []))
    else if slice.kind != EntitySlice then Decided(NO_DECISION)
    else if AnyTooLong(rules) then PatternTooLong
    else Decided(Decide(l, Sort(Matching(l.text, slice, rules), RuleOrder(l))))
  }

  // ---- The declarative reading ----

  /** The rules of greatest key among the enabled matching ones. */
  ghost function Top(text: TextOps, slice: Slice, rules: seq<Rule>): set<Rule> {
    set r | r in rules && Applies(text, slice, r)
            && forall q :: q in rules && Applies(text, slice, q) ==> !Below(KeyOf(text, r), KeyOf(text, q))
  }

  ghost function TopClasses(text: TextOps, slice: Slice, rules: seq<Rule>): set<Class> {
    set r | r in Top(text, slice, rules) :: r.classification
  }

  lemma {:induction false} MatchingMembers(text: TextOps, slice: Slice, rules: seq<Rule>)
    ensures forall r :: r in Matching(text, slice, rules) <==> r in rules && Applies(text, slice, r)
  {
    if rules != [] { MatchingMembers(text, slice, rules[1..]); }
  }

  lemma {:induction false} WithKeyMembers(text: TextOps, rules: seq<Rule>, key: Key)
    ensures forall r :: r in WithKey(text, rules, key) <==> r in rules && KeyOf(text, r) == key
  {
    if rules != [] { WithKeyMembers(text, rules[1..], key); }
  }

  lemma FirstPrecedesAll(l: Locale, slice: Slice, rules: seq<Rule>)
    requires Lawful(l)
    ensures var sorted := Sort(Matching(l.text, slice, rules), RuleOrder(l));
            && (forall r :: r in sorted <==> r in rules && Applies(l.text, slice, r))
            && (sorted != [] ==> forall r :: r in sorted ==> Precedes(l, sorted[0], r))
  {
    var matching := Matching(l.text, slice, rules);
    var sorted := Sort(matching, RuleOrder(l));
    RuleOrderIsPreorder(l);
    SortSorted(matching, RuleOrder(l));
    SortMembers(matching, RuleOrder(l));
    MatchingMembers(l.text, slice, rules);
    if sorted != [] {
      forall r | r in sorted ensures Precedes(l, sorted[0], r) {
        hide KeyOf, Below, TieBefore, Applies, Matching, Sort, Lawful, Precedes;
        var i :| 0 <= i < |sorted| && sorted[i] == r;
        assert RuleOrder(l)(sorted[0], sorted[i]);
      }
    }
  }

  /** The sorted matching rules start with a rule of greatest key. */
  lemma FirstIsTop(l: Locale, slice: Slice, rules: seq<Rule>)
    requires Lawful(l)
    ensures var sorted := Sort(Matching(l.text, slice, rules), RuleOrder(l));
            && (sorted == [] <==> Top(l.text, slice, rules) == {})
            && (sorted != [] ==> forall r :: r in Top(l.text, slice, rules) <==>
                                             r in WithKey(l.text, sorted, KeyOf(l.text, sorted[0])))
            && (sorted != [] ==> sorted[0] in Top(l.text, slice, rules)
                                 && forall r :: r in Top(l.text, slice, rules) ==> TieBefore(l, sorted[0], r))
  {
    var sorted := Sort(Matching(l.text, slice, rules), RuleOrder(l));
    FirstPrecedesAll(l, slice, rules);
    BelowIsStrictOrder();
    hide KeyOf, Below, TieBefore, Applies, Matching, Sort, Lawful, WithKey;
    if sorted != [] {
      var first := sorted[0];
      WithKeyMembers(l.text, sorted, KeyOf(l.text, first));
      assert Precedes(l, first, first);
      assert first in sorted;
      assert first in Top(l.text, slice, rules);
    } else {
      assert Top(l.text, slice, rules) == {};
    }
  }

  ghost function ClassesOf(rules: set<Rule>): set<Class> {
    set r | r in rules :: r.classification
  }

  /** What the sorted list decides, said of the set of rules that tie with its head. */
  lemma DecideIs(l: Locale, sorted: seq<Rule>, top: set<Rule>)
    requires sorted != [] && sorted[0] in top && forall r ::
             r in top <==> r in WithKey(l.text, sorted, KeyOf(l.text, sorted[0]))
    ensures var d, classes := Decide(l, sorted), ClassesOf(top);
            && (d.source == FromRule || d.source == Ambiguous)
            && (d.source == FromRule ==>
               classes == {d.classification} && d.winner == Some(sorted[0].id) && d.competing == [])
            && (d.source == Ambiguous ==>
               classes == {Work, Personal} && d.classification == Unclassified && d.winner == None)
            && (d.source == Ambiguous ==> forall id :: id in d.competing <==> exists r :: r in top && r.id == id)
  {
    var tied := WithKey(l.text, sorted, KeyOf(l.text, sorted[0]));
    hide WithKey, KeyOf;
    var first := sorted[0];
    if i :| 0 <= i < |tied| && tied[i].classification != first.classification {
      assert tied[i] in top;
      SortMembers(Ids(tied), l.ordinal);
      CompetingIds(tied, top);
      assert ClassesOf(top) == {first.classification, tied[i].classification};
    } else {
      forall c | c in ClassesOf(top) ensures c == first.classification {
        var r :| r in top && r.classification == c;
        assert r in tied;
      }
      assert ClassesOf(top) == {first.classification};
    }
  }

  /**
   The decision without an override is the declarative one: the rules of greatest key decide
   if they are unanimous and conflict otherwise; the winner is the oldest of them.
   */
  lemma ClassifyIsDeclarative(l: Locale, slice: Slice, rules: seq<Rule>)
    requires Lawful(l) && slice.kind == EntitySlice && !AnyTooLong(rules)
    ensures var d := Classify(l, slice, rules, None).decision;
            var top := Top(l.text, slice, rules);
            var classes := TopClasses(l.text, slice, rules);
            && (d.source == Default <==> top == {})
            && (d.source == FromRule <==> exists c :: classes == {c})
            && (d.source == Ambiguous <==> classes == {Work, Personal})
            && (d.source == FromRule ==> classes == {d.classification}
                                         && exists w :: w in top && d.winner == Some(w.id) && forall r :: r in top ==>
                                            TieBefore(l, w, r))
            && (d.source != FromRule ==> d.classification == Unclassified && d.winner == None)
            && (forall id :: id in d.competing <==> d.source == Ambiguous && exists r :: r in top && r.id == id)
  {
    FirstIsTop(l, slice, rules);
    var sorted := Sort(Matching(l.text, slice, rules), RuleOrder(l));
    var top := Top(l.text, slice, rules);
    hide KeyOf, Below, TieBefore, Applies, Matching, Top, Lawful, AnyTooLong, WithKey, RuleOrder, Sort;
    assert Classify(l, slice, rules, None) == Decided(Decide(l, sorted));
    assert TopClasses(l.text, slice, rules) == ClassesOf(top);
    if sorted == [] {
      assert ClassesOf(top) == {};
    } else {
      DecideIs(l, sorted, top);
      hide Decide, ClassesOf;
    }
  }

  lemma CompetingIds(tied: seq<Rule>, top: set<Rule>)
    requires forall r :: r in top <==> r in tied
    ensures forall id :: id in Ids(tied) <==> exists r :: r in top && r.id == id
  {
    forall r | r in top ensures r.id in Ids(tied) {
      var i :| 0 <= i < |tied| && tied[i] == r;
      assert Ids(tied)[i] == r.id;
    }
    forall id | id in Ids(tied) ensures exists r :: r in top && r.id == id {
      var i :| 0 <= i < |tied| && Ids(tied)[i] == id;
      assert tied[i] in top;
    }
  }
}
