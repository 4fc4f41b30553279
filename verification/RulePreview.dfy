/**
 The dry run of a rule change and the change itself: previewRuleChange and the
 createRule / updateRule / deleteRule transactions over a table of rules.
 */
module RulePreview {
  import opened Options
  import opened Locales
  import opened Text
  import opened Orders
  import opened Classification
  import opened RuleInvariance

  /** A recorded slice with its manual allocation, as loadSlicesWithContext returns it. */
  datatype StoredSlice = StoredSlice(id: nat, date: string, seconds: real, isUnattributed: bool, slice: Slice,
                                     allocation: Option<RuleClass>)

  datatype Body = Body(classification: RuleClass, selectorType: SelectorType, selectorValue: string,
                       matchMode: MatchMode, priority: int, enabled: bool)

  datatype Patch = Patch(classification: Option<RuleClass>, selectorType: Option<SelectorType>,
                         selectorValue: Option<string>,
                         matchMode: Option<MatchMode>, priority: Option<int>, enabled: Option<bool>)

  datatype Change = Create(id: string, body: Body) | Update(id: string, patch: Patch) | Delete(id: string)

  /** A validated change with a normalised selector value. */
  datatype Operation = Insertion(id: string, body: Body) | Revision(id: string, body: Body) | Removal(id: string)

  function FindRule(rules: seq<Rule>, id: string): Option<Rule> {
    if rules == [] then None else if rules[0].id == id then Some(rules[0]) else FindRule(rules[1..], id)
  }

  /** The stored selector value, or None where the source rejects the input. */
  function StoredValue(text: TextOps, t: SelectorType, value: string): Option<string> {
    if Trim(value) == "" || TooLong(value) || NormalizeSelector(text, t, value) == "" then None
    else Some(NormalizeSelector(text, t, value))
  }

  /** The folder selector of DifferentFoldersMayTie comes out of validation. */
  lemma TyingFolderIsStored()
    ensures StoredValue(PLAIN, FolderPrefix, "/a/ //") == Some("/a/ /")
  {
    DifferentFoldersMayTie();
    NormalizePlain("/a/ //");
    hide NormalizeSelector;
  }

  /** normalizeRuleOperation. */
  function NormalizeOperation(text: TextOps, rules: seq<Rule>, change: Change): Option<Operation> {
    match change
    case Create(id, body) =>
      var value := StoredValue(text, body.selectorType, body.selectorValue);
      if value.None? then None else Some(Insertion(id, body.(selectorValue := value.value)))
    case Update(id, patch) =>
      var existing := FindRule(rules, id);
      if existing.None? then None
      else
        var current := existing.value;
        var t := Or(patch.selectorType, current.selectorType);
        var value := if patch.selectorValue.Some? then StoredValue(text, t, patch.selectorValue.value)
            else Some(current.selectorValue);
        if value.None? then None
        else Some(Revision(id, Body(Or(patch.classification, current.classification), t, value.value,
                                    Or(patch.matchMode, current.matchMode), Or(patch.priority, current.priority),
                                    Or(patch.enabled, current.enabled))))
    case Delete(id) => if FindRule(rules, id).None? then None else Some(Removal(id))
  }

  function RuleFrom(id: string, body: Body, createdAt: string): Rule {
    Rule(id, body.selectorType, body.selectorValue, body.matchMode, body.priority, createdAt, body.classification,
        body.enabled)
  }

  function Replaced(rules: seq<Rule>, id: string, body: Body): seq<Rule> {
    seq(|rules|, i requires 0 <= i < |rules| =>
      if rules[i].id == id then RuleFrom(id, body, rules[i].createdAt) else rules[i])
  }

  function Without(rules: seq<Rule>, id: string): seq<Rule> {
    if rules == [] then [] else (if rules[0].id == id then [] else [rules[0]]) + Without(rules[1..], id)
  }

  /** The rule list that the preview classifies with. */
  function Proposed(rules: seq<Rule>, op: Operation, now: string): seq<Rule> {
    match op
    case Insertion(id, body) => [RuleFrom(id, body, now)] + rules
    case Revision(id, body) => Replaced(rules, id, body)
    case Removal(id) => Without(rules, id)
  }

  /** The table rows that the transaction leaves behind. */
  function Committed(rows: seq<Rule>, op: Operation, now: string): seq<Rule> {
    match op
    case Insertion(id, body) => rows + [RuleFrom(id, body, now)]
    case Revision(id, body) => Replaced(rows, id, body)
    case Removal(id) => Without(rows, id)
  }

  /** ORDER BY priority DESC, created_at ASC, id ASC. */
  function SqlOrder(l: Locale): (Rule, Rule) -> bool {
    (a: Rule, b: Rule) =>
      if a.priority != b.priority then a.priority > b.priority
      else if a.createdAt != b.createdAt then l.ordinal(a.createdAt, b.createdAt)
      else l.ordinal(a.id, b.id)
  }

  function Listed(l: Locale, rows: seq<Rule>): seq<Rule> {
    Sort(rows, SqlOrder(l))
  }

  // ---- Exactness of the preview ----

  /** Everything the state digest hashes: every rule column but the creation time, the allocations and the slices. */
  datatype Digest = Digest(revision: nat, rules: set<Rule>, slices: seq<StoredSlice>, op: Operation)

  function Timeless(r: Rule): Rule {
    r.(createdAt := "")
  }

  function DigestOf(revision: nat, rows: seq<Rule>, slices: seq<StoredSlice>, op: Operation): Digest {
    Digest(revision, set r | r in rows :: Timeless(r), slices, op)
  }

  ghost function TimelessRows(rows: seq<Rule>): set<Rule> {
    set r | r in rows :: Timeless(r)
  }

  lemma TimelessMeaning(text: TextOps, a: Rule, b: Rule)
    requires Timeless(a) == Timeless(b)
    ensures MeaningOf(text, a) == MeaningOf(text, b)
  {
    assert a.(createdAt := b.createdAt) == b;
  }

  lemma TimelessMeanings(text: TextOps, xs: seq<Rule>, ys: seq<Rule>)
    requires TimelessRows(xs) == TimelessRows(ys)
    ensures Meanings(text, xs) <= Meanings(text, ys)
  {
    forall m | m in Meanings(text, xs) ensures m in Meanings(text, ys) {
      var r :| r in xs && r.enabled && MeaningOf(text, r) == m;
      assert Timeless(r) in TimelessRows(ys);
      var s :| s in ys && Timeless(s) == Timeless(r);
      TimelessMeaning(text, r, s);
      assert s.enabled by { assert Timeless(s).enabled == s.enabled && Timeless(r).enabled == r.enabled; }
      hide MeaningOf;
    }
  }

  lemma {:induction false} WithoutMembers(rules: seq<Rule>, id: string)
    ensures forall r :: r in Without(rules, id) <==> r in rules && r.id != id
  {
    if rules != [] { WithoutMembers(rules[1..], id); }
  }

  lemma ReplacedMembers(rules: seq<Rule>, id: string, body: Body)
    ensures forall r :: r in Replaced(rules, id, body) <==>
                        exists q :: q in rules && r == if q.id == id then RuleFrom(id, body, q.createdAt) else q
  {
    var replaced := Replaced(rules, id, body);
    forall q | q in rules ensures (if q.id == id then RuleFrom(id, body, q.createdAt) else q) in replaced {
      var i :| 0 <= i < |rules| && rules[i] == q;
      assert replaced[i] == if q.id == id then RuleFrom(id, body, q.createdAt) else q;
    }
    forall r | r in replaced ensures exists q ::
        q in rules && r == if q.id == id then RuleFrom(id, body, q.createdAt) else q {
      var i :| 0 <= i < |replaced| && replaced[i] == r;
      assert rules[i] in rules;
    }
  }

  /** The proposed list and the committed rows hold the same rules up to creation times. */
  lemma ProposalIsCommitted(before: seq<Rule>, rows: seq<Rule>, op: Operation, now: string, now': string)
    requires TimelessRows(before) == TimelessRows(rows)
    ensures TimelessRows(Proposed(before, op, now)) <= TimelessRows(Committed(rows, op, now'))
    ensures TimelessRows(Committed(rows, op, now')) <= TimelessRows(Proposed(before, op, now))
  {
    match op
    case Insertion(id, body) =>
      assert Timeless(RuleFrom(id, body, now)) == Timeless(RuleFrom(id, body, now'));
      var p, c := Proposed(before, op, now), Committed(rows, op, now');
      assert forall r :: r in p <==> r == RuleFrom(id, body, now) || r in before;
      assert forall r :: r in c <==> r == RuleFrom(id, body, now') || r in rows;
      InsertedTimeless(before, p, RuleFrom(id, body, now));
      InsertedTimeless(rows, c, RuleFrom(id, body, now'));
    case Revision(id, body) =>
      ReplacedTimeless(before, rows, id, body);
      ReplacedTimeless(rows, before, id, body);
    case Removal(id) =>
      WithoutTimeless(before, rows, id);
      WithoutTimeless(rows, before, id);
  }

  lemma InsertedTimeless(rows: seq<Rule>, all: seq<Rule>, extra: Rule)
    requires forall r :: r in all <==> r == extra || r in rows
    ensures TimelessRows(all) == TimelessRows(rows) + {Timeless(extra)}
  {
  }

  lemma ReplacedTimeless(xs: seq<Rule>, ys: seq<Rule>, id: string, body: Body)
    requires TimelessRows(xs) == TimelessRows(ys)
    ensures TimelessRows(Replaced(xs, id, body)) <= TimelessRows(Replaced(ys, id, body))
  {
    ReplacedMembers(xs, id, body);
    ReplacedMembers(ys, id, body);
    forall t | t in TimelessRows(Replaced(xs, id, body)) ensures t in TimelessRows(Replaced(ys, id, body)) {
      var r :| r in Replaced(xs, id, body) && Timeless(r) == t;
      var q :| q in xs && r == if q.id == id then RuleFrom(id, body, q.createdAt) else q;
      assert Timeless(q) in TimelessRows(ys);
      var p :| p in ys && Timeless(p) == Timeless(q);
      assert p.(createdAt := q.createdAt) == q;
      var r' := if p.id == id then RuleFrom(id, body, p.createdAt) else p;
      assert r' in Replaced(ys, id, body) && Timeless(r') == t;
    }
  }

  lemma WithoutTimeless(xs: seq<Rule>, ys: seq<Rule>, id: string)
    requires TimelessRows(xs) == TimelessRows(ys)
    ensures TimelessRows(Without(xs, id)) <= TimelessRows(Without(ys, id))
  {
    WithoutMembers(xs, id);
    WithoutMembers(ys, id);
    forall t | t in TimelessRows(Without(xs, id)) ensures t in TimelessRows(Without(ys, id)) {
      var r :| r in Without(xs, id) && Timeless(r) == t;
      assert Timeless(r) in TimelessRows(ys);
      var s :| s in ys && Timeless(s) == t;
      assert s.id == Timeless(s).id && r.id == Timeless(r).id;
    }
  }

  lemma ListedTimeless(l: Locale, rows: seq<Rule>)
    ensures TimelessRows(Listed(l, rows)) == TimelessRows(rows)
  {
    SortMembers(rows, SqlOrder(l));
  }

  /**
   The preview is exact: whenever a later commit accepts the preview's digest, the classes and sources it
   predicted for every slice are those under the committed rules, although list order and timestamps differ.
   */
  lemma PreviewIsExact(l: Locale, slice: Slice, override: Option<Class>, revision: nat, revision': nat,
                       previewed: seq<Rule>, rows: seq<Rule>, slices: seq<StoredSlice>, slices': seq<StoredSlice>,
                       op: Operation, now: string, now': string)
    requires Lawful(l)
    requires DigestOf(revision, previewed, slices, op) == DigestOf(revision', rows, slices', op)
    ensures VerdictOf(Classify(l, slice, Proposed(Listed(l, previewed), op, now), override)) ==
            VerdictOf(Classify(l, slice, Listed(l, Committed(rows, op, now')), override))
  {
    assert TimelessRows(previewed) == TimelessRows(rows);
    ListedTimeless(l, previewed);
    var proposed, committed := Proposed(Listed(l, previewed), op, now), Committed(rows, op, now');
    ProposalIsCommitted(Listed(l, previewed), rows, op, now, now');
    ListedTimeless(l, committed);
    var listed := Listed(l, committed);
    hide *;
    assert TimelessRows(proposed) == TimelessRows(listed);
    TimelessMeanings(l.text, proposed, listed);
    TimelessMeanings(l.text, listed, proposed);
    OrderAndTimeIrrelevant(l, slice, proposed, listed, override);
  }

  // ---- The preview's counters ----

  function OverrideOf(s: StoredSlice): Option<Class> {
    if s.allocation.Some? then Some(s.allocation.value) else None
  }

  function DecisionFor(l: Locale, rules: seq<Rule>, s: StoredSlice, override: Option<Class>): Decision {
    var outcome := Classify(l, s.slice, rules, override);
    if outcome.Decided? then outcome.decision else NO_DECISION
  }

  function ClassFor(l: Locale, rules: seq<Rule>, s: StoredSlice): Class {
    DecisionFor(l, rules, s, OverrideOf(s)).classification
  }

  /** Seconds of the slices that move from one class to another. */
  ghost function Flow(l: Locale, slices: seq<StoredSlice>, before: seq<Rule>, after: seq<Rule>, from: Class,
                      to: Class): real {
    if slices == [] then 0.0
    else
      var s := slices[|slices| - 1];
      Flow(l, slices[..|slices| - 1], before, after, from, to)
      + if !s.isUnattributed && ClassFor(l, before, s) == from && ClassFor(l, after, s) == to then s.seconds else 0.0
  }

  /** Seconds of the slices in one class. */
  ghost function SecondsIn(l: Locale, slices: seq<StoredSlice>, rules: seq<Rule>, c: Class): real {
    if slices == [] then 0.0
    else
      var s := slices[|slices| - 1];
      SecondsIn(l, slices[..|slices| - 1], rules, c)
      + if !s.isUnattributed && ClassFor(l, rules, s) == c then s.seconds else 0.0
  }

  /** Every second stays in its class or flows to another one. */
  lemma {:induction false} SecondsSplit(l: Locale, slices: seq<StoredSlice>, before: seq<Rule>,
                                        after: seq<Rule>, c: Class)
    ensures SecondsIn(l, slices, before, c) ==
            Flow(l, slices, before, after, c, Work) + Flow(l, slices, before, after, c, Personal)
                + Flow(l, slices, before, after, c, Unclassified)
    ensures SecondsIn(l, slices, after, c) ==
            Flow(l, slices, before, after, Work, c) + Flow(l, slices, before, after, Personal, c)
                + Flow(l, slices, before, after, Unclassified, c)
  {
    if slices != [] {
      SecondsSplit(l, slices[..|slices| - 1], before, after, c);
      hide ClassFor;
    }
  }

  /** One bucket of the six flows. */
  datatype Flows = Flows(workToPersonal: real, workToUnclassified: real, personalToWork: real,
                         personalToUnclassified: real, unclassifiedToWork: real, unclassifiedToPersonal: real)

  datatype Net = Net(work: real, personal: real, unclassified: real)

  ghost predicate AreFlows(f: Flows, l: Locale, slices: seq<StoredSlice>, before: seq<Rule>, after: seq<Rule>) {
    && f.workToPersonal == Flow(l, slices, before, after, Work, Personal)
    && f.workToUnclassified == Flow(l, slices, before, after, Work, Unclassified)
    && f.personalToWork == Flow(l, slices, before, after, Personal, Work)
    && f.personalToUnclassified == Flow(l, slices, before, after, Personal, Unclassified)
    && f.unclassifiedToWork == Flow(l, slices, before, after, Unclassified, Work)
    && f.unclassifiedToPersonal == Flow(l, slices, before, after, Unclassified, Personal)
  }

  ghost predicate IsNet(n: Net, f: Flows) {
    && n.work == f.personalToWork + f.unclassifiedToWork - f.workToPersonal - f.workToUnclassified
    && n.personal == f.workToPersonal + f.unclassifiedToPersonal - f.personalToWork - f.personalToUnclassified
    && n.unclassified == f.workToUnclassified
       + f.personalToUnclassified - f.unclassifiedToWork - f.unclassifiedToPersonal
  }

  function TotalOf(f: Flows): real {
    f.workToPersonal + f.workToUnclassified + f.personalToWork + f.personalToUnclassified + f.unclassifiedToWork
        + f.unclassifiedToPersonal
  }

  /** The three net shifts cancel, and each is the class's seconds after the change minus those before. */
  lemma NetIsDifference(l: Locale, slices: seq<StoredSlice>, before: seq<Rule>, after: seq<Rule>, f: Flows, n: Net)
    requires AreFlows(f, l, slices, before, after) && IsNet(n, f)
    ensures n.work + n.personal + n.unclassified == 0.0
    ensures n.work == SecondsIn(l, slices, after, Work) - SecondsIn(l, slices, before, Work)
    ensures n.personal == SecondsIn(l, slices, after, Personal) - SecondsIn(l, slices, before, Personal)
    ensures n.unclassified == SecondsIn(l, slices, after, Unclassified) - SecondsIn(l, slices, before, Unclassified)
  {
    SecondsSplit(l, slices, before, after, Work);
    SecondsSplit(l, slices, before, after, Personal);
    SecondsSplit(l, slices, before, after, Unclassified);
  }

  /** The facts about a slice that the preview counts. */
  datatype Fact = ClassChanged | SourceChanged | BecameAmbiguous | CeasedAmbiguous | MatchedBefore | MatchedAfter

  predicate Holds(l: Locale, fact: Fact, s: StoredSlice, before: seq<Rule>, after: seq<Rule>) {
    var b, a := DecisionFor(l, before, s, OverrideOf(s)), DecisionFor(l, after, s, OverrideOf(s));
    var br, ar := DecisionFor(l, before, s, None), DecisionFor(l, after, s, None);
    && !s.isUnattributed
    && match fact
       case ClassChanged => b.classification != a.classification
       case SourceChanged => b.source != a.source || b.winner != a.winner
       case BecameAmbiguous => b.source != Ambiguous && a.source == Ambiguous
       case CeasedAmbiguous => b.source == Ambiguous && a.source != Ambiguous
       case MatchedBefore => br.source == FromRule || br.source == Ambiguous
       case MatchedAfter => ar.source == FromRule || ar.source == Ambiguous
  }

  ghost function Count(l: Locale, fact: Fact, slices: seq<StoredSlice>, before: seq<Rule>, after: seq<Rule>): nat {
    if slices == [] then 0
    else
      Count(l, fact, slices[..|slices| - 1], before, after)
      + if Holds(l, fact, slices[|slices| - 1], before, after) then 1 else 0
  }

  datatype Counts = Counts(changed: nat, sourceChanged: nat, toAmbiguous: nat, fromAmbiguous: nat, matchedBefore: nat,
                           matchedAfter: nat)

  ghost predicate AreCounts(c: Counts, l: Locale, slices: seq<StoredSlice>, before: seq<Rule>, after: seq<Rule>) {
    && c.changed == Count(l, ClassChanged, slices, before, after)
    && c.sourceChanged == Count(l, SourceChanged, slices, before, after)
    && c.toAmbiguous == Count(l, BecameAmbiguous, slices, before, after)
    && c.fromAmbiguous == Count(l, CeasedAmbiguous, slices, before, after)
    && c.matchedBefore == Count(l, MatchedBefore, slices, before, after)
    && c.matchedAfter == Count(l, MatchedAfter, slices, before, after)
  }

  /** The tally is rounded for display. */
  datatype Preview = Preview(digest: Digest, tally: Tally)

  /** Some slice's classification throws because a pattern is too long. */
  predicate Throws(l: Locale, rules: seq<Rule>, slices: seq<StoredSlice>) {
    exists i | 0 <= i < |slices| :: ThrowsOn(l, rules, slices[i])
  }

  /** A slice with an allocation is classified without it too. */
  predicate ThrowsOn(l: Locale, rules: seq<Rule>, s: StoredSlice) {
    !s.isUnattributed && Classify(l, s.slice, rules, None) == PatternTooLong
  }

  function FlowsWith(f: Flows, before: Class, after: Class, seconds: real): Flows
    requires before != after
  {
    match (before, after)
    case (Work, Personal) => f.(workToPersonal := f.workToPersonal + seconds)
    case (Work, _) => f.(workToUnclassified := f.workToUnclassified + seconds)
    case (Personal, Work) => f.(personalToWork := f.personalToWork + seconds)
    case (Personal, _) => f.(personalToUnclassified := f.personalToUnclassified + seconds)
    case (Unclassified, Work) => f.(unclassifiedToWork := f.unclassifiedToWork + seconds)
    case (Unclassified, _) => f.(unclassifiedToPersonal := f.unclassifiedToPersonal + seconds)
  }

  method AddFlow(f: Flows, n: Net, before: Class, after: Class, seconds: real) returns (f': Flows, n': Net)
    requires before != after && IsNet(n, f)
    ensures IsNet(n', f') && TotalOf(f') == TotalOf(f) + seconds
    ensures f' == FlowsWith(f, before, after, seconds)
  {
    f', n' := f, n;
    if before == Work { n' := n'.(work := n'.work - seconds); }
    else if before == Personal { n' := n'.(personal := n'.personal - seconds); }
    else { n' := n'.(unclassified := n'.unclassified - seconds); }
    if after == Work { n' := n'.(work := n'.work + seconds); }
    else if after == Personal { n' := n'.(personal := n'.personal + seconds); }
    else { n' := n'.(unclassified := n'.unclassified + seconds); }
    if before == Work && after == Personal { f' := f.(workToPersonal := f.workToPersonal + seconds); }
    else if before == Work && after == Unclassified { f' := f.(workToUnclassified := f.workToUnclassified + seconds); }
    else if before == Personal && after == Work { f' := f.(personalToWork := f.personalToWork + seconds); }
    else if before == Personal && after == Unclassified {
      f' := f.(personalToUnclassified := f.personalToUnclassified + seconds);
    }
    else if before == Unclassified && after == Work { f' := f.(unclassifiedToWork := f.unclassifiedToWork + seconds); }
    else if before == Unclassified && after == Personal {
      f' := f.(unclassifiedToPersonal := f.unclassifiedToPersonal + seconds);
    }
  }

  /** Extending a prefix of the slices by one slice. */
  lemma FlowsStep(f: Flows, f': Flows, l: Locale, slices: seq<StoredSlice>, i: nat, before: seq<Rule>, after: seq<Rule>)
    requires i < |slices| && AreFlows(f, l, slices[..i], before, after)
    requires var s := slices[i];
             var b, a := ClassFor(l, before, s), ClassFor(l, after, s);
             f' == if s.isUnattributed || b == a then f else FlowsWith(f, b, a, s.seconds)
    ensures AreFlows(f', l, slices[..i + 1], before, after)
  {
    hide ClassFor;
    assert slices[..i + 1][..i] == slices[..i];
  }

  ghost function CountsWith(c: Counts, l: Locale, s: StoredSlice, before: seq<Rule>, after: seq<Rule>): Counts {
    Counts(c.changed + (if Holds(l, ClassChanged, s, before, after) then 1 else 0),
           c.sourceChanged + (if Holds(l, SourceChanged, s, before, after) then 1 else 0),
           c.toAmbiguous + (if Holds(l, BecameAmbiguous, s, before, after) then 1 else 0),
           c.fromAmbiguous + (if Holds(l, CeasedAmbiguous, s, before, after) then 1 else 0),
           c.matchedBefore + (if Holds(l, MatchedBefore, s, before, after) then 1 else 0),
           c.matchedAfter + (if Holds(l, MatchedAfter, s, before, after) then 1 else 0))
  }

  lemma CountsStep(c: Counts, c': Counts, l: Locale, slices: seq<StoredSlice>, i: nat, before: seq<Rule>,
                   after: seq<Rule>)
    requires i < |slices| && AreCounts(c, l, slices[..i], before, after)
    requires c' == CountsWith(c, l, slices[i], before, after)
    ensures AreCounts(c', l, slices[..i + 1], before, after)
  {
    hide Holds;
    assert slices[..i + 1][..i] == slices[..i];
  }

  /** One slice's contribution to the counters. */
  method CountSlice(l: Locale, c: Counts, s: StoredSlice, before: seq<Rule>, after: seq<Rule>, b: Decision,
                    a: Decision) returns (c': Counts)
    requires !s.isUnattributed
    requires b == DecisionFor(l, before, s, OverrideOf(s)) && a == DecisionFor(l, after, s, OverrideOf(s))
    ensures c' == CountsWith(c, l, s, before, after)
  {
    hide DecisionFor;
    c' := c;
    var beforeRule := if s.allocation.Some? then DecisionFor(l, before, s, None) else b;
    var afterRule := if s.allocation.Some? then DecisionFor(l, after, s, None) else a;
    if beforeRule.source == FromRule || beforeRule.source == Ambiguous {
      c' := c'.(matchedBefore := c'.matchedBefore + 1);
    }
    if afterRule.source == FromRule || afterRule.source == Ambiguous { c' := c'.(matchedAfter := c'.matchedAfter + 1); }
    if b.classification != a.classification { c' := c'.(changed := c'.changed + 1); }
    if b.source != a.source || b.winner != a.winner { c' := c'.(sourceChanged := c'.sourceChanged + 1); }
    if b.source != Ambiguous && a.source == Ambiguous { c' := c'.(toAmbiguous := c'.toAmbiguous + 1); }
    else if b.source == Ambiguous && a.source != Ambiguous { c' := c'.(fromAmbiguous := c'.fromAmbiguous + 1); }
  }

  /** A changed slice with its decisions, as the preview shows it. */
  datatype Sample = Sample(slice: StoredSlice, before: Decision, after: Decision)

  const MAX_SAMPLES := 5

  ghost predicate ShownChange(l: Locale, s: StoredSlice, before: seq<Rule>, after: seq<Rule>) {
    Holds(l, ClassChanged, s, before, after) || Holds(l, SourceChanged, s, before, after)
  }

  ghost function ChangedSlices(l: Locale, slices: seq<StoredSlice>, before: seq<Rule>, after: seq<Rule>): seq<Sample> {
    if slices == [] then []
    else
      var s := slices[|slices| - 1];
      ChangedSlices(l, slices[..|slices| - 1], before, after)
      + if ShownChange(l, s, before, after)
          then [Sample(s, DecisionFor(l, before, s, OverrideOf(s)), DecisionFor(l, after, s, OverrideOf(s)))] else []
  }

  function FirstSamples(all: seq<Sample>): seq<Sample> {
    if |all| <= MAX_SAMPLES then all else all[..MAX_SAMPLES]
  }

  lemma SamplesStep(l: Locale, slices: seq<StoredSlice>, i: nat, before: seq<Rule>, after: seq<Rule>)
    requires i < |slices|
    ensures var s, shown := slices[i], FirstSamples(ChangedSlices(l, slices[..i], before, after));
            FirstSamples(ChangedSlices(l, slices[..i + 1], before, after)) ==
            if ShownChange(l, s, before, after) && |shown| < MAX_SAMPLES
            then shown + [Sample(s, DecisionFor(l, before, s, OverrideOf(s)),
                DecisionFor(l, after, s, OverrideOf(s)))] else shown
  {
    hide ShownChange, DecisionFor;
    assert slices[..i + 1][..i] == slices[..i];
  }

  datatype Tally = Tally(flows: Flows, totalShifted: real, net: Net, counts: Counts, affectedDates: set<string>,
                         samples: seq<Sample>)

  ghost function AffectedDates(l: Locale, slices: seq<StoredSlice>, before: seq<Rule>, after: seq<Rule>): set<string> {
    set s | s in slices && Holds(l, ClassChanged, s, before, after) :: s.date
  }

  ghost predicate IsTally(t: Tally, l: Locale, slices: seq<StoredSlice>, before: seq<Rule>, after: seq<Rule>) {
    && AreFlows(t.flows, l, slices, before, after)
    && IsNet(t.net, t.flows)
    && t.totalShifted == TotalOf(t.flows)
    && AreCounts(t.counts, l, slices, before, after)
    && t.affectedDates == AffectedDates(l, slices, before, after)
    && t.samples == FirstSamples(ChangedSlices(l, slices, before, after))
  }

  // ---- Rounding for display ----

  /** Number.EPSILON. */
  const EPSILON: real := 1.0 / 4503599627370496.0

  /** Math.round, which rounds halves up. */
  function Round(x: real): int {
    (x + 0.5).Floor
  }

  /** roundSeconds: four decimal places. */
  function RoundSeconds(x: real): real {
    Round((x + EPSILON) * 10000.0) as real / 10000.0
  }

  function RoundFlows(f: Flows): Flows {
    Flows(RoundSeconds(f.workToPersonal), RoundSeconds(f.workToUnclassified), RoundSeconds(f.personalToWork),
          RoundSeconds(f.personalToUnclassified), RoundSeconds(f.unclassifiedToWork),
              RoundSeconds(f.unclassifiedToPersonal))
  }

  function RoundNet(n: Net): Net {
    Net(RoundSeconds(n.work), RoundSeconds(n.personal), RoundSeconds(n.unclassified))
  }

  /** What the preview returns of a tally. */
  function Displayed(t: Tally): Tally {
    t.(flows := RoundFlows(t.flows), totalShifted := RoundSeconds(t.totalShifted), net := RoundNet(t.net))
  }

  /**
   A displayed value is the multiple of 0.0001 nearest to one that is greater by 2 to the power of -52, ties going
   up.
   */
  lemma RoundingIsNearest(x: real)
    ensures (RoundSeconds(x) * 10000.0).Floor as real == RoundSeconds(x) * 10000.0
    ensures -0.00005 < RoundSeconds(x) - (x + 1.0 / 4503599627370496.0) <= 0.00005
  {
    var y := (x + EPSILON) * 10000.0;
    assert y + 0.5 - 1.0 < Round(y) as real <= y + 0.5;
  }

  /** The displayed net shifts cancel up to one unit of the last place, which can remain. */
  lemma DisplayedNetsNearlyCancel(n: Net)
    requires n.work + n.personal + n.unclassified == 0.0
    ensures var d := RoundNet(n); d.work + d.personal + d.unclassified in {-0.0001, 0.0, 0.0001}
  {
    var a, b, c := Round((n.work + EPSILON) * 10000.0), Round((n.personal + EPSILON) * 10000.0),
        Round((n.unclassified + EPSILON) * 10000.0);
    RoundingIsNearest(n.work);
    RoundingIsNearest(n.personal);
    RoundingIsNearest(n.unclassified);
    assert -2 < a + b + c < 2;
    assert RoundNet(n).work + RoundNet(n).personal + RoundNet(n).unclassified == (a + b + c) as real / 10000.0;
  }

  lemma DisplayedNetsMayRemain()
    ensures RoundNet(Net(-0.00005, 0.00005, 0.0)) == Net(0.0, 0.0001, 0.0)
  {
    assert ((-0.00005 + EPSILON) * 10000.0 + 0.5).Floor == 0;
    assert ((0.00005 + EPSILON) * 10000.0 + 0.5).Floor == 1;
    assert ((0.0 + EPSILON) * 10000.0 + 0.5).Floor == 0;
  }

  lemma EmptyTally(l: Locale, before: seq<Rule>, after: seq<Rule>)
    ensures IsTally(Tally(Flows(0.0, 0.0, 0.0, 0.0, 0.0, 0.0), 0.0, Net(0.0, 0.0, 0.0), Counts(0, 0, 0, 0, 0, 0), {},
            []), l, [], before, after)
  {
    EmptyFlows(l, before, after);
    EmptyCounts(l, before, after);
    EmptySamples(l, before, after);
    hide AreFlows, AreCounts, IsNet, TotalOf, ChangedSlices, FirstSamples, AffectedDates;
  }

  lemma EmptyFlows(l: Locale, before: seq<Rule>, after: seq<Rule>)
    ensures AreFlows(Flows(0.0, 0.0, 0.0, 0.0, 0.0, 0.0), l, [], before, after)
    ensures IsNet(Net(0.0, 0.0, 0.0), Flows(0.0, 0.0, 0.0, 0.0, 0.0, 0.0))
            && TotalOf(Flows(0.0, 0.0, 0.0, 0.0, 0.0, 0.0)) == 0.0
  {
    forall from: Class, to: Class ensures Flow(l, [], before, after, from, to) == 0.0 {
      hide ClassFor;
    }
    hide Flow;
  }

  lemma EmptyCounts(l: Locale, before: seq<Rule>, after: seq<Rule>)
    ensures AreCounts(Counts(0, 0, 0, 0, 0, 0), l, [], before, after)
  {
    hide Holds;
  }

  lemma EmptySamples(l: Locale, before: seq<Rule>, after: seq<Rule>)
    ensures FirstSamples(ChangedSlices(l, [], before, after)) == [] && AffectedDates(l, [], before, after) == {}
  {
    hide ShownChange, DecisionFor;
  }

  lemma DatesStep(l: Locale, slices: seq<StoredSlice>, i: nat, before: seq<Rule>, after: seq<Rule>)
    requires i < |slices|
    ensures AffectedDates(l, slices[..i + 1], before, after) ==
            AffectedDates(l, slices[..i], before, after) + if Holds(l, ClassChanged, slices[i], before, after)
                then {slices[i].date} else {}
  {
    hide Holds;
    assert slices[..i + 1] == slices[..i] + [slices[i]];
  }

  /** One iteration of the preview's loop. */
  method ScanSlice(l: Locale, t: Tally, slices: seq<StoredSlice>, i: nat, before: seq<Rule>, after: seq<Rule>)
    returns (r: Option<Tally>)
    requires i < |slices| && IsTally(t, l, slices[..i], before, after)
    ensures r.None? <==> ThrowsOn(l, before, slices[i]) || ThrowsOn(l, after, slices[i])
    ensures r.Some? ==> IsTally(r.value, l, slices[..i + 1], before, after)
  {
    var s := slices[i];
    DatesStep(l, slices, i, before, after);
    SamplesStep(l, slices, i, before, after);
    var b, a := Classify(l, s.slice, before, OverrideOf(s)), Classify(l, s.slice, after, OverrideOf(s));
    hide Classify, AreFlows, AreCounts, IsNet, TotalOf, Holds, FlowsWith, CountsWith, ShownChange, ChangedSlices,
         FirstSamples, DecisionFor, AffectedDates;
    if s.isUnattributed {
      Skipped(l, t.counts, s, before, after);
      FlowsStep(t.flows, t.flows, l, slices, i, before, after);
      CountsStep(t.counts, t.counts, l, slices, i, before, after);
      return Some(t);
    }
    if b.PatternTooLong? || a.PatternTooLong? {
      return None;
    }
    if s.allocation.Some? && (Classify(l, s.slice, before, None).PatternTooLong?
        || Classify(l, s.slice, after, None).PatternTooLong?) {
      return None;
    }
    var counts := CountSlice(l, t.counts, s, before, after, b.decision, a.decision);
    CountsStep(t.counts, counts, l, slices, i, before, after);
    ChangedMeans(l, s, before, after);
    ShownMeans(l, s, before, after);
    var samples := t.samples;
    if (b.decision.classification != a.decision.classification || b.decision.source != a.decision.source
        || b.decision.winner != a.decision.winner)
       && |samples| < MAX_SAMPLES {
      samples := samples + [Sample(s, b.decision, a.decision)];
    }
    if b.decision.classification != a.decision.classification {
      var flows, net := AddFlow(t.flows, t.net, b.decision.classification, a.decision.classification, s.seconds);
      FlowsStep(t.flows, flows, l, slices, i, before, after);
      r := Some(Tally(flows, t.totalShifted + s.seconds, net, counts, t.affectedDates + {s.date}, samples));
    } else {
      FlowsStep(t.flows, t.flows, l, slices, i, before, after);
      r := Some(t.(counts := counts, samples := samples));
    }
  }

  /** The loop over all slices. */
  method ScanSlices(l: Locale, slices: seq<StoredSlice>, before: seq<Rule>, after: seq<Rule>) returns (r: Option<Tally>)
    ensures r.None? <==> Throws(l, before, slices) || Throws(l, after, slices)
    ensures r.Some? ==> IsTally(r.value, l, slices, before, after)
  {
    hide IsTally, ThrowsOn;
    var t := Tally(Flows(0.0, 0.0, 0.0, 0.0, 0.0, 0.0), 0.0, Net(0.0, 0.0, 0.0), Counts(0, 0, 0, 0, 0, 0), {}, []);
    EmptyTally(l, before, after);
    assert slices[..0] == [];
    for i := 0 to |slices|
      invariant IsTally(t, l, slices[..i], before, after)
      invariant forall j :: 0 <= j < i ==> !ThrowsOn(l, before, slices[j]) && !ThrowsOn(l, after, slices[j])
    {
      var next := ScanSlice(l, t, slices, i, before, after);
      if next.None? { return None; }
      t := next.value;
    }
    assert slices[..|slices|] == slices;
    r := Some(t);
  }

  /** The change is invalid, or a listed or proposed pattern is too long for some slice. */
  predicate PreviewThrows(l: Locale, rules: seq<Rule>, slices: seq<StoredSlice>, change: Change, now: string) {
    var op := NormalizeOperation(l.text, rules, change);
    op.None? || Throws(l, Listed(l, rules), slices) || Throws(l, Proposed(Listed(l, rules), op.value, now), slices)
  }

  lemma ThrowsIs(l: Locale, rules: seq<Rule>, slices: seq<StoredSlice>, change: Change, now: string)
    ensures PreviewThrows(l, rules, slices, change, now) <==>
            var op := NormalizeOperation(l.text, rules, change);
            op.None? || Throws(l, Listed(l, rules), slices)
                || Throws(l, Proposed(Listed(l, rules), op.value, now), slices)
  {
    hide NormalizeOperation, Throws, Listed, Proposed;
  }

  class RuleStore {
    const l: Locale
    var rules: seq<Rule>
    var slices: seq<StoredSlice>
    var revision: nat

    constructor (l: Locale)
      ensures this.l == l && rules == [] && slices == [] && revision == 0
    {
      this.l := l;
      rules, slices, revision := [], [], 0;
    }

    /** previewRuleChange. None stands for a thrown error. */
    method PreviewRuleChange(change: Change, now: string) returns (r: Option<Preview>)
      ensures var op := NormalizeOperation(l.text, rules, change);
              r.Some? ==>
                && op.Some?
                && var before, after := Listed(l, rules), Proposed(Listed(l, rules), op.value, now);
                   && r.value.digest == DigestOf(revision, rules, slices, op.value)
                   && exists t :: IsTally(t, l, slices, before, after) && r.value.tally == Displayed(t)
      ensures r.None? <==> PreviewThrows(l, rules, slices, change, now)
    {
      var op := NormalizeOperation(l.text, rules, change);
      if op.None? { return None; }
      var before := Listed(l, rules);
      var after := Proposed(before, op.value, now);
      var digest := DigestOf(revision, rules, slices, op.value);
      ThrowsIs(l, rules, slices, change, now);
      hide *;
      var scan := ScanSlices(l, slices, before, after);
      if scan.None? { return None; }
      r := Some(Preview(digest, Displayed(scan.value)));
    }

    /**
     createRule, updateRule and deleteRule: committed only against the digest of the present state, which the
     change is previewed in first. A revision is expected if the caller gives one that is an integer.
     */
    method Mutate(change: Change, now: string, expectedDigest: Option<Digest>, expectedRevision: Option<int>)
      returns (committed: bool)
      modifies this
      ensures slices == old(slices)
      ensures committed <==> var op := NormalizeOperation(l.text, old(rules), change);
                             && op.Some? && !PreviewThrows(l, old(rules), slices, change, now)
                             && expectedDigest == Some(DigestOf(old(revision), old(rules), slices, op.value))
                             && (expectedRevision.Some? ==> expectedRevision.value == old(revision))
                             && (op.value.Insertion? ==> FindRule(old(rules), op.value.id).None?)
      ensures committed ==> rules == Committed(old(rules), NormalizeOperation(l.text, old(rules), change).value, now)
                            && revision == old(revision) + 1
      ensures !committed ==> rules == old(rules) && revision == old(revision)
    {
      if expectedDigest.None? { return false; }
      var op := NormalizeOperation(l.text, rules, change);
      if op.None? { return false; }
      var preview := PreviewRuleChange(change, now);
      if preview.None? { return false; }
      hide PreviewThrows;
      if expectedDigest.value != DigestOf(revision, rules, slices, op.value) { return false; }
      if expectedRevision.Some? && expectedRevision.value != revision { return false; }
      match op.value {
        case Insertion(id, body) =>
          if FindRule(rules, id).Some? { return false; }
          rules := rules + [RuleFrom(id, body, now)];
        case Revision(id, body) =>
          rules := Replaced(rules, id, body);
        case Removal(id) =>
          rules := Without(rules, id);
      }
      revision := revision + 1;
      committed := true;
    }
  }

  lemma Skipped(l: Locale, c: Counts, s: StoredSlice, before: seq<Rule>, after: seq<Rule>)
    requires s.isUnattributed
    ensures !Holds(l, ClassChanged, s, before, after) && !ShownChange(l, s, before, after)
            && CountsWith(c, l, s, before, after) == c
  {
  }

  lemma ChangedMeans(l: Locale, s: StoredSlice, before: seq<Rule>, after: seq<Rule>)
    requires !s.isUnattributed
    ensures Holds(l, ClassChanged, s, before, after) <==> ClassFor(l, before, s) != ClassFor(l, after, s)
  {
  }

  lemma ShownMeans(l: Locale, s: StoredSlice, before: seq<Rule>, after: seq<Rule>)
    requires !s.isUnattributed
    requires Classify(l, s.slice, before, OverrideOf(s)).Decided? && Classify(l, s.slice, after, OverrideOf(s)).Decided?
    ensures var b, a := Classify(l, s.slice, before, OverrideOf(s)).decision,
            Classify(l, s.slice, after, OverrideOf(s)).decision;
            && DecisionFor(l, before, s, OverrideOf(s)) == b && DecisionFor(l, after, s, OverrideOf(s)) == a
            && (ShownChange(l, s, before, after)
               <==> b.classification != a.classification || b.source != a.source || b.winner != a.winner)
  {
    hide Classify;
  }
}
