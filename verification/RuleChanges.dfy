/** What a rule change asks for, commits and shows, said of its fields. */
module RuleChanges {
  import opened Options
  import opened Locales
  import opened SliceTypes
  import opened Text
  import opened Orders
  import opened Classification
  import opened DecisionRanks
  import opened RulePreview
  import RuleInvariance

  // ---- Validation ----

  /** The selector value as it is stored; blank, too long or empty ones are refused. */
  ghost predicate Stores(text: TextOps, t: SelectorType, value: string, stored: Option<string>) {
    if Trim(value) == "" || Utf16Length(value) > 500 || Compared(text, t, value) == "" then stored.None?
    else stored == Some(Compared(text, t, value))
  }

  lemma StoresIs(text: TextOps, t: SelectorType, value: string)
    ensures Stores(text, t, value, StoredValue(text, t, value))
  {
    ComparedIs(text, t, value);
    hide Compared, NormalizeSelector, Trim, Utf16Length;
  }

  lemma {:induction false} FindRuleMeans(rules: seq<Rule>, id: string)
    ensures FindRule(rules, id).None? <==> forall r :: r in rules ==> r.id != id
    ensures FindRule(rules, id).Some? ==> FindRule(rules, id).value in rules && FindRule(rules, id).value.id == id
  {
    if rules != [] {
      FindRuleMeans(rules[1..], id);
      assert rules == [rules[0]] + rules[1..];
    }
  }

  /** A rule is created with the given fields and the selector as it is stored. */
  lemma CreateMeans(text: TextOps, rules: seq<Rule>, id: string, body: Body)
    ensures var op := NormalizeOperation(text, rules, Create(id, body));
            && (op.None? <==> Stores(text, body.selectorType, body.selectorValue, None))
            && (op.Some? ==>
                  && op.value.Insertion? && op.value.id == id
                  && Stores(text, body.selectorType, body.selectorValue, Some(op.value.body.selectorValue))
                  && op.value.body.classification == body.classification
                     && op.value.body.selectorType == body.selectorType
                  && op.value.body.matchMode == body.matchMode && op.value.body.priority == body.priority
                  && op.value.body.enabled == body.enabled)
  {
    StoresIs(text, body.selectorType, body.selectorValue);
    hide StoredValue, Compared, Utf16Length, Trim;
  }

  /**
   An update takes each field that the patch gives and keeps the others; a given selector is stored under the type that
   the rule will have, one that is kept stays as it is.
   */
  lemma UpdateMeans(text: TextOps, rules: seq<Rule>, id: string, patch: Patch)
    ensures var op := NormalizeOperation(text, rules, Update(id, patch));
            && (op.None? <==>
                || (forall r :: r in rules ==> r.id != id)
                || (patch.selectorValue.Some?
                    && exists r :: r in rules && r.id == id && FindRule(rules, id) == Some(r)
                         && Stores(text, if patch.selectorType.Some? then patch.selectorType.value else r.selectorType,
                                   patch.selectorValue.value, None)))
            && (op.Some? ==>
                  && op.value.Revision? && op.value.id == id
                  && exists r :: r in rules && r.id == id && FindRule(rules, id) == Some(r)
                       && Patched(text, r, patch, op.value.body))
  {
    FindRuleMeans(rules, id);
    var r := FindRule(rules, id);
    if r.Some? && patch.selectorValue.Some? {
      StoresIs(text, if patch.selectorType.Some? then patch.selectorType.value else r.value.selectorType,
               patch.selectorValue.value);
    }
    hide FindRule, StoredValue, Compared, Utf16Length, Trim;
  }

  ghost predicate Patched(text: TextOps, r: Rule, patch: Patch, body: Body) {
    && body.classification == (match patch.classification case Some(x) => x case None => r.classification)
    && body.selectorType == (match patch.selectorType case Some(x) => x case None => r.selectorType)
    && body.matchMode == (match patch.matchMode case Some(x) => x case None => r.matchMode)
    && body.priority == (match patch.priority case Some(x) => x case None => r.priority)
    && body.enabled == (match patch.enabled case Some(x) => x case None => r.enabled)
    && match patch.selectorValue
       case Some(x) => Stores(text, body.selectorType, x, Some(body.selectorValue))
       case None => body.selectorValue == r.selectorValue
  }

  lemma DeleteMeans(text: TextOps, rules: seq<Rule>, id: string)
    ensures var op := NormalizeOperation(text, rules, Delete(id));
            && (op.None? <==> forall r :: r in rules ==> r.id != id)
            && (op.Some? ==> op.value == Removal(id))
  {
    FindRuleMeans(rules, id);
    hide FindRule;
  }

  // ---- The committed table ----

  /** The rule has the fields of the body. */
  predicate Carries(r: Rule, body: Body) {
    && r.classification == body.classification && r.selectorType == body.selectorType
       && r.selectorValue == body.selectorValue
    && r.matchMode == body.matchMode && r.priority == body.priority && r.enabled == body.enabled
  }

  /** A rule of the table after the change. */
  ghost predicate InTable(rows: seq<Rule>, op: Operation, now: string, r: Rule) {
    match op
    case Insertion(id, body) => r in rows || (r.id == id && r.createdAt == now && Carries(r, body))
    case Revision(id, body) =>
      (r in rows && r.id != id)
      || (r.id == id && Carries(r, body) && exists q :: q in rows && q.id == id && q.createdAt == r.createdAt)
    case Removal(id) => r in rows && r.id != id
  }

  /** A new rule is added with the present time, a revised one keeps its creation time, a removed one goes. */
  lemma CommitMeans(rows: seq<Rule>, op: Operation, now: string)
    ensures forall r :: r in Committed(rows, op, now) <==> InTable(rows, op, now, r)
  {
    match op
    case Insertion(id, body) =>
    case Revision(id, body) =>
      ReplacedMembers(rows, id, body);
      hide Replaced;
    case Removal(id) =>
      WithoutMembers(rows, id);
      hide Without;
  }

  // ---- The digest ----

  /** The same rule apart from the creation time. */
  predicate SameButTime(a: Rule, b: Rule) {
    && a.id == b.id && a.classification == b.classification && a.selectorType == b.selectorType
    && a.selectorValue == b.selectorValue && a.matchMode == b.matchMode && a.priority == b.priority
       && a.enabled == b.enabled
  }

  lemma TimelessIs(a: Rule, b: Rule)
    ensures Timeless(a) == Timeless(b) <==> SameButTime(a, b)
  {
  }

  /**
   A digest is that of the present state exactly when revision, slices and operation are the same and the tables hold
   the same rules apart from their creation times; so a commit is refused as soon as any of these has changed.
   */
  lemma DigestsAgreeIff(revision: nat, rows: seq<Rule>, slices: seq<StoredSlice>, op: Operation,
                        revision': nat, rows': seq<Rule>, slices': seq<StoredSlice>, op': Operation)
    ensures DigestOf(revision, rows, slices, op) == DigestOf(revision', rows', slices', op') <==>
            && revision == revision' && slices == slices' && op == op'
            && (forall r :: r in rows ==> exists q :: q in rows' && SameButTime(r, q))
            && (forall q :: q in rows' ==> exists r :: r in rows && SameButTime(r, q))
  {
    TimelessRowsAgree(rows, rows');
    hide TimelessRows, Timeless, SameButTime;
    assert DigestOf(revision, rows, slices, op).rules == TimelessRows(rows) by { TimelessRowsAre(rows); }
    assert DigestOf(revision', rows', slices', op').rules == TimelessRows(rows') by { TimelessRowsAre(rows'); }
  }

  lemma TimelessRowsAre(rows: seq<Rule>)
    ensures TimelessRows(rows) == set r | r in rows :: Timeless(r)
  {
    hide Timeless;
  }

  lemma TimelessRowsAgree(xs: seq<Rule>, ys: seq<Rule>)
    ensures TimelessRows(xs) == TimelessRows(ys) <==>
            (forall r :: r in xs ==> exists q :: q in ys && SameButTime(r, q))
            && (forall q :: q in ys ==> exists r :: r in xs && SameButTime(r, q))
  {
    WithinIff(xs, ys);
    WithinIff(ys, xs);
    assert forall r, q :: SameButTime(r, q) <==> SameButTime(q, r);
    hide SameButTime;
    assert TimelessRows(xs) == TimelessRows(ys) <==> TimelessRows(xs) <= TimelessRows(ys) <= TimelessRows(xs);
    hide TimelessRows;
  }

  lemma WithinIff(xs: seq<Rule>, ys: seq<Rule>)
    ensures TimelessRows(xs) <= TimelessRows(ys) <==> forall r :: r in xs ==> exists q :: q in ys && SameButTime(r, q)
  {
    forall a, b ensures Timeless(a) == Timeless(b) <==> SameButTime(a, b) { TimelessIs(a, b); }
    hide Timeless, SameButTime;
    if TimelessRows(xs) <= TimelessRows(ys) {
      forall r | r in xs ensures exists q :: q in ys && SameButTime(r, q) {
        assert Timeless(r) in TimelessRows(ys);
      }
    }
    if forall r :: r in xs ==> exists q :: q in ys && SameButTime(r, q) {
      forall t | t in TimelessRows(xs) ensures t in TimelessRows(ys) {
        var r :| r in xs && Timeless(r) == t;
        var q :| q in ys && SameButTime(r, q);
      }
    }
  }

  // ---- The listed order ----

  /** Rules are listed by falling priority, then by creation time, then by id. */
  ghost predicate ListedBefore(l: Locale, a: Rule, b: Rule) {
    || a.priority > b.priority
    || (a.priority == b.priority
        && (|| (a.createdAt != b.createdAt && l.ordinal(a.createdAt, b.createdAt))
            || (a.createdAt == b.createdAt && l.ordinal(a.id, b.id))))
  }

  lemma ListedMeans(l: Locale, rows: seq<Rule>)
    requires Lawful(l)
    ensures multiset(Listed(l, rows)) == multiset(rows)
    ensures forall i, j :: 0 <= i < j < |Listed(l, rows)| ==> ListedBefore(l, Listed(l, rows)[i], Listed(l, rows)[j])
  {
    SqlOrderIsPreorder(l);
    SortSorted(rows, SqlOrder(l));
    SortContents(rows, SqlOrder(l));
    hide Sort, Lawful;
    assert forall a, b :: SqlOrder(l)(a, b) ==> ListedBefore(l, a, b);
  }

  lemma SqlOrderIsPreorder(l: Locale)
    requires Lawful(l)
    ensures Preorder(SqlOrder(l))
  {
    var le := SqlOrder(l);
    assert forall a, b :: le(a, b) <==> ListedBefore(l, a, b);
    assert forall a, b :: ListedBefore(l, a, b) || ListedBefore(l, b, a);
    assert forall a, b, c :: ListedBefore(l, a, b) && ListedBefore(l, b, c) ==> ListedBefore(l, a, c);
  }

  // ---- What the preview shows ----

  /** A slice with an allocation has its class under any rules; another one the class that the rules decide. */
  lemma ClassForMeans(l: Locale, rules: seq<Rule>, s: StoredSlice)
    ensures s.allocation.Some? ==> ClassFor(l, rules, s) == s.allocation.value
    ensures s.allocation.None? ==>
            ClassFor(l, rules, s) ==
            match Classify(l, s.slice, rules, None)
            case Decided(d) => d.classification
            case PatternTooLong => Unclassified
  {
    hide Decide, AnyTooLong;
  }

  /** Seconds of the slices whose class the change moves. */
  ghost function MovedSeconds(l: Locale, slices: seq<StoredSlice>, before: seq<Rule>, after: seq<Rule>): real {
    if slices == [] then 0.0
    else
      var s := slices[|slices| - 1];
      MovedSeconds(l, slices[..|slices| - 1], before, after)
      + if !s.isUnattributed && ClassFor(l, before, s) != ClassFor(l, after, s) then s.seconds else 0.0
  }

  lemma {:induction false} FlowsAreMoves(l: Locale, slices: seq<StoredSlice>, before: seq<Rule>, after: seq<Rule>)
    ensures MovedSeconds(l, slices, before, after) ==
            Flow(l, slices, before, after, Work, Personal) + Flow(l, slices, before, after, Work, Unclassified)
            + Flow(l, slices, before, after, Personal, Work) + Flow(l, slices, before, after, Personal, Unclassified)
            + Flow(l, slices, before, after, Unclassified, Work)
                + Flow(l, slices, before, after, Unclassified, Personal)
  {
    if slices != [] {
      FlowsAreMoves(l, slices[..|slices| - 1], before, after);
      hide ClassFor;
    }
  }

  /** The total of a tally is what moves, and its samples are the first five changes in the order of the slices. */
  lemma TallyMeans(t: Tally, l: Locale, slices: seq<StoredSlice>, before: seq<Rule>, after: seq<Rule>)
    requires IsTally(t, l, slices, before, after)
    ensures t.totalShifted == MovedSeconds(l, slices, before, after)
    ensures var all := ChangedSlices(l, slices, before, after); t.samples == if |all| <= 5 then all else all[..5]
  {
    FlowsAreMoves(l, slices, before, after);
    hide Flow, MovedSeconds, ChangedSlices, AreCounts, AffectedDates;
  }

  /** Every displayed number is within 0.0001 of the one it stands for. */
  lemma DisplayedIsClose(t: Tally)
    ensures var d := Displayed(t);
            && d.counts == t.counts && d.affectedDates == t.affectedDates && d.samples == t.samples
            && Close(d.flows.workToPersonal, t.flows.workToPersonal)
               && Close(d.flows.workToUnclassified, t.flows.workToUnclassified)
            && Close(d.flows.personalToWork, t.flows.personalToWork)
            && Close(d.flows.personalToUnclassified, t.flows.personalToUnclassified)
            && Close(d.flows.unclassifiedToWork, t.flows.unclassifiedToWork)
            && Close(d.flows.unclassifiedToPersonal, t.flows.unclassifiedToPersonal)
            && Close(d.totalShifted, t.totalShifted)
            && Close(d.net.work, t.net.work) && Close(d.net.personal, t.net.personal)
            && Close(d.net.unclassified, t.net.unclassified)
  {
    forall x ensures Close(RoundSeconds(x), x) { RoundingIsNearest(x); }
    hide RoundSeconds, Close;
  }

  predicate Close(x: real, y: real) {
    -0.0001 <= x - y <= 0.0001
  }

  /**
   A preview throws on an invalid change, and on a pattern that is too long as soon as a slice would be classified
   with it.
   */
  lemma PreviewThrowsMeans(l: Locale, rules: seq<Rule>, slices: seq<StoredSlice>, change: Change, now: string)
    ensures var op := NormalizeOperation(l.text, rules, change);
            PreviewThrows(l, rules, slices, change, now) <==>
              || op.None?
              || ((exists s :: s in slices && !s.isUnattributed && s.slice.kind == EntitySlice)
                  && exists r :: (r in rules || r in Proposed(Listed(l, rules), op.value, now))
                                 && r.enabled && Utf16Length(r.selectorValue) > 500)
  {
    var op := NormalizeOperation(l.text, rules, change);
    if op.Some? {
      var listed, proposed := Listed(l, rules), Proposed(Listed(l, rules), op.value, now);
      ThrowsMeans(l, listed, slices);
      ThrowsMeans(l, proposed, slices);
      SortMembers(rules, SqlOrder(l));
    }
    hide NormalizeOperation, Throws, Sort, Proposed, Utf16Length;
  }

  lemma ThrowsMeans(l: Locale, rules: seq<Rule>, slices: seq<StoredSlice>)
    ensures Throws(l, rules, slices) <==>
            && (exists s :: s in slices && !s.isUnattributed && s.slice.kind == EntitySlice)
            && exists r :: r in rules && r.enabled && Utf16Length(r.selectorValue) > 500
  {
    forall s: StoredSlice
      ensures ThrowsOn(l, rules, s) <==>
              !s.isUnattributed && s.slice.kind == EntitySlice
              && exists r :: r in rules && r.enabled && Utf16Length(r.selectorValue) > 500
    {
      WithoutRules(l, s.slice, rules, None);
      hide Classify, Utf16Length;
      assert Classify(l, s.slice, rules, None) == PatternTooLong <==> VerdictIsNone(l, s.slice, rules);
    }
    hide ThrowsOn, Utf16Length;
    if s :| s in slices && !s.isUnattributed && s.slice.kind == EntitySlice {
      var i :| 0 <= i < |slices| && slices[i] == s;
    }
  }

  ghost predicate VerdictIsNone(l: Locale, slice: Slice, rules: seq<Rule>) {
    RuleInvariance.VerdictOf(Classify(l, slice, rules, None)) == RuleInvariance.NoVerdict
  }
}
