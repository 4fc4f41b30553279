/** The counters and samples of a rule preview, said of the rules that claim each slice. */
module PreviewFacts {
  import opened Options
  import opened Locales
  import opened SliceTypes
  import opened Text
  import opened Classification
  import opened RuleInvariance
  import opened DecisionRanks
  import opened RulePreview

  ghost predicate AllShort(rules: seq<Rule>) {
    forall r :: r in rules && r.enabled ==> Utf16Length(r.selectorValue) <= 500
  }

  // ---- What is counted ----

  /** The change moves the slice to another class. */
  ghost predicate Reclassified(l: Locale, s: StoredSlice, before: seq<Rule>, after: seq<Rule>) {
    !s.isUnattributed && ClassFor(l, before, s) != ClassFor(l, after, s)
  }

  /** Some rule claims the slice, whether or not it is allocated. */
  ghost predicate Claimed(l: Locale, s: StoredSlice, rules: seq<Rule>) {
    !s.isUnattributed && exists r :: r in rules && Claims(l.text, s.slice, r)
  }

  /** Nobody allocated the slice, and leading rules disagree about it. */
  ghost predicate Disputed(l: Locale, s: StoredSlice, rules: seq<Rule>) {
    && !s.isUnattributed && s.allocation.None?
    && exists a, b ::
       Leads(l.text, s.slice, rules, a) && Leads(l.text, s.slice, rules, b) && a.classification != b.classification
  }

  /** Another rule or another kind of reason decides the slice. */
  ghost predicate Reasoned(l: Locale, s: StoredSlice, before: seq<Rule>, after: seq<Rule>) {
    var b, a := Classify(l, s.slice, before, OverrideOf(s)), Classify(l, s.slice, after, OverrideOf(s));
    && !s.isUnattributed && b.Decided? && a.Decided?
    && (b.decision.source != a.decision.source || b.decision.winner != a.decision.winner)
  }

  ghost function HowMany(slices: seq<StoredSlice>, p: StoredSlice -> bool): nat {
    if slices == [] then 0
    else HowMany(slices[..|slices| - 1], p) + if p(slices[|slices| - 1]) then 1 else 0
  }

  lemma {:induction false} CountIs(l: Locale, fact: Fact, slices: seq<StoredSlice>, before: seq<Rule>, after: seq<Rule>,
                                   p: StoredSlice -> bool)
    requires forall s :: p(s) <==> Holds(l, fact, s, before, after)
    ensures Count(l, fact, slices, before, after) == HowMany(slices, p)
  {
    if slices != [] {
      CountIs(l, fact, slices[..|slices| - 1], before, after, p);
      hide Holds;
    }
  }

  // ---- The facts ----

  lemma SomeLeaderIs(l: Locale, slice: Slice, rules: seq<Rule>)
    requires Lawful(l)
    ensures (exists r :: Leads(l.text, slice, rules, r)) <==> exists r :: r in rules && Claims(l.text, slice, r)
  {
    hide *;
    if r :| r in rules && Claims(l.text, slice, r) { SomeLeader(l, slice, rules, r); }
    if r :| Leads(l.text, slice, rules, r) { LeadsMeans(l.text, slice, rules, r); }
  }

  /** What the rules alone say of a slice. */
  lemma ByRules(l: Locale, s: StoredSlice, rules: seq<Rule>)
    requires Lawful(l) && AllShort(rules)
    ensures var d := DecisionFor(l, rules, s, None);
            && (d.source == FromRule || d.source == Ambiguous <==> exists r :: r in rules && Claims(l.text, s.slice, r))
            && (d.source == Ambiguous <==>
                exists a, b :: Leads(l.text, s.slice, rules, a) && Leads(l.text, s.slice, rules, b)
                               && a.classification != b.classification)
  {
    hide *;
    DecisionIs(l, s, rules, None);
    WithoutRules(l, s.slice, rules, None);
    if s.slice.kind == EntitySlice {
      LeadersAre(l, s.slice, rules);
      LeadersDecide(l, s.slice, rules);
      SomeLeaderIs(l, s.slice, rules);
    } else {
      OthersUnclaimed(l.text, s.slice, rules);
    }
  }

  lemma LeadersAre(l: Locale, slice: Slice, rules: seq<Rule>)
    requires AllShort(rules)
    ensures forall r :: r in rules && r.enabled ==> Utf16Length(r.selectorValue) <= 500
  {
    hide Utf16Length;
  }

  lemma OthersUnclaimed(text: TextOps, slice: Slice, rules: seq<Rule>)
    requires slice.kind != EntitySlice
    ensures forall r :: !Claims(text, slice, r) && !Leads(text, slice, rules, r)
  {
    hide Outranks, SelectorFits, LooksAt;
  }

  lemma DecisionIs(l: Locale, s: StoredSlice, rules: seq<Rule>, override: Option<Class>)
    requires AllShort(rules)
    ensures var d := DecisionFor(l, rules, s, override);
            && VerdictOf(Classify(l, s.slice, rules, override)) == Verdict(d.classification, d.source)
            && Classify(l, s.slice, rules, override) == Decided(d)
  {
    NoneTooLong(rules);
    hide AnyTooLong, Decide;
  }

  /** What is known of the decisions about a slice under the rules. */
  ghost predicate Decides(l: Locale, s: StoredSlice, rules: seq<Rule>) {
    var d, r := DecisionFor(l, rules, s, OverrideOf(s)), DecisionFor(l, rules, s, None);
    && Classify(l, s.slice, rules, OverrideOf(s)) == Decided(d)
    && (!s.isUnattributed && (r.source == FromRule || r.source == Ambiguous) <==> Claimed(l, s, rules))
    && (!s.isUnattributed && d.source == Ambiguous <==> Disputed(l, s, rules))
  }

  lemma RulesDecide(l: Locale, s: StoredSlice, rules: seq<Rule>)
    requires Lawful(l) && AllShort(rules)
    ensures Decides(l, s, rules)
  {
    ByRules(l, s, rules);
    DecisionIs(l, s, rules, OverrideOf(s));
    WithoutRules(l, s.slice, rules, OverrideOf(s));
    hide Lawful, AllShort, Claims, Leads, Classify, VerdictOf, DecisionFor;
  }

  lemma HoldsMeans(l: Locale, s: StoredSlice, before: seq<Rule>, after: seq<Rule>)
    requires Lawful(l) && AllShort(before) && AllShort(after)
    ensures Holds(l, ClassChanged, s, before, after) <==> Reclassified(l, s, before, after)
    ensures Holds(l, SourceChanged, s, before, after) <==> Reasoned(l, s, before, after)
    ensures Holds(l, MatchedBefore, s, before, after) <==> Claimed(l, s, before)
    ensures Holds(l, MatchedAfter, s, before, after) <==> Claimed(l, s, after)
    ensures Holds(l, BecameAmbiguous, s, before, after) <==> !Disputed(l, s, before) && Disputed(l, s, after)
    ensures Holds(l, CeasedAmbiguous, s, before, after) <==> Disputed(l, s, before) && !Disputed(l, s, after)
  {
    RulesDecide(l, s, before);
    RulesDecide(l, s, after);
    assert s.isUnattributed ==> !Disputed(l, s, before) && !Disputed(l, s, after);
    hide Lawful, AllShort, Claimed, Disputed, Classify, DecisionFor;
  }

  // ---- The law ----

  /** The counters of a tally count what they are named after. */
  lemma CountsMean(t: Tally, l: Locale, slices: seq<StoredSlice>, before: seq<Rule>, after: seq<Rule>)
    requires IsTally(t, l, slices, before, after) && Lawful(l) && AllShort(before) && AllShort(after)
    ensures t.counts.changed == HowMany(slices, s => Reclassified(l, s, before, after))
    ensures t.counts.sourceChanged == HowMany(slices, s => Reasoned(l, s, before, after))
    ensures t.counts.matchedBefore == HowMany(slices, s => Claimed(l, s, before))
    ensures t.counts.matchedAfter == HowMany(slices, s => Claimed(l, s, after))
    ensures t.counts.toAmbiguous == HowMany(slices, s => !Disputed(l, s, before) && Disputed(l, s, after))
    ensures t.counts.fromAmbiguous == HowMany(slices, s => Disputed(l, s, before) && !Disputed(l, s, after))
    ensures t.affectedDates == set s | s in slices && Reclassified(l, s, before, after) :: s.date
  {
    TallyFields(t, l, slices, before, after);
    forall s
      ensures Holds(l, ClassChanged, s, before, after) <==> Reclassified(l, s, before, after)
      ensures Holds(l, SourceChanged, s, before, after) <==> Reasoned(l, s, before, after)
      ensures Holds(l, MatchedBefore, s, before, after) <==> Claimed(l, s, before)
      ensures Holds(l, MatchedAfter, s, before, after) <==> Claimed(l, s, after)
      ensures Holds(l, BecameAmbiguous, s, before, after) <==> !Disputed(l, s, before) && Disputed(l, s, after)
      ensures Holds(l, CeasedAmbiguous, s, before, after) <==> Disputed(l, s, before) && !Disputed(l, s, after)
    {
      HoldsMeans(l, s, before, after);
    }
    hide IsTally, Lawful, Holds, Reclassified, Reasoned, Claimed, Disputed, Count, HowMany, AffectedDates;
    CountIs(l, ClassChanged, slices, before, after, s => Reclassified(l, s, before, after));
    CountIs(l, SourceChanged, slices, before, after, s => Reasoned(l, s, before, after));
    CountIs(l, MatchedBefore, slices, before, after, s => Claimed(l, s, before));
    CountIs(l, MatchedAfter, slices, before, after, s => Claimed(l, s, after));
    CountIs(l, BecameAmbiguous, slices, before, after, s => !Disputed(l, s, before) && Disputed(l, s, after));
    CountIs(l, CeasedAmbiguous, slices, before, after, s => Disputed(l, s, before) && !Disputed(l, s, after));
  }

  lemma TallyFields(t: Tally, l: Locale, slices: seq<StoredSlice>, before: seq<Rule>, after: seq<Rule>)
    requires IsTally(t, l, slices, before, after)
    ensures t.counts.changed == Count(l, ClassChanged, slices, before, after)
    ensures t.counts.sourceChanged == Count(l, SourceChanged, slices, before, after)
    ensures t.counts.toAmbiguous == Count(l, BecameAmbiguous, slices, before, after)
    ensures t.counts.fromAmbiguous == Count(l, CeasedAmbiguous, slices, before, after)
    ensures t.counts.matchedBefore == Count(l, MatchedBefore, slices, before, after)
    ensures t.counts.matchedAfter == Count(l, MatchedAfter, slices, before, after)
    ensures t.affectedDates == set s | s in slices && Holds(l, ClassChanged, s, before, after) :: s.date
  {
    hide Count, Holds, AreFlows, IsNet;
  }

  /** The disputed slices after the change are those before it, with the new ones and without the settled ones. */
  lemma DisputesBalance(t: Tally, l: Locale, slices: seq<StoredSlice>, before: seq<Rule>, after: seq<Rule>)
    requires IsTally(t, l, slices, before, after) && Lawful(l) && AllShort(before) && AllShort(after)
    ensures HowMany(slices, s => Disputed(l, s, after)) + t.counts.fromAmbiguous
            == HowMany(slices, s => Disputed(l, s, before)) + t.counts.toAmbiguous
  {
    CountsMean(t, l, slices, before, after);
    hide IsTally, Disputed, HowMany, Lawful, AllShort, Reclassified, Reasoned, Claimed;
    Balance(slices, s => Disputed(l, s, before), s => Disputed(l, s, after),
            s => !Disputed(l, s, before) && Disputed(l, s, after),
            s => Disputed(l, s, before) && !Disputed(l, s, after));
  }

  lemma {:induction false} Balance(slices: seq<StoredSlice>, p: StoredSlice -> bool, q: StoredSlice -> bool,
                                   more: StoredSlice -> bool, gone: StoredSlice -> bool)
    requires forall s :: (more(s) <==> !p(s) && q(s)) && (gone(s) <==> p(s) && !q(s))
    ensures HowMany(slices, q) + HowMany(slices, gone) == HowMany(slices, p) + HowMany(slices, more)
  {
    if slices != [] { Balance(slices[..|slices| - 1], p, q, more, gone); }
  }

  // ---- The samples ----

  /** The slice with the decisions before and after a change that reclassifies it or decides it for another reason. */
  ghost predicate Shows(l: Locale, x: Sample, before: seq<Rule>, after: seq<Rule>) {
    && Changed(l, x.slice, before, after)
    && Classify(l, x.slice.slice, before, OverrideOf(x.slice)) == Decided(x.before)
    && Classify(l, x.slice.slice, after, OverrideOf(x.slice)) == Decided(x.after)
  }

  ghost predicate Changed(l: Locale, s: StoredSlice, before: seq<Rule>, after: seq<Rule>) {
    Reclassified(l, s, before, after) || Reasoned(l, s, before, after)
  }

  lemma SampleOf(l: Locale, s: StoredSlice, before: seq<Rule>, after: seq<Rule>)
    requires Lawful(l) && AllShort(before) && AllShort(after)
    ensures ShownChange(l, s, before, after) <==> Changed(l, s, before, after)
    ensures var b, a := DecisionFor(l, before, s, OverrideOf(s)), DecisionFor(l, after, s, OverrideOf(s));
            forall x: Sample :: x.slice == s ==> (x == Sample(s, b, a) <==>
              Classify(l, s.slice, before, OverrideOf(s)) == Decided(x.before)
              && Classify(l, s.slice, after, OverrideOf(s)) == Decided(x.after))
  {
    HoldsMeans(l, s, before, after);
    DecisionIs(l, s, before, OverrideOf(s));
    DecisionIs(l, s, after, OverrideOf(s));
    hide Lawful, AllShort, Holds, Reclassified, Reasoned, Classify, DecisionFor;
  }

  /** The samples are exactly these, one for each changed slice. */
  lemma {:induction false} SamplesMean(l: Locale, slices: seq<StoredSlice>, before: seq<Rule>, after: seq<Rule>)
    requires Lawful(l) && AllShort(before) && AllShort(after)
    ensures |ChangedSlices(l, slices, before, after)| == HowMany(slices, s => Changed(l, s, before, after))
    ensures forall x :: x in ChangedSlices(l, slices, before, after) <==>
              x.slice in slices && Shows(l, x, before, after)
  {
    if slices != [] {
      var init, s := slices[..|slices| - 1], slices[|slices| - 1];
      SamplesMean(l, init, before, after);
      SampleOf(l, s, before, after);
      hide Lawful, AllShort, ShownChange, Changed, Classify, DecisionFor;
      assert forall t :: t in slices <==> t in init || t == s;
    }
  }
}
