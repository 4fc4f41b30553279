/** What the heartbeat tables of an import hold after any number of beats, and how one more beat changes them. */
module ImportTables {
  import opened Locales
  import opened Canonical
  import opened Importer

  ghost predicate HasBeat(rows: seq<StoredBeat>, id: string) {
    exists i :: 0 <= i < |rows| && rows[i].id == id
  }

  ghost predicate HasVariant(rows: seq<Variant>, id: string, payload: Payload) {
    exists i :: 0 <= i < |rows| && rows[i].id == id && rows[i].payload == payload
  }

  /** The payload of the first beat with the id. */
  ghost predicate IsFirst(l: Locale, read: seq<Beat>, id: string, payload: Payload) {
    exists i :: 0 <= i < |read| && read[i].id == id && PayloadOf(l, read[i]) == payload
                && forall j :: 0 <= j < i ==> read[j].id != id
  }

  /** The first payload seen for each id, and nothing else. */
  ghost predicate SeenFits(l: Locale, seen: map<string, Payload>, read: seq<Beat>) {
    && (forall i :: 0 <= i < |read| ==> read[i].id in seen)
    && (forall id :: id in seen ==> IsFirst(l, read, id, seen[id]))
  }

  /** How many of the beats have the id and the payload. */
  ghost function Occurrences(l: Locale, read: seq<Beat>, id: string, payload: Payload): nat {
    if read == [] then 0
    else
      var b := read[|read| - 1];
      Occurrences(l, read[..|read| - 1], id, payload) + if b.id == id && PayloadOf(l, b) == payload then 1 else 0
  }

  // ---- The tables ----

  ghost predicate BeatFits(l: Locale, b: StoredBeat, seen: map<string, Payload>, read: seq<Beat>) {
    b.id in seen && b.payload == seen[b.id] && b.occurrences == Occurrences(l, read, b.id, b.payload)
  }

  ghost predicate VariantFits(l: Locale, v: Variant, seen: map<string, Payload>, read: seq<Beat>) {
    && v.id in seen && (v.conflict <==> v.payload != seen[v.id])
    && v.occurrences == Occurrences(l, read, v.id, v.payload)
  }

  ghost predicate IdsDiffer(beats: seq<StoredBeat>) {
    forall i, j :: 0 <= i < j < |beats| ==> beats[i].id != beats[j].id
  }

  ghost predicate VariantsDiffer(variants: seq<Variant>) {
    forall i, j :: 0 <= i < j < |variants| ==>
      !(variants[i].id == variants[j].id && variants[i].payload == variants[j].payload)
  }

  /** One heartbeat for each id, with the payload first seen and the number of beats that have it. */
  ghost predicate BeatsFit(l: Locale, beats: seq<StoredBeat>, seen: map<string, Payload>, read: seq<Beat>) {
    && IdsDiffer(beats) && (forall b :: b in beats ==> BeatFits(l, b, seen, read))
    && forall id :: id in seen ==> HasBeat(beats, id)
  }

  /** One variant for each id and payload, marked as a conflict unless the payload is the one first seen. */
  ghost predicate VariantsFit(l: Locale, variants: seq<Variant>, seen: map<string, Payload>, read: seq<Beat>) {
    && VariantsDiffer(variants) && (forall v :: v in variants ==> VariantFits(l, v, seen, read))
    && forall b :: b in read ==> HasVariant(variants, b.id, PayloadOf(l, b))
  }

  // ---- One more occurrence of a row, or a new row ----

  function OneMoreBeat(b: StoredBeat): StoredBeat { b.(occurrences := b.occurrences + 1) }

  function OneMoreVariant(v: Variant): Variant { v.(occurrences := v.occurrences + 1) }

  ghost predicate BeatCounted(before: seq<StoredBeat>, after: seq<StoredBeat>, id: string) {
    exists at :: 0 <= at < |before| && before[at].id == id && after == before[at := OneMoreBeat(before[at])]
  }

  /** The row of the id and payload has one more occurrence, or is new if there was none. */
  ghost predicate VariantCounted(before: seq<Variant>, after: seq<Variant>, id: string, payload: Payload,
                                 conflict: bool) {
    || (!HasVariant(before, id, payload) && after == before + [Variant(id, payload, conflict, 1)])
    || exists at :: 0 <= at < |before| && before[at].id == id && before[at].payload == payload
                    && after == before[at := OneMoreVariant(before[at])]
  }

  lemma VariantsKept(a: seq<Variant>, b: seq<Variant>)
    requires |a| <= |b| && forall i :: 0 <= i < |a| ==> b[i].id == a[i].id && b[i].payload == a[i].payload
    ensures forall id, p :: HasVariant(a, id, p) ==> HasVariant(b, id, p)
  {
    forall id, p | HasVariant(a, id, p) ensures HasVariant(b, id, p) {
      var i :| 0 <= i < |a| && a[i].id == id && a[i].payload == p;
      assert b[i].id == id && b[i].payload == p;
    }
  }

  lemma BeatsKept(a: seq<StoredBeat>, b: seq<StoredBeat>)
    requires |a| <= |b| && forall i :: 0 <= i < |a| ==> b[i].id == a[i].id
    ensures forall id :: HasBeat(a, id) ==> HasBeat(b, id)
  {
    forall id | HasBeat(a, id) ensures HasBeat(b, id) {
      var i :| 0 <= i < |a| && a[i].id == id;
      assert b[i].id == id;
    }
  }

  lemma NewBeat(rows: seq<StoredBeat>, id: string, payload: Payload)
    ensures var after := rows + [StoredBeat(id, payload, 1)];
            && BeatCount(after) == BeatCount(rows) + 1 && HasBeat(after, id)
            && forall i :: HasBeat(rows, i) ==> HasBeat(after, i)
  {
    var after := rows + [StoredBeat(id, payload, 1)];
    assert after[..|rows|] == rows;
    BeatsKept(rows, after);
    assert after[|rows|].id == id;
  }

  lemma OneOccurrence(l: Locale, read: seq<Beat>, b: Beat, id: string, payload: Payload)
    ensures Occurrences(l, read + [b], id, payload)
            == Occurrences(l, read, id, payload) + if b.id == id && PayloadOf(l, b) == payload then 1 else 0
  {
    assert (read + [b])[..|read|] == read;
    hide PayloadOf;
  }

  lemma {:induction false} NoOccurrence(l: Locale, read: seq<Beat>, id: string, payload: Payload)
    requires forall b :: b in read ==> !(b.id == id && PayloadOf(l, b) == payload)
    ensures Occurrences(l, read, id, payload) == 0
  {
    if read != [] {
      NoOccurrence(l, read[..|read| - 1], id, payload);
      assert read[|read| - 1] in read;
      hide PayloadOf;
    }
  }

  // ---- The variants after one more beat ----

  lemma VariantFitsNext(l: Locale, v: Variant, seen: map<string, Payload>, read: seq<Beat>, b: Beat)
    requires VariantFits(l, v, seen, read)
    ensures if b.id == v.id && PayloadOf(l, b) == v.payload then VariantFits(l, OneMoreVariant(v), seen, read + [b])
            else VariantFits(l, v, seen, read + [b])
  {
    OneOccurrence(l, read, b, v.id, v.payload);
    hide PayloadOf, Occurrences;
  }

  /** A beat whose id is known is counted in its variant. */
  lemma VariantsStep(l: Locale, before: seq<Variant>, after: seq<Variant>, seen: map<string, Payload>,
                     read: seq<Beat>, b: Beat, conflict: bool)
    requires VariantsFit(l, before, seen, read) && b.id in seen && (conflict <==> PayloadOf(l, b) != seen[b.id])
    requires VariantCounted(before, after, b.id, PayloadOf(l, b), conflict)
    ensures VariantsFit(l, after, seen, read + [b])
  {
    var payload := PayloadOf(l, b);
    hide *;
    if at :| 0 <= at < |before| && before[at].id == b.id && before[at].payload == payload
             && after == before[at := OneMoreVariant(before[at])] {
      VariantsBumped(l, before, seen, read, b, at);
    } else {
      NewVariant(before, after, b.id, payload, conflict);
      VariantsAdded(l, before, seen, read, b, conflict);
    }
  }

  lemma NewVariant(before: seq<Variant>, after: seq<Variant>, id: string, payload: Payload, conflict: bool)
    requires VariantCounted(before, after, id, payload, conflict)
    requires !exists at :: 0 <= at < |before| && before[at].id == id && before[at].payload == payload
                           && after == before[at := OneMoreVariant(before[at])]
    ensures !HasVariant(before, id, payload) && after == before + [Variant(id, payload, conflict, 1)]
  {
    hide HasVariant;
  }

  lemma SameVariants(a: seq<Variant>, b: seq<Variant>)
    requires |a| == |b| && forall i :: 0 <= i < |a| ==> b[i].id == a[i].id && b[i].payload == a[i].payload
    ensures VariantsDiffer(a) ==> VariantsDiffer(b)
  {
  }

  lemma VariantsBumped(l: Locale, before: seq<Variant>, seen: map<string, Payload>, read: seq<Beat>, b: Beat, at: nat)
    requires VariantsFit(l, before, seen, read)
    requires at < |before| && before[at].id == b.id && before[at].payload == PayloadOf(l, b)
    ensures VariantsFit(l, before[at := OneMoreVariant(before[at])], seen, read + [b])
  {
    var after := before[at := OneMoreVariant(before[at])];
    assert forall i :: 0 <= i < |before| && i != at ==>
             before[i] in before && !(before[i].id == b.id && before[i].payload == PayloadOf(l, b)) by {
      hide PayloadOf, VariantFits, HasVariant;
    }
    SameVariants(before, after);
    VariantsKept(before, after);
    assert HasVariant(after, b.id, PayloadOf(l, b)) by { assert after[at].id == b.id; }
    hide PayloadOf, HasVariant, VariantFits, VariantsDiffer, OneMoreVariant;
    forall v | v in after ensures VariantFits(l, v, seen, read + [b]) {
      var i :| 0 <= i < |after| && after[i] == v;
      VariantFitsNext(l, before[i], seen, read, b);
    }
  }

  lemma VariantsAdded(l: Locale, before: seq<Variant>, seen: map<string, Payload>, read: seq<Beat>, b: Beat,
                      conflict: bool)
    requires VariantsFit(l, before, seen, read) && b.id in seen && (conflict <==> PayloadOf(l, b) != seen[b.id])
    requires !HasVariant(before, b.id, PayloadOf(l, b))
    ensures VariantsFit(l, before + [Variant(b.id, PayloadOf(l, b), conflict, 1)], seen, read + [b])
  {
    var v := Variant(b.id, PayloadOf(l, b), conflict, 1);
    var after := before + [v];
    NewVariantFits(l, before, seen, read, b, v);
    assert forall i :: 0 <= i < |before| ==> !(before[i].id == b.id && before[i].payload == v.payload);
    assert VariantsDiffer(after);
    VariantsKept(before, after);
    assert HasVariant(after, b.id, v.payload) by { assert after[|before|].id == b.id; }
    hide PayloadOf, HasVariant, VariantFits, VariantsDiffer;
    forall x | x in before ensures VariantFits(l, x, seen, read + [b]) {
      var i :| 0 <= i < |before| && before[i] == x;
      VariantFitsNext(l, x, seen, read, b);
    }
  }

  lemma NewVariantFits(l: Locale, before: seq<Variant>, seen: map<string, Payload>, read: seq<Beat>,
                       b: Beat, v: Variant)
    requires VariantsFit(l, before, seen, read) && !HasVariant(before, b.id, PayloadOf(l, b))
    requires b.id in seen && v.id == b.id && v.payload == PayloadOf(l, b) && v.occurrences == 1
    requires v.conflict <==> v.payload != seen[b.id]
    ensures VariantFits(l, v, seen, read + [b])
  {
    hide PayloadOf, HasVariant, VariantFits, VariantsDiffer;
    forall x | x in read ensures !(x.id == b.id && PayloadOf(l, x) == v.payload) {
      assert HasVariant(before, x.id, PayloadOf(l, x));
    }
    NoOccurrence(l, read, b.id, v.payload);
    OneOccurrence(l, read, b, b.id, v.payload);
    assert VariantFits(l, v, seen, read + [b]) by { hide Occurrences; FitsIs(l, v, seen, read + [b]); }
  }

  lemma FitsIs(l: Locale, v: Variant, seen: map<string, Payload>, read: seq<Beat>)
    requires v.id in seen && (v.conflict <==> v.payload != seen[v.id])
    requires v.occurrences == Occurrences(l, read, v.id, v.payload)
    ensures VariantFits(l, v, seen, read)
  {
  }

  /** A first payload makes no conflict of the variants of other ids. */
  lemma VariantsKnow(l: Locale, variants: seq<Variant>, seen: map<string, Payload>, read: seq<Beat>, id: string,
                     payload: Payload)
    requires VariantsFit(l, variants, seen, read) && id !in seen
    ensures VariantsFit(l, variants, seen[id := payload], read)
  {
    hide PayloadOf, Occurrences, HasVariant, VariantsDiffer;
  }

  // ---- The heartbeats after one more beat ----

  lemma BeatFitsNext(l: Locale, x: StoredBeat, seen: map<string, Payload>, read: seq<Beat>, b: Beat)
    requires BeatFits(l, x, seen, read)
    ensures if b.id == x.id && PayloadOf(l, b) == x.payload then BeatFits(l, OneMoreBeat(x), seen, read + [b])
            else BeatFits(l, x, seen, read + [b])
  {
    OneOccurrence(l, read, b, x.id, x.payload);
    hide PayloadOf, Occurrences;
  }

  lemma SameIds(a: seq<StoredBeat>, b: seq<StoredBeat>)
    requires |a| == |b| && forall i :: 0 <= i < |a| ==> b[i].id == a[i].id
    ensures IdsDiffer(a) ==> IdsDiffer(b)
  {
  }

  /** A repeat of the first payload is counted in the heartbeat. */
  lemma BeatsRepeat(l: Locale, before: seq<StoredBeat>, after: seq<StoredBeat>, seen: map<string, Payload>,
                    read: seq<Beat>, b: Beat)
    requires BeatsFit(l, before, seen, read) && b.id in seen && PayloadOf(l, b) == seen[b.id]
    requires BeatCounted(before, after, b.id)
    ensures BeatsFit(l, after, seen, read + [b])
  {
    var at :| 0 <= at < |before| && before[at].id == b.id && after == before[at := OneMoreBeat(before[at])];
    assert before[at].payload == PayloadOf(l, b) by { assert before[at] in before; hide PayloadOf, Occurrences; }
    assert forall i :: 0 <= i < |before| && i != at ==> before[i].id != b.id by { hide PayloadOf, BeatFits, HasBeat; }
    SameIds(before, after);
    BeatsKept(before, after);
    hide PayloadOf, HasBeat, BeatFits, IdsDiffer, OneMoreBeat;
    forall x | x in after ensures BeatFits(l, x, seen, read + [b]) {
      var i :| 0 <= i < |after| && after[i] == x;
      assert before[i] in before;
      BeatFitsNext(l, before[i], seen, read, b);
    }
  }

  lemma SeenIsStored(l: Locale, beats: seq<StoredBeat>, seen: map<string, Payload>, read: seq<Beat>, id: string)
    requires BeatsFit(l, beats, seen, read) && id in seen
    ensures HasBeat(beats, id)
  {
    hide HasBeat, BeatFits, IdsDiffer;
  }

  /** A conflicting beat is not counted in the heartbeat. */
  lemma BeatsConflict(l: Locale, beats: seq<StoredBeat>, seen: map<string, Payload>, read: seq<Beat>, b: Beat)
    requires BeatsFit(l, beats, seen, read) && b.id in seen && PayloadOf(l, b) != seen[b.id]
    ensures BeatsFit(l, beats, seen, read + [b])
  {
    hide PayloadOf, Occurrences, HasBeat, IdsDiffer;
    forall x | x in beats ensures BeatFits(l, x, seen, read + [b]) {
      BeatFitsNext(l, x, seen, read, b);
    }
  }

  /** The first beat of an id starts a heartbeat. */
  lemma BeatsStart(l: Locale, before: seq<StoredBeat>, seen: map<string, Payload>, read: seq<Beat>, b: Beat)
    requires BeatsFit(l, before, seen, read) && SeenFits(l, seen, read) && b.id !in seen
    ensures BeatsFit(l, before + [StoredBeat(b.id, PayloadOf(l, b), 1)], seen[b.id := PayloadOf(l, b)], read + [b])
  {
    hide *;
    var x, known := StoredBeat(b.id, PayloadOf(l, b), 1), seen[b.id := PayloadOf(l, b)];
    NewBeatFits(l, seen, read, b);
    StillFit(l, before, seen, read, b);
    NewBeat(before, b.id, PayloadOf(l, b));
    StartFits(l, before, before + [x], seen, known, read, read + [b]);
  }

  lemma NewBeatFits(l: Locale, seen: map<string, Payload>, read: seq<Beat>, b: Beat)
    requires SeenFits(l, seen, read) && b.id !in seen
    ensures BeatFits(l, StoredBeat(b.id, PayloadOf(l, b), 1), seen[b.id := PayloadOf(l, b)], read + [b])
  {
    NeverRead(l, seen, read, b);
    OneOccurrence(l, read, b, b.id, PayloadOf(l, b));
    hide PayloadOf, Occurrences, SeenFits;
  }

  lemma NeverRead(l: Locale, seen: map<string, Payload>, read: seq<Beat>, b: Beat)
    requires SeenFits(l, seen, read) && b.id !in seen
    ensures Occurrences(l, read, b.id, PayloadOf(l, b)) == 0
  {
    hide PayloadOf, IsFirst;
    forall x | x in read ensures x.id != b.id {
      var i :| 0 <= i < |read| && read[i] == x;
    }
    NoOccurrence(l, read, b.id, PayloadOf(l, b));
  }

  lemma StillFit(l: Locale, beats: seq<StoredBeat>, seen: map<string, Payload>, read: seq<Beat>, b: Beat)
    requires BeatsFit(l, beats, seen, read) && b.id !in seen
    ensures forall x :: x in beats ==> x.id != b.id && BeatFits(l, x, seen[b.id := PayloadOf(l, b)], read + [b])
  {
    hide PayloadOf, Occurrences, HasBeat, IdsDiffer;
    forall x | x in beats ensures x.id != b.id && BeatFits(l, x, seen[b.id := PayloadOf(l, b)], read + [b]) {
      BeatFitsNext(l, x, seen, read, b);
    }
  }

  lemma StartFits(l: Locale, before: seq<StoredBeat>, after: seq<StoredBeat>, seen: map<string, Payload>,
                  known: map<string, Payload>, read: seq<Beat>, all: seq<Beat>)
    requires BeatsFit(l, before, seen, read) && |after| == |before| + 1 && after == before + [after[|before|]]
    requires BeatFits(l, after[|before|], known, all)
    requires forall x :: x in before ==> x.id != after[|before|].id && BeatFits(l, x, known, all)
    requires forall id :: id in known ==> id in seen || id == after[|before|].id
    requires HasBeat(after, after[|before|].id) && forall id :: HasBeat(before, id) ==> HasBeat(after, id)
    ensures BeatsFit(l, after, known, all)
  {
    hide PayloadOf, BeatFits, HasBeat;
    assert forall i :: 0 <= i < |before| ==> before[i] in before && after[i] == before[i];
  }
}
