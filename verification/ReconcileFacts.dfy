/** What one reconciliation does to the rows, allocations and evidence of its date. */
module ReconcileFacts {
  import opened Options
  import opened SummaryDay
  import opened ArchiveModel
  import opened Reconcile

  // ---- Upserting ----

  ghost predicate Distinct<T(!new)>(s: seq<T>) {
    forall i, j :: 0 <= i < j < |s| ==> s[i] != s[j]
  }

  ghost predicate InsertsTwice(archived: set<Key>, keys: seq<Key>) {
    exists i, j :: 0 <= i < j < |keys| && keys[i] == keys[j] && keys[i] !in archived
  }

  /** The unique index refuses exactly the summaries that insert one key twice. */
  lemma {:induction false} UpsertFailsIff(w: Work, keys: seq<Key>, slices: seq<NormalizedSlice>, version: nat)
    requires |keys| == |slices|
    ensures UpsertAll(w, keys, slices, version).None? <==> InsertsTwice(w.rows.Keys, keys)
  {
    if keys != [] {
      var n := |keys| - 1;
      UpsertFailsIff(w, keys[..n], slices[..n], version);
      var before := UpsertAll(w, keys[..n], slices[..n], version);
      if before.None? {
        var i, j :| 0 <= i < j < |keys[..n]| && keys[..n][i] == keys[..n][j] && keys[..n][i] !in w.rows.Keys;
        assert keys[i] == keys[j];
      } else {
        UpsertedKeys(w, keys[..n], slices[..n], version);
        hide UpsertAll, Written;
        TwiceAtTheEnd(w.rows.Keys, keys);
        UpsertAllLast(w, keys, slices, version);
      }
    }
  }

  lemma UpsertAllLast(w: Work, keys: seq<Key>, slices: seq<NormalizedSlice>, version: nat)
    requires |keys| == |slices| && keys != []
    ensures var n := |keys| - 1;
            UpsertAll(w, keys, slices, version)
            == var before := UpsertAll(w, keys[..n], slices[..n], version);
               if before.None? then None else Upsert(w.rows.Keys, before.value, keys[n], slices[n], version)
  {
    hide Upsert;
  }

  lemma TwiceAtTheEnd(archived: set<Key>, keys: seq<Key>)
    requires keys != []
    ensures var n := |keys| - 1;
            InsertsTwice(archived, keys) <==>
                InsertsTwice(archived, keys[..n]) || (keys[n] !in archived && keys[n] in keys[..n])
  {
    var n := |keys| - 1;
    if InsertsTwice(archived, keys[..n]) {
      var i, j :| 0 <= i < j < |keys[..n]| && keys[..n][i] == keys[..n][j] && keys[..n][i] !in archived;
      assert keys[i] == keys[j];
    }
    if keys[n] !in archived && keys[n] in keys[..n] {
      var i :| 0 <= i < n && keys[..n][i] == keys[n];
      assert keys[i] == keys[n];
    }
    if InsertsTwice(archived, keys) {
      var i, j :| 0 <= i < j < |keys| && keys[i] == keys[j] && keys[i] !in archived;
      if j < n { assert keys[..n][i] == keys[..n][j]; } else { assert keys[..n][i] == keys[n]; }
    }
  }

  /** Rows before the call keep their ids; inserted rows get new ones, no two alike. */
  ghost predicate IdsKept(before: Work, after: Work) {
    && before.nextId <= after.nextId
    && (forall k :: k in before.rows ==> k in after.rows && after.rows[k].id == before.rows[k].id)
    && (forall k :: k in after.rows && k !in before.rows ==> before.nextId <= after.rows[k].id < after.nextId)
    && (forall k, l :: k in after.rows && l in after.rows && k !in before.rows && l !in before.rows && k != l ==>
       after.rows[k].id != after.rows[l].id)
  }

  lemma {:induction false} UpsertKeepsIds(w: Work, keys: seq<Key>, slices: seq<NormalizedSlice>, version: nat)
    requires |keys| == |slices| && UpsertAll(w, keys, slices, version).Some?
    ensures IdsKept(w, UpsertAll(w, keys, slices, version).value)
  {
    if keys != [] {
      var n := |keys| - 1;
      UpsertKeepsIds(w, keys[..n], slices[..n], version);
      var before, after := UpsertAll(w, keys[..n], slices[..n], version).value,
          UpsertAll(w, keys, slices, version).value;
      UpsertAllLast(w, keys, slices, version);
      hide UpsertAll;
      UpsertStepKeepsIds(w, before, after, keys[n], slices[n], version);
    }
  }

  lemma UpsertStepKeepsIds(w: Work, before: Work, after: Work, k: Key, s: NormalizedSlice, version: nat)
    requires IdsKept(w, before) && Upsert(w.rows.Keys, before, k, s, version) == Some(after)
    ensures IdsKept(w, after)
  {
  }

  /** With distinct keys every incoming slice is the content of its row; other rows are as before. */
  ghost predicate RowsHold(before: Work, after: Work, keys: seq<Key>, slices: seq<NormalizedSlice>, version: nat)
    requires |keys| == |slices|
  {
    && (forall i :: 0 <= i < |keys| ==>
       keys[i] in after.rows && after.rows[keys[i]] == Written(after.rows[keys[i]].id, slices[i], version))
    && (forall k :: k in before.rows && k !in keys ==> k in after.rows && after.rows[k] == before.rows[k])
  }

  lemma {:induction false} UpsertHolds(w: Work, keys: seq<Key>, slices: seq<NormalizedSlice>, version: nat)
    requires |keys| == |slices| && Distinct(keys)
    ensures UpsertAll(w, keys, slices, version).Some?
            && RowsHold(w, UpsertAll(w, keys, slices, version).value, keys, slices, version)
  {
    UpsertFailsIff(w, keys, slices, version);
    if keys != [] {
      var n := |keys| - 1;
      UpsertHolds(w, keys[..n], slices[..n], version);
      var before, after := UpsertAll(w, keys[..n], slices[..n], version).value,
          UpsertAll(w, keys, slices, version).value;
      UpsertAllLast(w, keys, slices, version);
      hide UpsertAll;
      forall i | 0 <= i < n ensures keys[i] != keys[n] && keys[..n][i] == keys[i] && slices[..n][i] == slices[i] {}
      hide Distinct;
      UpsertStepHolds(w, before, after, keys, slices, version);
    }
  }

  lemma UpsertStepHolds(w: Work, before: Work, after: Work, keys: seq<Key>, slices: seq<NormalizedSlice>, version: nat)
    requires |keys| == |slices| && keys != []
    requires var n := |keys| - 1;
             && (forall i :: 0 <= i < n ==> keys[i] != keys[n])
             && RowsHold(w, before, keys[..n], slices[..n], version)
             && Upsert(w.rows.Keys, before, keys[n], slices[n], version) == Some(after)
    ensures RowsHold(w, after, keys, slices, version)
  {
    var n := |keys| - 1;
    hide Written;
    assert after.rows[keys[n]] == Written(after.rows[keys[n]].id, slices[n], version) by {
      WrittenId(slices[n], version);
    }
    forall i | 0 <= i < n ensures keys[i] in after.rows
        && after.rows[keys[i]] == Written(after.rows[keys[i]].id, slices[i], version) {
      assert keys[i] == keys[..n][i] && slices[i] == slices[..n][i];
    }
    assert keys == keys[..n] + [keys[n]];
  }

  lemma WrittenId(s: NormalizedSlice, version: nat)
    ensures forall id: nat :: Written(id, s, version).id == id
  {
  }

  /** No later position has the same key. */
  ghost predicate IsLast(keys: seq<Key>, i: nat) {
    i < |keys| && forall j :: i < j < |keys| ==> keys[j] != keys[i]
  }

  /** Distinct or not, the last slice of a key is the content of its row. */
  ghost predicate RowsHoldLast(rows: map<Key, SliceRow>, keys: seq<Key>, slices: seq<NormalizedSlice>, version: nat) {
    forall i :: 0 <= i < |keys| && i < |slices| && IsLast(keys, i) ==>
        keys[i] in rows && rows[keys[i]] == Written(rows[keys[i]].id, slices[i], version)
  }

  lemma {:induction false} UpsertHoldsLast(w: Work, keys: seq<Key>, slices: seq<NormalizedSlice>, version: nat)
    requires |keys| == |slices| && UpsertAll(w, keys, slices, version).Some?
    ensures RowsHoldLast(UpsertAll(w, keys, slices, version).value.rows, keys, slices, version)
  {
    if keys != [] {
      var n := |keys| - 1;
      UpsertHoldsLast(w, keys[..n], slices[..n], version);
      var before, after := UpsertAll(w, keys[..n], slices[..n], version).value,
          UpsertAll(w, keys, slices, version).value;
      UpsertAllLast(w, keys, slices, version);
      hide UpsertAll;
      UpsertStepHoldsLast(w, before, after, keys, slices, version);
    }
  }

  lemma UpsertStepHoldsLast(w: Work, before: Work, after: Work, keys: seq<Key>, slices: seq<NormalizedSlice>,
                            version: nat)
    requires |keys| == |slices| && keys != []
    requires var n := |keys| - 1;
             RowsHoldLast(before.rows, keys[..n], slices[..n], version)
                 && Upsert(w.rows.Keys, before, keys[n], slices[n], version) == Some(after)
    ensures RowsHoldLast(after.rows, keys, slices, version)
  {
    var n := |keys| - 1;
    hide Written;
    forall i | 0 <= i < |keys| && IsLast(keys, i)
      ensures keys[i] in after.rows && after.rows[keys[i]] == Written(after.rows[keys[i]].id, slices[i], version)
    {
      WrittenId(slices[n], version);
      if i < n {
        assert keys[i] != keys[n];
        assert IsLast(keys[..n], i) by { assert forall j :: i < j < n ==> keys[..n][j] == keys[j]; }
      }
    }
  }

  // ---- Finding the slice of an allocation ----

  lemma {:induction false} SecondsForIs(keys: seq<Key>, slices: seq<NormalizedSlice>, k: Key)
    requires |keys| == |slices|
    ensures SecondsFor(keys, slices, k).None? <==> k !in keys
    ensures Distinct(keys) ==> forall i :: 0 <= i < |keys| && keys[i] == k ==>
            SecondsFor(keys, slices, k) == Some(slices[i].seconds)
  {
    if keys != [] {
      assert keys == [keys[0]] + keys[1..];
      SecondsForIs(keys[1..], slices[1..], k);
      if Distinct(keys) {
        assert Distinct(keys[1..]);
        forall i | 0 <= i < |keys| && keys[i] == k ensures SecondsFor(keys, slices, k) == Some(slices[i].seconds) {
          if i > 0 {
            assert keys[0] != keys[i] && keys[1..][i - 1] == k;
          }
        }
      }
    }
  }

  /** With distinct keys the row of an allocation carries the seconds found for it, so the database refuses none. */
  lemma NoTriggerFires(w: Work, after: Work, keys: seq<Key>, slices: seq<NormalizedSlice>, version: nat, a: Allocation)
    requires |keys| == |slices| && Distinct(keys) && RowsHold(w, after, keys, slices, version)
    ensures var seconds := SecondsFor(keys, slices, a.key);
            && !RefusedByTrigger(after.rows, a, seconds)
            && (seconds.Some? <==> a.key in keys)
            && (seconds.Some? ==> a.key in after.rows && after.rows[a.key].seconds == seconds.value)
  {
    SecondsForIs(keys, slices, a.key);
    if a.key in keys {
      var i :| 0 <= i < |keys| && keys[i] == a.key;
      assert after.rows[keys[i]] == Written(after.rows[keys[i]].id, slices[i], version);
    }
  }

  /** An allocation agrees with the rows: active exactly when its slice exists, with the seconds of the slice. */
  predicate Fits(rows: map<Key, SliceRow>, a: Allocation) {
    && (a.active <==> a.key in rows)
    && (a.active && a.key in rows ==> Abs(a.seconds - rows[a.key].seconds) <= TOLERANCE)
  }

  lemma OverlaidFits(rows: map<Key, SliceRow>, a: Allocation, seconds: Option<real>)
    requires seconds.Some? <==> a.key in rows
    requires seconds.Some? ==> rows[a.key].seconds == seconds.value
    ensures Fits(rows, Overlaid(a, seconds))
  {
  }

  /** An overlay never touches identity, slice key or classification. */
  lemma OverlaidKeeps(a: Allocation, seconds: Option<real>)
    ensures Overlaid(a, seconds).id == a.id && Overlaid(a, seconds).key == a.key
            && Overlaid(a, seconds).choice == a.choice
  {
  }

  // ---- Evidence ----

  /** Observations are immutable: what is stored keeps its hash, and all ids of the list end up stored. */
  lemma {:induction false} StoredKeeps(stored: map<string, string>, beats: seq<Beat>)
    ensures forall id :: id in stored ==> id in Stored(stored, beats) && Stored(stored, beats)[id] == stored[id]
    ensures Stored(stored, beats).Keys == stored.Keys + Ids(beats)
  {
    if beats != [] {
      var n := |beats| - 1;
      StoredKeeps(stored, beats[..n]);
      assert beats == beats[..n] + [beats[n]];
      assert Ids(beats) == Ids(beats[..n]) + {beats[n].id};
    }
  }
}
