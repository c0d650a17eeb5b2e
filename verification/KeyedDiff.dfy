/** Comparing two dumps of a resource record by record, matched by an identity field. */
module KeyedDiff {
  import opened Wire
  import opened Order
  import opened JsonTree
  import opened FieldDiff
  import opened IdentityNumbers

  datatype RecordRef = RecordRef(key: string, record: Record)

  datatype RecordChange = RecordChange(key: string, changes: seq<FieldChange>)

  datatype Diff = Diff(added: seq<RecordRef>, removed: seq<RecordRef>, changed: seq<RecordChange>)

  type Keyed = map<string, Record>

  function RefKeys(refs: seq<RecordRef>): (keys: seq<string>)
    ensures |keys| == |refs| && forall i :: 0 <= i < |refs| ==> keys[i] == refs[i].key
  {
    seq(|refs|, i requires 0 <= i < |refs| => refs[i].key)
  }

  function ChangeKeys(changes: seq<RecordChange>): (keys: seq<string>)
    ensures |keys| == |changes| && forall i :: 0 <= i < |changes| ==> keys[i] == changes[i].key
  {
    seq(|changes|, i requires 0 <= i < |changes| => changes[i].key)
  }

  /** The two records differ in some field. */
  ghost predicate RecordsDiffer(before: Record, after: Record, gate: string -> bool) {
    exists field: string :: field in before.Keys + after.Keys && !SameField(before, after, field, gate)
  }

  /** The references list, in order, the records with keys in one map and not in the other. */
  ghost predicate ListsExtra(refs: seq<RecordRef>, here: Keyed, there: Keyed) {
    && StrictlyAscending(RefKeys(refs))
    && (forall key: string :: key in RefKeys(refs) <==> key in here && key !in there)
    && forall i :: 0 <= i < |refs| ==> refs[i].key in here && refs[i].record == here[refs[i].key]
  }

  /** The changes list, in order, the records with keys in both maps that differ, with what differs. */
  ghost predicate ListsChanged(changes: seq<RecordChange>, before: Keyed, after: Keyed, gate: string -> bool) {
    && StrictlyAscending(ChangeKeys(changes))
    && (forall key: string :: key in ChangeKeys(changes) <==>
                                key in before && key in after && RecordsDiffer(before[key], after[key], gate))
    && forall i :: 0 <= i < |changes| ==>
                     && changes[i].key in before && changes[i].key in after
                     && IsFieldDiff(before[changes[i].key], after[changes[i].key], changes[i].changes, gate)
  }

  ghost predicate IsKeyedDiff(before: Keyed, after: Keyed, d: Diff, gate: string -> bool) {
    ListsExtra(d.added, after, before) && ListsExtra(d.removed, before, after)
        && ListsChanged(d.changed, before, after, gate)
  }

  lemma NoChangesIffAlike(before: Record, after: Record, changes: seq<FieldChange>, gate: string -> bool)
    requires IsFieldDiff(before, after, changes, gate)
    ensures changes == [] <==> !RecordsDiffer(before, after, gate)
  {
    if changes != [] {
      assert Fields(changes)[0] in Fields(changes);
    }
  }

  // ---------------------------------------------------------------- the comparison

  // The lists so far, when the first n keys have been looked at.

  ghost predicate ExtraSoFar(refs: seq<RecordRef>, keys: seq<string>, n: nat, here: Keyed, there: Keyed)
    requires n <= |keys|
  {
    && StrictlyAscending(RefKeys(refs))
    && (forall key: string :: key in RefKeys(refs) <==> key in keys[..n] && key in here && key !in there)
    && forall i :: 0 <= i < |refs| ==> refs[i].key in here && refs[i].record == here[refs[i].key]
  }

  ghost predicate ChangedSoFar(
    changes: seq<RecordChange>, keys: seq<string>, n: nat, before: Keyed, after: Keyed, gate: string -> bool)
    requires n <= |keys|
  {
    && StrictlyAscending(ChangeKeys(changes))
    && (forall key: string :: key in ChangeKeys(changes) <==>
          key in keys[..n] && key in before && key in after && RecordsDiffer(before[key], after[key], gate))
    && forall i :: 0 <= i < |changes| ==>
                     && changes[i].key in before && changes[i].key in after
                     && IsFieldDiff(before[changes[i].key], after[changes[i].key], changes[i].changes, gate)
  }

  lemma Appended(listed: seq<string>, keys: seq<string>, n: nat)
    requires StrictlyAscending(keys) && n < |keys|
    requires StrictlyAscending(listed) && forall key :: key in listed ==> key in keys[..n]
    ensures StrictlyAscending(listed + [keys[n]])
    ensures keys[..n + 1] == keys[..n] + [keys[n]]
  {
    forall i | 0 <= i < |listed|
      ensures Less(listed[i], keys[n])
    {
      assert listed[i] in keys[..n];
    }
  }

  lemma ExtraStep(refs: seq<RecordRef>, keys: seq<string>, n: nat, here: Keyed, there: Keyed)
    requires StrictlyAscending(keys) && n < |keys| && ExtraSoFar(refs, keys, n, here, there)
    ensures if keys[n] in here && keys[n] !in there
            then ExtraSoFar(refs + [RecordRef(keys[n], here[keys[n]])], keys, n + 1, here, there)
            else ExtraSoFar(refs, keys, n + 1, here, there)
  {
    Appended(RefKeys(refs), keys, n);
    if keys[n] in here && keys[n] !in there {
      assert RefKeys(refs + [RecordRef(keys[n], here[keys[n]])]) == RefKeys(refs) + [keys[n]];
    }
  }

  lemma ChangedStep(changes: seq<RecordChange>, keys: seq<string>, n: nat, before: Keyed, after: Keyed,
                    fields: seq<FieldChange>, gate: string -> bool)
    requires StrictlyAscending(keys) && n < |keys| && ChangedSoFar(changes, keys, n, before, after, gate)
    requires keys[n] in before && keys[n] in after ==> IsFieldDiff(before[keys[n]], after[keys[n]], fields, gate)
    ensures if keys[n] in before && keys[n] in after && fields != []
            then ChangedSoFar(changes + [RecordChange(keys[n], fields)], keys, n + 1, before, after, gate)
            else ChangedSoFar(changes, keys, n + 1, before, after, gate)
  {
    Appended(ChangeKeys(changes), keys, n);
    if keys[n] in before && keys[n] in after {
      NoChangesIffAlike(before[keys[n]], after[keys[n]], fields, gate);
      if fields != [] {
        assert ChangeKeys(changes + [RecordChange(keys[n], fields)]) == ChangeKeys(changes) + [keys[n]];
      }
    }
  }

  /** The comparison's loop, on records already keyed. */
  method CompareRecords(before: Keyed, after: Keyed, gate: string -> bool) returns (d: Diff)
    ensures IsKeyedDiff(before, after, d, gate)
  {
    var keys := SortedUnion(before.Keys, after.Keys);
    var added: seq<RecordRef>, removed: seq<RecordRef>, changed: seq<RecordChange> := [], [], [];
    for n := 0 to |keys|
      invariant ExtraSoFar(added, keys, n, after, before)
      invariant ExtraSoFar(removed, keys, n, before, after)
      invariant ChangedSoFar(changed, keys, n, before, after, gate)
    {
      var key := keys[n];
      assert key in keys;
      ExtraStep(added, keys, n, after, before);
      ExtraStep(removed, keys, n, before, after);
      var changes: seq<FieldChange> := [];
      if key !in before {
        added := added + [RecordRef(key, after[key])];
      } else if key !in after {
        removed := removed + [RecordRef(key, before[key])];
      } else {
        changes := DiffFields(before[key], after[key], gate);
      }
      ChangedStep(changed, keys, n, before, after, changes, gate);
      if |changes| > 0 {
        changed := changed + [RecordChange(key, changes)];
      }
    }
    assert keys[..|keys|] == keys;
    d := Diff(added, removed, changed);
  }

  // ---------------------------------------------------------------- keying

  /** How the program spells an identity: strings as they are, numbers by value, the rest as its
      formatting library does, which is a parameter. */
  function IdentityString(v: Json, gate: string -> bool, format: Json -> string): string {
    match v
    case Str(text) => text
    case Num(number) =>
      if Readable(number, gate) then IdentityText(number) else JsonNumber.NumberText(number)
    case _ => format(v)
  }

  /** The identity of a record, if it has one. */
  function IdentityOfRecord(record: Record, keyField: string, gate: string -> bool,
                            format: Json -> string): Option<string> {
    if Get(record, keyField) == Null || IdentityString(record[keyField], gate, format) == "" then None
    else Some(IdentityString(record[keyField], gate, format))
  }

  /** Every record has an identity of its own. */
  ghost predicate Identified(records: seq<Record>, ids: Record -> Option<string>) {
    && (forall i :: 0 <= i < |records| ==> ids(records[i]).Some?)
    && forall i, j :: 0 <= i < j < |records| ==> ids(records[i]) != ids(records[j])
  }

  ghost predicate IsKeying(records: seq<Record>, ids: Record -> Option<string>, operational: set<string>, ignore: bool,
                           m: Keyed) {
    && (forall i :: 0 <= i < |records| ==>
                      && ids(records[i]).Some? && ids(records[i]).value in m
                      && m[ids(records[i]).value] == Filtered(records[i], operational, ignore))
    && forall key :: key in m ==> exists i :: 0 <= i < |records| && ids(records[i]) == Some(key)
  }

  lemma KeyingStep(records: seq<Record>, record: Record, ids: Record -> Option<string>, operational: set<string>,
                   ignore: bool, m: Keyed)
    requires Identified(records, ids) && IsKeying(records, ids, operational, ignore, m)
    requires ids(record).Some? && ids(record).value !in m
    ensures Identified(records + [record], ids)
    ensures IsKeying(records + [record], ids, operational, ignore,
                     m[ids(record).value := Filtered(record, operational, ignore)])
  {
    var all, id := records + [record], ids(record);
    assert all[|records|] == record;
    forall key | key in m || key == id.value
      ensures exists i :: 0 <= i < |all| && ids(all[i]) == Some(key)
    {
      if key in m {
        var i :| 0 <= i < |records| && ids(records[i]) == Some(key);
        assert ids(all[i]) == Some(key);
      } else {
        assert ids(all[|records|]) == Some(key);
      }
    }
  }

  /** Keying succeeds exactly when every record has an identity of its own. */
  method KeyRecords(records: seq<Record>, ids: Record -> Option<string>, operational: set<string>, ignore: bool)
    returns (keyed: Option<Keyed>)
    ensures keyed.Some? <==> Identified(records, ids)
    ensures keyed.Some? ==> IsKeying(records, ids, operational, ignore, keyed.value)
  {
    var m: Keyed := map[];
    for n := 0 to |records|
      invariant Identified(records[..n], ids)
      invariant IsKeying(records[..n], ids, operational, ignore, m)
    {
      var id := ids(records[n]);
      if id.None? {
        assert !Identified(records, ids);
        return None;
      }
      if id.value in m {
        var i :| 0 <= i < n && ids(records[..n][i]) == id;
        assert ids(records[i]) == ids(records[n]);
        return None;
      }
      KeyingStep(records[..n], records[n], ids, operational, ignore, m);
      assert records[..n + 1] == records[..n] + [records[n]];
      m := m[id.value := Filtered(records[n], operational, ignore)];
    }
    assert records[..|records|] == records;
    return Some(m);
  }

  ghost predicate ComparesAs(before: seq<Record>, after: seq<Record>, ids: Record -> Option<string>,
                             operational: set<string>, ignore: bool, gate: string -> bool, o: Keyed, n: Keyed,
                             d: Diff)
  {
    IsKeying(before, ids, operational, ignore, o) && IsKeying(after, ids, operational, ignore, n)
        && IsKeyedDiff(o, n, d, gate)
  }

  /** The whole comparison of a keyed resource; None is an invalid dump. */
  method CompareKeyed(before: seq<Record>, after: seq<Record>, keyField: string, operational: set<string>, ignore: bool,
                      gate: string -> bool, format: Json -> string) returns (d: Option<Diff>)
    ensures var ids := (record: Record) => IdentityOfRecord(record, keyField, gate, format);
            && (d.Some? <==> Identified(before, ids) && Identified(after, ids))
            && (d.Some? ==> exists o: Keyed, n: Keyed ::
                              ComparesAs(before, after, ids, operational, ignore, gate, o, n, d.value))
  {
    var ids := (record: Record) => IdentityOfRecord(record, keyField, gate, format);
    var o := KeyRecords(before, ids, operational, ignore);
    if o.None? {
      return None;
    }
    var n := KeyRecords(after, ids, operational, ignore);
    if n.None? {
      return None;
    }
    var diff := CompareRecords(o.value, n.value, gate);
    assert ComparesAs(before, after, ids, operational, ignore, gate, o.value, n.value, diff);
    return Some(diff);
  }

  // ---------------------------------------------------------------- what a keyed diff is

  /** The diff is determined by the two keyed dumps. */
  lemma KeyedDiffIsUnique(before: Keyed, after: Keyed, d: Diff, d': Diff, gate: string -> bool)
    requires IsKeyedDiff(before, after, d, gate) && IsKeyedDiff(before, after, d', gate)
    ensures d == d'
  {
    ExtraIsUnique(d.added, d'.added, after, before);
    ExtraIsUnique(d.removed, d'.removed, before, after);
    StrictlyAscendingIsUnique(ChangeKeys(d.changed), ChangeKeys(d'.changed));
    forall i | 0 <= i < |d.changed|
      ensures d.changed[i] == d'.changed[i]
    {
      assert ChangeKeys(d.changed)[i] == ChangeKeys(d'.changed)[i];
      var key := d.changed[i].key;
      FieldDiffIsUnique(before[key], after[key], d.changed[i].changes, d'.changed[i].changes, gate);
    }
  }

  lemma ExtraIsUnique(refs: seq<RecordRef>, refs': seq<RecordRef>, here: Keyed, there: Keyed)
    requires ListsExtra(refs, here, there) && ListsExtra(refs', here, there)
    ensures refs == refs'
  {
    StrictlyAscendingIsUnique(RefKeys(refs), RefKeys(refs'));
    forall i | 0 <= i < |refs|
      ensures refs[i] == refs'[i]
    {
      assert RefKeys(refs)[i] == RefKeys(refs')[i];
    }
  }

  /** Added, removed and changed keys are pairwise disjoint. */
  lemma KeySetsAreDisjoint(before: Keyed, after: Keyed, d: Diff, gate: string -> bool, key: string)
    requires IsKeyedDiff(before, after, d, gate)
    ensures !(key in RefKeys(d.added) && key in RefKeys(d.removed))
    ensures !(key in RefKeys(d.added) && key in ChangeKeys(d.changed))
    ensures !(key in RefKeys(d.removed) && key in ChangeKeys(d.changed))
  {}

  /** The dumps have the same keys, and records that agree in every field. */
  ghost predicate SameDumps(before: Keyed, after: Keyed, gate: string -> bool) {
    before.Keys == after.Keys && forall key :: key in before ==> !RecordsDiffer(before[key], after[key], gate)
  }

  lemma EmptyIffSame(before: Keyed, after: Keyed, d: Diff, gate: string -> bool)
    requires IsKeyedDiff(before, after, d, gate)
    ensures d == Diff([], [], []) <==> SameDumps(before, after, gate)
  {
    if d.added != [] {
      assert RefKeys(d.added)[0] in RefKeys(d.added);
    }
    if d.removed != [] {
      assert RefKeys(d.removed)[0] in RefKeys(d.removed);
    }
    if d.changed != [] {
      assert ChangeKeys(d.changed)[0] in ChangeKeys(d.changed);
    }
    if d == Diff([], [], []) {
      forall key: string
        ensures key in before <==> key in after
        ensures key in before ==> !RecordsDiffer(before[key], after[key], gate)
      {
        assert key !in RefKeys(d.added) && key !in RefKeys(d.removed) && key !in ChangeKeys(d.changed);
      }
    }
  }

  function SwappedChanges(changes: seq<RecordChange>): (swapped: seq<RecordChange>)
    ensures |swapped| == |changes|
    ensures forall i :: 0 <= i < |changes| ==> swapped[i] == RecordChange(changes[i].key, Swapped(changes[i].changes))
  {
    seq(|changes|, i requires 0 <= i < |changes| => RecordChange(changes[i].key, Swapped(changes[i].changes)))
  }

  function SwappedDiff(d: Diff): Diff { Diff(d.removed, d.added, SwappedChanges(d.changed)) }

  lemma DifferIsSymmetric(before: Record, after: Record, gate: string -> bool)
    ensures RecordsDiffer(before, after, gate) <==> RecordsDiffer(after, before, gate)
  {
    forall field: string
      ensures SameField(before, after, field, gate) <==> SameField(after, before, field, gate)
    {
      SameFieldIsSymmetric(before, after, field, gate);
    }
  }

  /** Swapping the dumps swaps added with removed and old with new values. */
  lemma SwappingSwaps(before: Keyed, after: Keyed, d: Diff, gate: string -> bool)
    requires IsKeyedDiff(before, after, d, gate)
    ensures IsKeyedDiff(after, before, SwappedDiff(d), gate)
  {
    var swapped := SwappedChanges(d.changed);
    assert ChangeKeys(swapped) == ChangeKeys(d.changed);
    forall key: string | key in before && key in after
      ensures RecordsDiffer(before[key], after[key], gate) <==> RecordsDiffer(after[key], before[key], gate)
    {
      DifferIsSymmetric(before[key], after[key], gate);
    }
    forall i | 0 <= i < |swapped|
      ensures swapped[i].key in before && swapped[i].key in after
      ensures IsFieldDiff(after[swapped[i].key], before[swapped[i].key], swapped[i].changes, gate)
    {
      var change := d.changed[i];
      SwappedFieldDiff(before[change.key], after[change.key], change.changes, gate);
    }
  }

  // ---------------------------------------------------------------- the diff as a patch

  ghost function ChangesOf(changed: seq<RecordChange>, key: string): seq<FieldChange> {
    if key in ChangeKeys(changed) then
      var i :| 0 <= i < |changed| && ChangeKeys(changed)[i] == key;
      changed[i].changes
    else []
  }

  ghost function RecordOf(refs: seq<RecordRef>, key: string): Record
    requires key in RefKeys(refs)
  {
    var i :| 0 <= i < |refs| && RefKeys(refs)[i] == key;
    refs[i].record
  }

  /** Drop the removed records, set the changed fields of those that stay, put in the added ones. */
  ghost function PatchedDump(before: Keyed, d: Diff): Keyed {
    (map key | key in before && key !in RefKeys(d.removed) :: FieldDiff.Patched(before[key], ChangesOf(d.changed, key)))
    + (map key | key in RefKeys(d.added) :: RecordOf(d.added, key))
  }

  /** The diff turns the old dump into the new one, up to equal values and absent fields. */
  lemma KeyedDiffIsAPatch(before: Keyed, after: Keyed, d: Diff, gate: string -> bool)
    requires IsKeyedDiff(before, after, d, gate)
    ensures PatchedDump(before, d).Keys == after.Keys
    ensures forall key :: key in after ==> AlikeRecords(PatchedDump(before, d)[key], after[key], gate)
  {
    var patched := PatchedDump(before, d);
    forall key: string
      ensures key in patched <==> key in after
    {
    }
    forall key | key in after
      ensures AlikeRecords(patched[key], after[key], gate)
    {
      if key in before {
        StayingRecord(before, after, d, gate, key);
      } else {
        assert key in RefKeys(d.added);
        assert patched[key] == RecordOf(d.added, key) == after[key];
      }
    }
  }

  lemma StayingRecord(before: Keyed, after: Keyed, d: Diff, gate: string -> bool, key: string)
    requires IsKeyedDiff(before, after, d, gate) && key in before && key in after
    ensures AlikeRecords(FieldDiff.Patched(before[key], ChangesOf(d.changed, key)), after[key], gate)
  {
    if key in ChangeKeys(d.changed) {
      var i :| 0 <= i < |d.changed| && ChangeKeys(d.changed)[i] == key
            && ChangesOf(d.changed, key) == d.changed[i].changes;
      FieldDiffIsAPatch(before[key], after[key], d.changed[i].changes, gate);
    } else {
      forall field: string
        ensures Alike(Get(before[key], field), Get(after[key], field), gate)
      {
        if field in before[key].Keys + after[key].Keys {
          assert SameField(before[key], after[key], field, gate);
        }
      }
    }
  }

  // ---------------------------------------------------------------- absent and null

  /** At the top of a record an absent field and a null one compare as equal, but not in the hash of
      its content. */
  lemma AbsentIsNullButNotInTheHash(gate: string -> bool)
    ensures var absent: Record, explicit: Record := map[], map["a" := Null];
            && !RecordsDiffer(absent, explicit, gate)
            && CanonicalHashValue(Obj(absent), gate) != CanonicalHashValue(Obj(explicit), gate)
  {
    var absent: Record, explicit: Record := map[], map["a" := Null];
    assert Get(absent, "a") == Get(explicit, "a") == Null;
    assert "a" in CanonicalHashValue(Obj(explicit), gate).value.fields;
  }
}
