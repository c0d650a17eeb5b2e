/** What changed between two records, field by field; an absent field counts as null. */
module FieldDiff {
  import opened Order
  import opened JsonTree

  type Record = map<string, Json>

  /** The fields a comparison looks at. */
  function Filtered(record: Record, operational: set<string>, ignore: bool): (filtered: Record)
    ensures forall field :: field in filtered <==> field in record && !(ignore && field in operational)
    ensures forall field :: field in filtered ==> filtered[field] == record[field]
  {
    if ignore then record - operational else record
  }

  datatype FieldChange = FieldChange(field: string, before: Json, after: Json)

  function Get(record: Record, field: string): Json { if field in record then record[field] else Null }

  predicate SameField(before: Record, after: Record, field: string, gate: string -> bool) {
    JsonValuesEqual(Get(before, field), Get(after, field), gate)
  }

  function Fields(changes: seq<FieldChange>): (fields: seq<string>)
    ensures |fields| == |changes| && forall i :: 0 <= i < |changes| ==> fields[i] == changes[i].field
  {
    seq(|changes|, i requires 0 <= i < |changes| => changes[i].field)
  }

  /** The changes list, in order, exactly the fields that differ, with their values on both sides. */
  ghost predicate IsFieldDiff(before: Record, after: Record, changes: seq<FieldChange>, gate: string -> bool) {
    && StrictlyAscending(Fields(changes))
    && (forall i :: 0 <= i < |changes| ==>
                      changes[i] == FieldChange(changes[i].field, Get(before, changes[i].field),
                                                Get(after, changes[i].field)))
    && forall field: string :: field in Fields(changes) <==>
                                 field in before.Keys + after.Keys && !SameField(before, after, field, gate)
  }

  /** All elements of two sets, each once, in order. */
  method SortedUnion(a: set<string>, b: set<string>) returns (keys: seq<string>)
    ensures StrictlyAscending(keys) && forall key :: key in keys <==> key in a + b
  {
    var seen: set<string>, rest := {}, a;
    keys := [];
    while rest != {}
      invariant rest <= a && seen == a - rest
      invariant Order.Distinct(keys) && forall key :: key in keys <==> key in seen
      decreases |rest|
    {
      var key :| key in rest;
      rest := rest - {key};
      seen := seen + {key};
      keys := keys + [key];
    }
    rest := b;
    while rest != {}
      invariant rest <= b
      invariant Order.Distinct(keys) && forall key :: key in keys <==> key in a + (b - rest)
      decreases |rest|
    {
      var key :| key in rest;
      if key !in seen {
        assert key !in keys;
        keys := keys + [key];
      }
      rest := rest - {key};
    }
    keys := Sort(keys);
  }

  method DiffFields(before: Record, after: Record, gate: string -> bool) returns (changes: seq<FieldChange>)
    ensures IsFieldDiff(before, after, changes, gate)
  {
    var fields := SortedUnion(before.Keys, after.Keys);
    changes := [];
    for n := 0 to |fields|
      invariant StrictlyAscending(Fields(changes))
      invariant forall i :: 0 <= i < |changes| ==>
                  changes[i] == FieldChange(changes[i].field, Get(before, changes[i].field),
                                            Get(after, changes[i].field))
      invariant forall field: string :: field in Fields(changes) <==>
                  field in fields[..n] && !SameField(before, after, field, gate)
    {
      ghost var was := Fields(changes);
      var field := fields[n];
      if !JsonValuesEqual(Get(before, field), Get(after, field), gate) {
        changes := changes + [FieldChange(field, Get(before, field), Get(after, field))];
        assert Fields(changes) == was + [field];
        assert forall i :: 0 <= i < |was| ==> was[i] in fields[..n];
      }
      assert fields[..n + 1] == fields[..n] + [field];
    }
    assert fields[..|fields|] == fields;
  }

  /** The list is determined by the two records. */
  lemma FieldDiffIsUnique(
    before: Record, after: Record, changes: seq<FieldChange>, changes': seq<FieldChange>, gate: string -> bool)
    requires IsFieldDiff(before, after, changes, gate) && IsFieldDiff(before, after, changes', gate)
    ensures changes == changes'
  {
    StrictlyAscendingIsUnique(Fields(changes), Fields(changes'));
    forall i | 0 <= i < |changes|
      ensures changes[i] == changes'[i]
    {
      assert Fields(changes)[i] == Fields(changes')[i];
    }
  }

  function Swapped(changes: seq<FieldChange>): (swapped: seq<FieldChange>)
    ensures |swapped| == |changes|
    ensures forall i :: 0 <= i < |changes| ==>
                          swapped[i] == FieldChange(changes[i].field, changes[i].after, changes[i].before)
  {
    seq(|changes|, i requires 0 <= i < |changes| => FieldChange(changes[i].field, changes[i].after, changes[i].before))
  }

  lemma SameFieldIsSymmetric(before: Record, after: Record, field: string, gate: string -> bool)
    ensures SameField(before, after, field, gate) <==> SameField(after, before, field, gate)
  {
    EqualityIsEquivalence(Get(before, field), Get(after, field), Null, gate);
  }

  lemma SwappedFieldDiff(before: Record, after: Record, changes: seq<FieldChange>, gate: string -> bool)
    requires IsFieldDiff(before, after, changes, gate)
    ensures IsFieldDiff(after, before, Swapped(changes), gate)
  {
    assert Fields(Swapped(changes)) == Fields(changes);
    forall field: string
      ensures SameField(before, after, field, gate) <==> SameField(after, before, field, gate)
    {
      SameFieldIsSymmetric(before, after, field, gate);
    }
  }

  /** Setting the changed fields to their new values. */
  function Patched(record: Record, changes: seq<FieldChange>): Record {
    if changes == [] then record
    else
      var last := changes[|changes| - 1];
      Patched(record, changes[..|changes| - 1])[last.field := last.after]
  }

  /** The same value, or one that compares as equal. */
  predicate Alike(a: Json, b: Json, gate: string -> bool) { a == b || JsonValuesEqual(a, b, gate) }

  /** Every field of either record has alike values in both, null where it is absent. */
  ghost predicate AlikeRecords(a: Record, b: Record, gate: string -> bool) {
    forall field: string :: Alike(Get(a, field), Get(b, field), gate)
  }

  lemma {:induction false} PatchedFields(record: Record, changes: seq<FieldChange>, field: string)
    requires StrictlyAscending(Fields(changes))
    ensures field !in Fields(changes) ==> Get(Patched(record, changes), field) == Get(record, field)
    ensures forall i :: 0 <= i < |changes| && changes[i].field == field ==>
                          Get(Patched(record, changes), field) == changes[i].after
  {
    if changes != [] {
      var n := |changes| - 1;
      var init := changes[..n];
      assert Fields(changes) == Fields(init) + [changes[n].field];
      PatchedFields(record, init, field);
      forall i | 0 <= i < n
        ensures changes[i].field != changes[n].field
      {
        LessIsTotal(Fields(changes)[i], Fields(changes)[n]);
      }
    }
  }

  /** The changes turn the old record into the new one, up to equal values and absent fields. */
  lemma FieldDiffIsAPatch(before: Record, after: Record, changes: seq<FieldChange>, gate: string -> bool)
    requires IsFieldDiff(before, after, changes, gate)
    ensures AlikeRecords(Patched(before, changes), after, gate)
  {
    forall field: string
      ensures Alike(Get(Patched(before, changes), field), Get(after, field), gate)
    {
      PatchedFields(before, changes, field);
      if field in Fields(changes) {
        var i :| 0 <= i < |changes| && Fields(changes)[i] == field;
        assert changes[i].field == field;
      } else if field !in before.Keys + after.Keys {
        assert Get(before, field) == Get(after, field);
      }
    }
  }
}
