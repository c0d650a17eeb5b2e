/** Decoded JSON values, their equality, and the canonical form their content hash is taken of. */
module JsonTree {
  import opened Wire
  import opened JsonNumber
  import opened CanonicalNumbers

  /** Numbers keep their lexeme. */
  datatype Json =
    | Null
    | Bool(value: bool)
    | Str(text: string)
    | Num(number: Number)
    | Arr(items: seq<Json>)
    | Obj(fields: map<string, Json>)

  /** Numbers whose lexeme can be made canonical: it is a number, and floating point can hold its range. */
  predicate Readable(n: Number, gate: string -> bool) { ValidNumber(n) && gate(NumberText(n)) }

  /** The canonical form, or None where a number has none. */
  function CanonicalHashValue(v: Json, gate: string -> bool): Option<Json>
    decreases v
  {
    match v
    case Num(number) => if Readable(number, gate) then Some(Num(CanonicalOf(number))) else None
    case Arr(items) =>
      if forall i :: 0 <= i < |items| ==> CanonicalHashValue(items[i], gate).Some? then
        Some(Arr(seq(|items|, i requires 0 <= i < |items| && CanonicalHashValue(items[i], gate).Some? =>
          CanonicalHashValue(items[i], gate).value)))
      else None
    case Obj(fields) =>
      if forall key :: key in fields ==> CanonicalHashValue(fields[key], gate).Some? then
        Some(Obj(map key | key in fields :: CanonicalHashValue(fields[key], gate).value))
      else None
    case _ => Some(v)
  }

  /** Structural equality with numbers compared by canonical text. */
  predicate JsonValuesEqual(left: Json, right: Json, gate: string -> bool)
    decreases left
  {
    match left
    case Num(number) =>
      && right.Num? && Readable(number, gate) && Readable(right.number, gate)
      && CanonicalText(number) == CanonicalText(right.number)
    case Arr(items) =>
      && right.Arr? && |items| == |right.items|
      && forall i :: 0 <= i < |items| ==> JsonValuesEqual(items[i], right.items[i], gate)
    case Obj(fields) =>
      && right.Obj? && |fields| == |right.fields|
      && forall key :: key in fields ==>
                         key in right.fields && JsonValuesEqual(fields[key], right.fields[key], gate)
    case _ => left == right
  }

  lemma SameSizeSameKeys(m: map<string, Json>, n: map<string, Json>)
    requires |m| == |n| && forall key :: key in m ==> key in n
    ensures m.Keys == n.Keys
  {
    assert m.Keys <= n.Keys;
    if m.Keys != n.Keys {
      var extra :| extra in n.Keys && extra !in m.Keys;
      assert m.Keys <= n.Keys - {extra};
      Smaller(m.Keys, n.Keys - {extra});
    }
  }

  lemma {:induction false} Smaller(a: set<string>, b: set<string>)
    requires a <= b
    ensures |a| <= |b|
  {
    if a != {} {
      var x :| x in a;
      Smaller(a - {x}, b - {x});
    }
  }

  /** Comparing values is comparing the canonical forms their hashes are taken of; a value whose numbers
      cannot be made canonical equals nothing, itself included. */
  lemma {:induction false} EqualIffSameCanonical(left: Json, right: Json, gate: string -> bool)
    ensures JsonValuesEqual(left, right, gate) <==>
              CanonicalHashValue(left, gate).Some? && CanonicalHashValue(left, gate) == CanonicalHashValue(right, gate)
    decreases left, 1
  {
    match left
    case Num(number) =>
      if right.Num? && Readable(number, gate) && Readable(right.number, gate) {
        SameTextIffSameCanonical(number, right.number);
      }
    case Arr(items) =>
      if right.Arr? {
        ArraysEqual(items, right.items, gate);
      }
    case Obj(fields) =>
      if right.Obj? {
        ObjectsEqual(fields, right.fields, gate);
      }
    case _ =>
  }

  lemma SameTextIffSameCanonical(n: Number, n': Number)
    requires ValidNumber(n) && ValidNumber(n')
    ensures CanonicalText(n) == CanonicalText(n') <==> CanonicalOf(n) == CanonicalOf(n')
  {
    if CanonicalText(n) == CanonicalText(n') {
      TextIsUnique(CanonicalOf(n), CanonicalOf(n'));
    }
  }

  lemma {:induction false} ArraysEqual(items: seq<Json>, items': seq<Json>, gate: string -> bool)
    ensures JsonValuesEqual(Arr(items), Arr(items'), gate) <==>
              && CanonicalHashValue(Arr(items), gate).Some?
              && CanonicalHashValue(Arr(items), gate) == CanonicalHashValue(Arr(items'), gate)
    decreases Arr(items), 0
  {
    forall i | 0 <= i < |items| && i < |items'|
      ensures JsonValuesEqual(items[i], items'[i], gate) <==>
                && CanonicalHashValue(items[i], gate).Some?
                && CanonicalHashValue(items[i], gate) == CanonicalHashValue(items'[i], gate)
    {
      EqualIffSameCanonical(items[i], items'[i], gate);
    }
    var c, c' := CanonicalHashValue(Arr(items), gate), CanonicalHashValue(Arr(items'), gate);
    if JsonValuesEqual(Arr(items), Arr(items'), gate) {
      assert c.Some? && c'.Some?;
      assert c.value.items == c'.value.items;
    }
    if c.Some? && c == c' {
      assert |c.value.items| == |items| && |c'.value.items| == |items'|;
      forall i | 0 <= i < |items|
        ensures CanonicalHashValue(items[i], gate) == CanonicalHashValue(items'[i], gate)
      {
        assert c.value.items[i] == c'.value.items[i];
      }
    }
  }

  lemma {:induction false} ObjectsEqual(fields: map<string, Json>, fields': map<string, Json>, gate: string -> bool)
    ensures JsonValuesEqual(Obj(fields), Obj(fields'), gate) <==>
              && CanonicalHashValue(Obj(fields), gate).Some?
              && CanonicalHashValue(Obj(fields), gate) == CanonicalHashValue(Obj(fields'), gate)
    decreases Obj(fields), 0
  {
    forall key | key in fields && key in fields'
      ensures JsonValuesEqual(fields[key], fields'[key], gate) <==>
                && CanonicalHashValue(fields[key], gate).Some?
                && CanonicalHashValue(fields[key], gate) == CanonicalHashValue(fields'[key], gate)
    {
      EqualIffSameCanonical(fields[key], fields'[key], gate);
    }
    var c, c' := CanonicalHashValue(Obj(fields), gate), CanonicalHashValue(Obj(fields'), gate);
    if JsonValuesEqual(Obj(fields), Obj(fields'), gate) {
      SameSizeSameKeys(fields, fields');
      assert c.Some? && c'.Some?;
      assert c.value.fields == c'.value.fields;
    }
    if c.Some? && c == c' {
      assert c.value.fields.Keys == fields.Keys && c'.value.fields.Keys == fields'.Keys;
      assert |fields| == |fields.Keys| && |fields'| == |fields'.Keys|;
      forall key | key in fields
        ensures CanonicalHashValue(fields[key], gate) == CanonicalHashValue(fields'[key], gate)
      {
        assert c.value.fields[key] == c'.value.fields[key];
      }
    }
  }

  /** Equality is an equivalence of the values that have a canonical form, and holds of no others. */
  lemma EqualityIsEquivalence(a: Json, b: Json, c: Json, gate: string -> bool)
    ensures JsonValuesEqual(a, a, gate) <==> CanonicalHashValue(a, gate).Some?
    ensures JsonValuesEqual(a, b, gate) <==> JsonValuesEqual(b, a, gate)
    ensures JsonValuesEqual(a, b, gate) && JsonValuesEqual(b, c, gate) ==> JsonValuesEqual(a, c, gate)
  {
    EqualIffSameCanonical(a, a, gate);
    EqualIffSameCanonical(a, b, gate);
    EqualIffSameCanonical(b, a, gate);
    EqualIffSameCanonical(b, c, gate);
    EqualIffSameCanonical(a, c, gate);
  }

  /** The canonical form of a value equals the value, so hashing it forgets nothing but spelling,
      provided the range gate looks at values only. */
  lemma {:induction false} CanonicalIsStable(v: Json, gate: string -> bool)
    requires CanonicalHashValue(v, gate).Some?
    requires forall n: Number :: ValidNumber(n) && gate(NumberText(n)) ==> gate(CanonicalText(n))
    ensures CanonicalHashValue(CanonicalHashValue(v, gate).value, gate) == CanonicalHashValue(v, gate)
    decreases v
  {
    var c := CanonicalHashValue(v, gate).value;
    match v
    case Num(number) =>
      CanonicalKeepsForm(number);
    case Arr(items) =>
      forall i | 0 <= i < |items|
        ensures CanonicalHashValue(c.items[i], gate) == Some(c.items[i])
      {
        CanonicalIsStable(items[i], gate);
      }
      assert CanonicalHashValue(c, gate).value.items == c.items;
    case Obj(fields) =>
      forall key | key in fields
        ensures CanonicalHashValue(c.fields[key], gate) == Some(c.fields[key])
      {
        CanonicalIsStable(fields[key], gate);
      }
      assert CanonicalHashValue(c, gate).value.fields == c.fields;
    case _ =>
  }

  // ---------------------------------------------------------------- what equality and canonical form mean

  /** Every number in the value is one, and passes the gate. */
  predicate AllNumbersPass(v: Json, gate: string -> bool)
    decreases v
  {
    match v
    case Num(number) => ValidNumber(number) && gate(NumberText(number))
    case Arr(items) => forall i :: 0 <= i < |items| ==> AllNumbersPass(items[i], gate)
    case Obj(fields) => forall key :: key in fields ==> AllNumbersPass(fields[key], gate)
    case Null => true
    case Bool(_) => true
    case Str(_) => true
  }

  /** The same JSON value: numbers are what they denote, objects have no order, and nothing else is the same. */
  predicate SameJson(v: Json, w: Json)
    decreases v
  {
    match v
    case Null => w.Null?
    case Bool(value) => w.Bool? && (value <==> w.value)
    case Str(text) => w.Str? && text == w.text
    case Num(number) =>
      w.Num? && ValidNumber(number) && ValidNumber(w.number) && SameValue(number, w.number)
    case Arr(items) =>
      w.Arr? && |items| == |w.items| && forall i :: 0 <= i < |items| ==> SameJson(items[i], w.items[i])
    case Obj(fields) =>
      w.Obj? && fields.Keys == w.fields.Keys && forall key :: key in fields ==> SameJson(fields[key], w.fields[key])
  }

  /** A value has a canonical form exactly when all its numbers pass, and the form is the same value. */
  lemma {:induction false} CanonicalIsSame(v: Json, gate: string -> bool)
    ensures CanonicalHashValue(v, gate).Some? <==> AllNumbersPass(v, gate)
    ensures AllNumbersPass(v, gate) ==> SameJson(CanonicalHashValue(v, gate).value, v)
    decreases v
  {
    match v
    case Num(number) =>
      if ValidNumber(number) {
        CanonicalKeepsValue(number);
      }
    case Arr(items) =>
      forall i | 0 <= i < |items|
        ensures CanonicalHashValue(items[i], gate).Some? <==> AllNumbersPass(items[i], gate)
        ensures AllNumbersPass(items[i], gate) ==> SameJson(CanonicalHashValue(items[i], gate).value, items[i])
      {
        CanonicalIsSame(items[i], gate);
      }
    case Obj(fields) =>
      forall key | key in fields
        ensures CanonicalHashValue(fields[key], gate).Some? <==> AllNumbersPass(fields[key], gate)
        ensures AllNumbersPass(fields[key], gate) ==> SameJson(CanonicalHashValue(fields[key], gate).value, fields[key])
      {
        CanonicalIsSame(fields[key], gate);
      }
    case _ =>
  }

  /** Values compare as equal exactly when they are the same value and all their numbers pass. */
  lemma {:induction false} EqualIffSameJson(v: Json, w: Json, gate: string -> bool)
    ensures JsonValuesEqual(v, w, gate) <==> AllNumbersPass(v, gate) && AllNumbersPass(w, gate) && SameJson(v, w)
    decreases v, 1
  {
    match v
    case Num(number) =>
      if w.Num? && ValidNumber(number) && ValidNumber(w.number) {
        SameTextIffSameValue(number, w.number);
      }
    case Arr(items) =>
      if w.Arr? && |items| == |w.items| {
        forall i | 0 <= i < |items|
          ensures JsonValuesEqual(items[i], w.items[i], gate)
             <==> AllNumbersPass(items[i], gate) && AllNumbersPass(w.items[i], gate) && SameJson(items[i], w.items[i])
        {
          EqualIffSameJson(items[i], w.items[i], gate);
        }
      }
    case Obj(fields) =>
      if w.Obj? {
        FieldsEqualIff(fields, w.fields, gate);
      }
    case _ =>
  }

  lemma {:induction false} FieldsEqualIff(fields: map<string, Json>, fields': map<string, Json>, gate: string -> bool)
    ensures JsonValuesEqual(Obj(fields), Obj(fields'), gate)
       <==> AllNumbersPass(Obj(fields), gate) && AllNumbersPass(Obj(fields'), gate)
            && SameJson(Obj(fields), Obj(fields'))
    decreases Obj(fields), 0
  {
    forall key | key in fields && key in fields'
      ensures JsonValuesEqual(fields[key], fields'[key], gate)
         <==> AllNumbersPass(fields[key], gate) && AllNumbersPass(fields'[key], gate)
              && SameJson(fields[key], fields'[key])
    {
      EqualIffSameJson(fields[key], fields'[key], gate);
    }
    assert |fields| == |fields.Keys| && |fields'| == |fields'.Keys|;
    if |fields| == |fields'| && forall key :: key in fields ==> key in fields' {
      SameSizeSameKeys(fields, fields');
    }
  }

  /** Values whose numbers all pass equal themselves. */
  lemma PassingValuesEqualThemselves(v: Json, gate: string -> bool)
    requires AllNumbersPass(v, gate)
    ensures CanonicalHashValue(v, gate).Some? && JsonValuesEqual(v, v, gate)
  {
    CanonicalIsSame(v, gate);
    EqualityIsEquivalence(v, v, v, gate);
  }

  /** Numbers that pass are compared by value. */
  lemma NumbersCompareByValue(n: Number, m: Number, gate: string -> bool)
    requires ValidNumber(n) && ValidNumber(m) && gate(NumberText(n)) && gate(NumberText(m))
    ensures JsonValuesEqual(Num(n), Num(m), gate) <==> SameValue(n, m)
  {
    SameTextIffSameValue(n, m);
  }
}
