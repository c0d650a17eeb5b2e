/** Checking that the items of a diff are what its summary says: resource by resource, in the declared numbers. */
module DiffItems {
  import opened Wire

  datatype Mode = GetKey | Singleton | ContentHash | UnknownMode

  datatype Item =
    | Header(product: string, resource: string, mode: Mode, added: nat, removed: nat, changedFields: nat)
    | Added(ref: RecordRef)
    | Removed(ref: RecordRef)
    | Change(change: FieldChange)
    | Other

  datatype RecordRef = RecordRef(product: string, resource: string, key: Option<string>, hash: Option<string>)

  datatype FieldChange = FieldChange(product: string, resource: string, key: string, field: string)

  datatype Summary = Summary(
    resourcesCompared: nat, resourcesWithDrift: nat, recordsAdded: nat, recordsRemoved: nat, recordsChanged: nat,
    streamItems: nat)

  predicate RecordMatches(ref: RecordRef, header: Item)
    requires header.Header?
  {
    && ref.product == header.product && ref.resource == header.resource
    && match header.mode
       case GetKey => ref.key.Some? && ref.hash.None?
       case Singleton => ref.key == Some("singleton") && ref.hash.None?
       case ContentHash => ref.key.None? && ref.hash.Some?
       case UnknownMode => false
  }

  predicate FieldMatches(change: FieldChange, header: Item)
    requires header.Header?
  {
    && change.product == header.product && change.resource == header.resource
    && match header.mode
       case GetKey => change.key != ""
       case Singleton => change.key == "singleton"
       case ContentHash => false
       case UnknownMode => false
  }

  /** The modes of identity that a reference, by what identifies it, can stand under. */
  function ModesOf(ref: RecordRef): set<Mode> {
    match ref
    case RecordRef(_, _, Some(key), None) => if key == "singleton" then {GetKey, Singleton} else {GetKey}
    case RecordRef(_, _, None, Some(_)) => {ContentHash}
    case RecordRef(_, _, _, _) => {}
  }

  /** The same for a field change, which always has a key. */
  function ModesOfChange(change: FieldChange): set<Mode> {
    if change.key == "" then {} else if change.key == "singleton" then {GetKey, Singleton} else {GetKey}
  }

  /** Items match a header exactly when they are of its resource and identified as its mode says. */
  lemma MatchesIff(ref: RecordRef, change: FieldChange, header: Item)
    requires header.Header?
    ensures RecordMatches(ref, header) <==>
              ref.product == header.product && ref.resource == header.resource && header.mode in ModesOf(ref)
    ensures FieldMatches(change, header) <==>
              && change.product == header.product && change.resource == header.resource
              && header.mode in ModesOfChange(change)
  {}

  // ---------------------------------------------------------------- groups

  /** A resource: its header and, in this order, its added, removed and changed items. */
  datatype Group = Group(header: Item, added: seq<Item>, removed: seq<Item>, changes: seq<Item>)

  predicate AddedOf(header: Item, item: Item)
    requires header.Header?
  {
    item.Added? && RecordMatches(item.ref, header)
  }

  predicate RemovedOf(header: Item, item: Item)
    requires header.Header?
  {
    item.Removed? && RecordMatches(item.ref, header)
  }

  predicate ChangeOf(header: Item, item: Item)
    requires header.Header?
  {
    item.Change? && FieldMatches(item.change, header)
  }

  predicate GroupOk(g: Group) {
    && g.header.Header?
    && |g.added| == g.header.added && (forall i :: 0 <= i < |g.added| ==> AddedOf(g.header, g.added[i]))
    && |g.removed| == g.header.removed && (forall i :: 0 <= i < |g.removed| ==> RemovedOf(g.header, g.removed[i]))
    && |g.changes| == g.header.changedFields && (forall i :: 0 <= i < |g.changes| ==> ChangeOf(g.header, g.changes[i]))
  }

  /** The items of a group, and then more. */
  function GroupThen(g: Group, rest: seq<Item>): seq<Item> { [g.header] + (g.added + (g.removed + (g.changes + rest))) }

  function Flatten(groups: seq<Group>): seq<Item> {
    if groups == [] then [] else GroupThen(groups[0], Flatten(groups[1..]))
  }

  /** Headers plus all declared counts. */
  function DeclaredLength(groups: seq<Group>): nat {
    if groups == [] then 0 else 1 + Declared(groups[0].header) + DeclaredLength(groups[1..])
  }

  function Declared(header: Item): nat {
    if header.Header? then header.added + header.removed + header.changedFields else 0
  }

  lemma {:induction false} FlattenedLength(groups: seq<Group>)
    requires forall i :: 0 <= i < |groups| ==> GroupOk(groups[i])
    ensures |Flatten(groups)| == DeclaredLength(groups)
  {
    if groups != [] {
      FlattenedLength(groups[1..]);
    }
  }

  // ---------------------------------------------------------------- counting

  function Count(items: seq<Item>, p: Item -> bool): nat {
    if items == [] then 0 else Count(items[..|items| - 1], p) + if p(items[|items| - 1]) then 1 else 0
  }

  predicate IsDrift(item: Item) { item.Header? && (item.added > 0 || item.removed > 0 || item.changedFields > 0) }

  datatype FieldId = FieldId(product: string, resource: string, key: string, field: string)

  datatype RecordId = RecordId(product: string, resource: string, key: string)

  function FieldIdOf(c: FieldChange): FieldId { FieldId(c.product, c.resource, c.key, c.field) }

  function RecordIdOf(c: FieldChange): RecordId { RecordId(c.product, c.resource, c.key) }

  const NUL: char := 0 as char

  /** How the program spells identities: their parts with NULs between them. */
  function RecordText(id: RecordId): string { id.product + [NUL] + (id.resource + [NUL] + id.key) }

  function FieldText(id: FieldId): string { id.product + [NUL] + (id.resource + [NUL] + (id.key + [NUL] + id.field)) }

  /** A composite identity. */
  datatype Identity = Identity(text: string)

  function FieldIdentity(c: FieldChange): Identity { Identity(FieldText(FieldIdOf(c))) }

  function RecordIdentity(c: FieldChange): Identity { Identity(RecordText(RecordIdOf(c))) }

  /** No two field changes have the same composite identity. */
  ghost predicate NoDuplicates(items: seq<Item>) {
    forall i, j :: 0 <= i < j < |items| && items[i].Change? && items[j].Change? ==>
                     FieldIdentity(items[i].change) != FieldIdentity(items[j].change)
  }

  function ChangedRecords(items: seq<Item>): set<Identity> {
    set item | item in items && item.Change? :: RecordIdentity(item.change)
  }

  /** The same by what the fields are, not by how they are spelt. */
  ghost predicate DistinctFields(items: seq<Item>) {
    forall i, j :: 0 <= i < j < |items| && items[i].Change? && items[j].Change? ==>
                     FieldIdOf(items[i].change) != FieldIdOf(items[j].change)
  }

  function ChangedIds(items: seq<Item>): set<RecordId> {
    set item | item in items && item.Change? :: RecordIdOf(item.change)
  }

  ghost predicate TotalsAgree(items: seq<Item>, s: Summary, recordsChanged: nat) {
    && Count(items, (item: Item) => item.Header?) == s.resourcesCompared
    && Count(items, IsDrift) == s.resourcesWithDrift
    && Count(items, (item: Item) => item.Added?) == s.recordsAdded
    && Count(items, (item: Item) => item.Removed?) == s.recordsRemoved
    && recordsChanged == s.recordsChanged
    && |items| == s.streamItems
  }

  ghost predicate Grouped(groups: seq<Group>, items: seq<Item>) {
    items == Flatten(groups) && forall i :: 0 <= i < |groups| ==> GroupOk(groups[i])
  }

  /** What the check is for: the items are groups, no field of a record changes twice, and the totals are
      those of the summary. */
  ghost predicate Describes(groups: seq<Group>, items: seq<Item>, s: Summary) {
    Grouped(groups, items) && DistinctFields(items) && TotalsAgree(items, s, |ChangedIds(items)|)
  }

  /** What the check tells, with fields and records known by their spelling only. */
  ghost predicate DescribesAsSpelt(groups: seq<Group>, items: seq<Item>, s: Summary) {
    Grouped(groups, items) && NoDuplicates(items) && TotalsAgree(items, s, |ChangedRecords(items)|)
  }

  // ---------------------------------------------------------------- the order of items

  /** The items s may follow a header that still awaits so many added, removed and changed ones. */
  predicate Structured(s: seq<Item>, header: Item, added: nat, removed: nat, changes: nat)
    requires header.Header?
    decreases |s|
  {
    if added > 0 then s != [] && AddedOf(header, s[0]) && Structured(s[1..], header, added - 1, removed, changes)
    else if removed > 0 then s != [] && RemovedOf(header, s[0]) && Structured(s[1..], header, 0, removed - 1, changes)
    else if changes > 0 then s != [] && ChangeOf(header, s[0]) && Structured(s[1..], header, 0, 0, changes - 1)
    else s == [] || (s[0].Header? && Structured(s[1..], s[0], s[0].added, s[0].removed, s[0].changedFields))
  }

  const NO_HEADER: Item := Header("", "", GetKey, 0, 0, 0)

  predicate WellOrdered(items: seq<Item>) { Structured(items, NO_HEADER, 0, 0, 0) }

  lemma {:induction false} TakeAdded(s: seq<Item>, header: Item, added: nat, removed: nat, changes: nat)
    requires header.Header?
    ensures Structured(s, header, added, removed, changes) <==>
              && added <= |s| && (forall i :: 0 <= i < added ==> AddedOf(header, s[i]))
              && Structured(s[added..], header, 0, removed, changes)
    decreases added
  {
    if added == 0 {
      assert s[0..] == s;
    } else if s != [] {
      TakeAdded(s[1..], header, added - 1, removed, changes);
      assert added <= |s| ==> s[1..][added - 1..] == s[added..];
      assert forall i :: 1 <= i < added <= |s| ==> s[i] == s[1..][i - 1];
    }
  }

  lemma {:induction false} TakeRemoved(s: seq<Item>, header: Item, removed: nat, changes: nat)
    requires header.Header?
    ensures Structured(s, header, 0, removed, changes) <==>
              && removed <= |s| && (forall i :: 0 <= i < removed ==> RemovedOf(header, s[i]))
              && Structured(s[removed..], header, 0, 0, changes)
    decreases removed
  {
    if removed == 0 {
      assert s[0..] == s;
    } else if s != [] {
      TakeRemoved(s[1..], header, removed - 1, changes);
      assert removed <= |s| ==> s[1..][removed - 1..] == s[removed..];
      assert forall i :: 1 <= i < removed <= |s| ==> s[i] == s[1..][i - 1];
    }
  }

  lemma {:induction false} TakeChanges(s: seq<Item>, header: Item, changes: nat)
    requires header.Header?
    ensures Structured(s, header, 0, 0, changes) <==>
              && changes <= |s| && (forall i :: 0 <= i < changes ==> ChangeOf(header, s[i]))
              && WellOrdered(s[changes..])
    decreases changes
  {
    if changes == 0 {
      assert s[0..] == s;
    } else if s != [] {
      TakeChanges(s[1..], header, changes - 1);
      assert changes <= |s| ==> s[1..][changes - 1..] == s[changes..];
      assert forall i :: 1 <= i < changes <= |s| ==> s[i] == s[1..][i - 1];
    }
  }

  lemma SplitAdded(s: seq<Item>, h: Item) returns (taken: seq<Item>, rest: seq<Item>)
    requires h.Header? && Structured(s, h, h.added, h.removed, h.changedFields)
    ensures s == taken + rest && |taken| == h.added && forall i :: 0 <= i < |taken| ==> AddedOf(h, taken[i])
    ensures Structured(rest, h, 0, h.removed, h.changedFields)
  {
    TakeAdded(s, h, h.added, h.removed, h.changedFields);
    taken, rest := s[..h.added], s[h.added..];
  }

  lemma SplitRemoved(s: seq<Item>, h: Item) returns (taken: seq<Item>, rest: seq<Item>)
    requires h.Header? && Structured(s, h, 0, h.removed, h.changedFields)
    ensures s == taken + rest && |taken| == h.removed && forall i :: 0 <= i < |taken| ==> RemovedOf(h, taken[i])
    ensures Structured(rest, h, 0, 0, h.changedFields)
  {
    TakeRemoved(s, h, h.removed, h.changedFields);
    taken, rest := s[..h.removed], s[h.removed..];
  }

  lemma SplitChanges(s: seq<Item>, h: Item) returns (taken: seq<Item>, rest: seq<Item>)
    requires h.Header? && Structured(s, h, 0, 0, h.changedFields)
    ensures s == taken + rest && |taken| == h.changedFields && forall i :: 0 <= i < |taken| ==> ChangeOf(h, taken[i])
    ensures WellOrdered(rest)
  {
    TakeChanges(s, h, h.changedFields);
    taken, rest := s[..h.changedFields], s[h.changedFields..];
  }

  /** Well-ordered items that are not empty are a group and well-ordered items. */
  lemma SplitGroup(items: seq<Item>) returns (g: Group, rest: seq<Item>)
    requires WellOrdered(items) && items != []
    ensures GroupOk(g) && items == GroupThen(g, rest) && WellOrdered(rest)
  {
    var h := items[0];
    var added, t := SplitAdded(items[1..], h);
    var removed, u := SplitRemoved(t, h);
    var changes;
    changes, rest := SplitChanges(u, h);
    g := Group(h, added, removed, changes);
    assert items == [h] + items[1..];
  }

  lemma GroupInFront(g: Group, rest: seq<Item>)
    requires GroupOk(g) && WellOrdered(rest)
    ensures WellOrdered(GroupThen(g, rest))
  {
    var u := g.changes + rest;
    var t := g.removed + u;
    var s := g.added + t;
    TakeChanges(u, g.header, |g.changes|);
    TakeRemoved(t, g.header, |g.removed|, |g.changes|);
    TakeAdded(s, g.header, |g.added|, |g.removed|, |g.changes|);
    assert ([g.header] + s)[1..] == s;
  }

  lemma {:induction false} GroupsAreOrdered(groups: seq<Group>)
    requires forall i :: 0 <= i < |groups| ==> GroupOk(groups[i])
    ensures WellOrdered(Flatten(groups))
  {
    if groups != [] {
      GroupsAreOrdered(groups[1..]);
      GroupInFront(groups[0], Flatten(groups[1..]));
    }
  }

  lemma {:induction false} OrderedIsGroups(items: seq<Item>) returns (groups: seq<Group>)
    requires WellOrdered(items)
    ensures items == Flatten(groups) && forall i :: 0 <= i < |groups| ==> GroupOk(groups[i])
    decreases |items|
  {
    if items == [] {
      groups := [];
    } else {
      var g, rest := SplitGroup(items);
      var more := OrderedIsGroups(rest);
      groups := [g] + more;
      assert groups[1..] == more;
    }
  }

  lemma GroupedIff(items: seq<Item>)
    ensures (exists groups :: Grouped(groups, items)) <==> WellOrdered(items)
  {
    if groups :| Grouped(groups, items) {
      GroupsAreOrdered(groups);
    }
    if WellOrdered(items) {
      var groups := OrderedIsGroups(items);
      assert Grouped(groups, items);
    }
  }

  /** Some grouping describes the items exactly when they are well ordered, without duplicates, with the
      declared totals. */
  lemma DescribedIff(items: seq<Item>, s: Summary)
    ensures (exists groups :: DescribesAsSpelt(groups, items, s)) <==>
              WellOrdered(items) && NoDuplicates(items) && TotalsAgree(items, s, |ChangedRecords(items)|)
    ensures (exists groups :: Describes(groups, items, s)) <==>
              WellOrdered(items) && DistinctFields(items) && TotalsAgree(items, s, |ChangedIds(items)|)
  {
    GroupedIff(items);
    if WellOrdered(items) {
      var groups :| Grouped(groups, items);
      assert DescribesAsSpelt(groups, items, s)
          <==> NoDuplicates(items) && TotalsAgree(items, s, |ChangedRecords(items)|);
      assert Describes(groups, items, s) <==> DistinctFields(items) && TotalsAgree(items, s, |ChangedIds(items)|);
    }
  }

  // ---------------------------------------------------------------- the check

  /** The counters and sets of the check, when the first n items have been passed. */
  ghost predicate Counted(items: seq<Item>, n: nat, c: Summary, fields: set<Identity>, records: set<Identity>)
    requires n <= |items|
  {
    && c.resourcesCompared == Count(items[..n], (item: Item) => item.Header?)
    && c.resourcesWithDrift == Count(items[..n], IsDrift)
    && c.recordsAdded == Count(items[..n], (item: Item) => item.Added?)
    && c.recordsRemoved == Count(items[..n], (item: Item) => item.Removed?)
    && NoDuplicates(items[..n])
    && (forall id ::
          id in fields <==> exists i :: 0 <= i < n && items[i].Change? && FieldIdentity(items[i].change) == id)
    && records == ChangedRecords(items[..n])
  }

  function Bump(c: Summary, item: Item): Summary {
    match item
    case Header(_, _, _, added, removed, changedFields) =>
      c.(resourcesCompared := c.resourcesCompared + 1,
         resourcesWithDrift := c.resourcesWithDrift + if added > 0 || removed > 0 || changedFields > 0 then 1 else 0)
    case Added(_) => c.(recordsAdded := c.recordsAdded + 1)
    case Removed(_) => c.(recordsRemoved := c.recordsRemoved + 1)
    case _ => c
  }

  lemma CountNext(items: seq<Item>, n: nat, p: Item -> bool)
    requires n < |items|
    ensures Count(items[..n + 1], p) == Count(items[..n], p) + if p(items[n]) then 1 else 0
  {
    assert items[..n + 1][..n] == items[..n];
  }

  lemma CountedNext(items: seq<Item>, n: nat, c: Summary, fields: set<Identity>, records: set<Identity>)
    requires n < |items| && Counted(items, n, c, fields, records) && !items[n].Change?
    ensures Counted(items, n + 1, Bump(c, items[n]), fields, records)
  {
    CountNext(items, n, (item: Item) => item.Header?);
    CountNext(items, n, IsDrift);
    CountNext(items, n, (item: Item) => item.Added?);
    CountNext(items, n, (item: Item) => item.Removed?);
    assert items[..n + 1] == items[..n] + [items[n]];
    assert ChangedRecords(items[..n + 1]) == ChangedRecords(items[..n]);
  }

  lemma ChangeNext(items: seq<Item>, n: nat, c: Summary, fields: set<Identity>, records: set<Identity>)
    requires n < |items| && Counted(items, n, c, fields, records) && items[n].Change?
    ensures FieldIdentity(items[n].change) in fields ==> !NoDuplicates(items)
    ensures FieldIdentity(items[n].change) !in fields ==>
              Counted(items, n + 1, c, fields + {FieldIdentity(items[n].change)},
                      records + {RecordIdentity(items[n].change)})
  {
    CountNext(items, n, (item: Item) => item.Header?);
    CountNext(items, n, IsDrift);
    CountNext(items, n, (item: Item) => item.Added?);
    CountNext(items, n, (item: Item) => item.Removed?);
    var longer := items[..n + 1];
    assert longer == items[..n] + [items[n]];
    assert ChangedRecords(longer) == ChangedRecords(items[..n]) + {RecordIdentity(items[n].change)};
    if FieldIdentity(items[n].change) !in fields {
      forall i, j | 0 <= i < j < |longer| && longer[i].Change? && longer[j].Change?
        ensures FieldIdentity(longer[i].change) != FieldIdentity(longer[j].change)
      {
        if j < n {
          assert items[..n][i] == longer[i] && items[..n][j] == longer[j];
        }
      }
    }
  }

  lemma StepInto(items: seq<Item>, n: nat)
    requires n < |items|
    ensures items[n..][0] == items[n] && items[n..][1..] == items[n + 1..]
  {}

  /** The check accepts exactly what some grouping describes by spelling; where the parts of the spelling hold no
      NUL, and the validation of the items sees to that, this is what some grouping describes. */
  method ValidateDiffItems(items: seq<Item>, summary: Summary) returns (ok: bool)
    ensures ok <==> exists groups :: DescribesAsSpelt(groups, items, summary)
    ensures PlainItems(items) ==> (ok <==> exists groups :: Describes(groups, items, summary))
  {
    ok := Reconcile(items, summary);
    DescribedIff(items, summary);
    if PlainItems(items) {
      PlainItemsAreTold(items);
    }
  }

  method Reconcile(items: seq<Item>, summary: Summary) returns (ok: bool)
    ensures ok <==> WellOrdered(items) && NoDuplicates(items) && TotalsAgree(items, summary, |ChangedRecords(items)|)
  {
    var c := Summary(0, 0, 0, 0, 0, 0);
    var changedFields: set<Identity>, changedRecords: set<Identity> := {}, {};
    var index := 0;
    ghost var header := NO_HEADER;
    assert items[0..] == items;
    while index < |items|
      invariant index <= |items| && Counted(items, index, c, changedFields, changedRecords)
      invariant header.Header? && (WellOrdered(items) <==> Structured(items[index..], header, 0, 0, 0))
    {
      StepInto(items, index);
      if !items[index].Header? {
        return false;
      }
      var h := items[index];
      header := h;
      CountedNext(items, index, c, changedFields, changedRecords);
      c := Bump(c, h);
      index := index + 1;
      var ok_;
      ok_, index, c := PassAdded(items, index, h, c, changedFields, changedRecords);
      if !ok_ {
        return false;
      }
      ok_, index, c := PassRemoved(items, index, h, c, changedFields, changedRecords);
      if !ok_ {
        return false;
      }
      ok_, index, changedFields, changedRecords := PassChanges(items, index, h, c, changedFields, changedRecords);
      if !ok_ {
        return false;
      }
    }
    assert items[..|items|] == items;
    return c.resourcesCompared == summary.resourcesCompared && c.resourcesWithDrift == summary.resourcesWithDrift
      && c.recordsAdded == summary.recordsAdded && c.recordsRemoved == summary.recordsRemoved
      && |changedRecords| == summary.recordsChanged && |items| == summary.streamItems;
  }

  /** The added items of a header. */
  method PassAdded(items: seq<Item>, start: nat, h: Item, counters: Summary,
                   ghost fields: set<Identity>, ghost records: set<Identity>)
    returns (ok: bool, index: nat, c: Summary)
    requires start <= |items| && h.Header? && Counted(items, start, counters, fields, records)
    ensures !ok ==> !Structured(items[start..], h, h.added, h.removed, h.changedFields)
    ensures ok ==> start <= index <= |items| && Counted(items, index, c, fields, records)
    ensures ok ==> (Structured(items[start..], h, h.added, h.removed, h.changedFields)
                    <==> Structured(items[index..], h, 0, h.removed, h.changedFields))
  {
    index, c := start, counters;
    for added := 0 to h.added
      invariant start <= index <= |items| && Counted(items, index, c, fields, records)
      invariant Structured(items[start..], h, h.added, h.removed, h.changedFields)
           <==> Structured(items[index..], h, h.added - added, h.removed, h.changedFields)
    {
      if index >= |items| || !items[index].Added? || !RecordMatches(items[index].ref, h) {
        return false, index, c;
      }
      StepInto(items, index);
      CountedNext(items, index, c, fields, records);
      c := Bump(c, items[index]);
      index := index + 1;
    }
    ok := true;
  }

  /** The removed items of a header. */
  method PassRemoved(items: seq<Item>, start: nat, h: Item, counters: Summary,
                     ghost fields: set<Identity>, ghost records: set<Identity>)
    returns (ok: bool, index: nat, c: Summary)
    requires start <= |items| && h.Header? && Counted(items, start, counters, fields, records)
    ensures !ok ==> !Structured(items[start..], h, 0, h.removed, h.changedFields)
    ensures ok ==> start <= index <= |items| && Counted(items, index, c, fields, records)
    ensures ok ==> (Structured(items[start..], h, 0, h.removed, h.changedFields)
                    <==> Structured(items[index..], h, 0, 0, h.changedFields))
  {
    index, c := start, counters;
    for removed := 0 to h.removed
      invariant start <= index <= |items| && Counted(items, index, c, fields, records)
      invariant Structured(items[start..], h, 0, h.removed, h.changedFields)
           <==> Structured(items[index..], h, 0, h.removed - removed, h.changedFields)
    {
      if index >= |items| || !items[index].Removed? || !RecordMatches(items[index].ref, h) {
        return false, index, c;
      }
      StepInto(items, index);
      CountedNext(items, index, c, fields, records);
      c := Bump(c, items[index]);
      index := index + 1;
    }
    ok := true;
  }

  /** One field change, unless its identity was there before. */
  method PassChange(items: seq<Item>, index: nat, ghost c: Summary, before: set<Identity>, recordsBefore: set<Identity>)
    returns (ok: bool, fields: set<Identity>, records: set<Identity>)
    requires index < |items| && items[index].Change? && Counted(items, index, c, before, recordsBefore)
    ensures !ok ==> !NoDuplicates(items)
    ensures ok ==> Counted(items, index + 1, c, fields, records)
  {
    var change := items[index].change;
    ChangeNext(items, index, c, before, recordsBefore);
    if FieldIdentity(change) in before {
      return false, before, recordsBefore;
    }
    return true, before + {FieldIdentity(change)}, recordsBefore + {RecordIdentity(change)};
  }

  /** The field changes of a header. */
  method PassChanges(items: seq<Item>, start: nat, h: Item, ghost c: Summary, before: set<Identity>,
                     recordsBefore: set<Identity>)
    returns (ok: bool, index: nat, fields: set<Identity>, records: set<Identity>)
    requires start <= |items| && h.Header? && Counted(items, start, c, before, recordsBefore)
    ensures !ok ==> !Structured(items[start..], h, 0, 0, h.changedFields) || !NoDuplicates(items)
    ensures ok ==> start <= index <= |items| && Counted(items, index, c, fields, records)
    ensures ok ==> (Structured(items[start..], h, 0, 0, h.changedFields) <==> Structured(items[index..], h, 0, 0, 0))
  {
    index, fields, records := start, before, recordsBefore;
    for changed := 0 to h.changedFields
      invariant start <= index <= |items| && Counted(items, index, c, fields, records)
      invariant Structured(items[start..], h, 0, 0, h.changedFields)
           <==> Structured(items[index..], h, 0, 0, h.changedFields - changed)
    {
      if index >= |items| || !items[index].Change? || !FieldMatches(items[index].change, h) {
        return false, index, fields, records;
      }
      var isNew;
      isNew, fields, records := PassChange(items, index, c, fields, records);
      if !isNew {
        return false, index, fields, records;
      }
      StepInto(items, index);
      index := index + 1;
    }
    ok := true;
  }

  // ---------------------------------------------------------------- composite identities

  predicate NulFree(s: string) { NUL !in s }

  /** A part in front of a separator holds no separator. */
  predicate PlainChange(c: FieldChange) { NulFree(c.product) && NulFree(c.resource) && NulFree(c.key) }

  /** What the item validation asks of a field change, so far as it matters here: a known product, and no control
      bytes in the other parts. */
  predicate ValidatedChange(c: FieldChange) {
    && c.product in {"zia", "zpa", "ztw", "zcc", "zidentity"}
    && (forall i :: 0 <= i < |c.resource| ==> c.resource[i] > 0x1f as char)
    && (forall i :: 0 <= i < |c.key| ==> c.key[i] > 0x1f as char)
    && (forall i :: 0 <= i < |c.field| ==> c.field[i] > 0x1f as char)
  }

  lemma ValidatedIsPlain(items: seq<Item>)
    requires forall i :: 0 <= i < |items| && items[i].Change? ==> ValidatedChange(items[i].change)
    ensures PlainItems(items)
  {}

  lemma {:induction false} FirstNul(a: string, b: string, s: string, t: string)
    requires NulFree(a) && NulFree(b) && a + [NUL] + s == b + [NUL] + t
    ensures a == b && s == t
  {
    assert (a + [NUL] + s)[0] == (b + [NUL] + t)[0];
    if a != "" && b != "" {
      assert (a + [NUL] + s)[1..] == a[1..] + [NUL] + s && (b + [NUL] + t)[1..] == b[1..] + [NUL] + t;
      FirstNul(a[1..], b[1..], s, t);
      assert a == [a[0]] + a[1..] && b == [b[0]] + b[1..];
    } else {
      assert (a + [NUL] + s)[|a| + 1..] == s && (b + [NUL] + t)[|b| + 1..] == t;
    }
  }

  /** For parts without NULs the spelling identifies the field. */
  lemma FieldTextIsUnique(a: FieldId, b: FieldId)
    requires NulFree(a.product) && NulFree(a.resource) && NulFree(a.key)
    requires NulFree(b.product) && NulFree(b.resource) && NulFree(b.key)
    ensures FieldText(a) == FieldText(b) <==> a == b
  {
    if FieldText(a) == FieldText(b) {
      FirstNul(a.product, b.product,
               a.resource + [NUL] + (a.key + [NUL] + a.field), b.resource + [NUL] + (b.key + [NUL] + b.field));
      FirstNul(a.resource, b.resource, a.key + [NUL] + a.field, b.key + [NUL] + b.field);
      FirstNul(a.key, b.key, a.field, b.field);
    }
  }

  lemma RecordTextIsUnique(a: RecordId, b: RecordId)
    requires NulFree(a.product) && NulFree(a.resource) && NulFree(b.product) && NulFree(b.resource)
    ensures RecordText(a) == RecordText(b) <==> a == b
  {
    if RecordText(a) == RecordText(b) {
      FirstNul(a.product, b.product, a.resource + [NUL] + a.key, b.resource + [NUL] + b.key);
      FirstNul(a.resource, b.resource, a.key, b.key);
    }
  }

  predicate PlainItems(items: seq<Item>) {
    forall i :: 0 <= i < |items| && items[i].Change? ==> PlainChange(items[i].change)
  }

  /** For items without NULs the check counts records and finds repeated fields by what they are. */
  lemma PlainItemsAreTold(items: seq<Item>)
    requires PlainItems(items)
    ensures NoDuplicates(items) <==> DistinctFields(items)
    ensures |ChangedRecords(items)| == |ChangedIds(items)|
  {
    forall i, j | 0 <= i < j < |items| && items[i].Change? && items[j].Change?
      ensures FieldIdentity(items[i].change) == FieldIdentity(items[j].change)
              <==> FieldIdOf(items[i].change) == FieldIdOf(items[j].change)
    {
      FieldTextIsUnique(FieldIdOf(items[i].change), FieldIdOf(items[j].change));
    }
    SameNumberOfRecords(items);
  }

  lemma SameNumberOfRecords(items: seq<Item>)
    requires PlainItems(items)
    ensures |ChangedRecords(items)| == |ChangedIds(items)|
  {
    var spell := (id: RecordId) => Identity(RecordText(id));
    var ids := ChangedIds(items);
    forall a, b | a in ids && b in ids && a != b
      ensures spell(a) != spell(b)
    {
      PlainId(items, a);
      PlainId(items, b);
      RecordTextIsUnique(a, b);
    }
    var spelt := Image(ids, spell);
    forall x
      ensures x in ChangedRecords(items) <==> x in spelt
    {
      if x in ChangedRecords(items) {
        var item :| item in items && item.Change? && RecordIdentity(item.change) == x;
        assert RecordIdOf(item.change) in ids && spell(RecordIdOf(item.change)) == x;
      }
      if x in spelt {
        var id :| id in ids && spell(id) == x;
        var item :| item in items && item.Change? && RecordIdOf(item.change) == id;
        assert RecordIdentity(item.change) == x;
      }
    }
    assert ChangedRecords(items) == spelt;
    ImageSize(ids, spell);
  }

  lemma PlainId(items: seq<Item>, id: RecordId)
    requires PlainItems(items) && id in ChangedIds(items)
    ensures NulFree(id.product) && NulFree(id.resource) && NulFree(id.key)
  {
    var item :| item in items && item.Change? && RecordIdOf(item.change) == id;
    var i :| 0 <= i < |items| && items[i] == item;
    assert PlainChange(items[i].change);
  }

  function Image<A, B>(s: set<A>, f: A -> B): set<B> { set a | a in s :: f(a) }

  lemma {:induction false} ImageSize<A, B>(s: set<A>, f: A -> B)
    requires forall a, b :: a in s && b in s && a != b ==> f(a) != f(b)
    ensures |Image(s, f)| == |s|
    decreases s
  {
    if s != {} {
      var x :| x in s;
      ImageSize(s - {x}, f);
      assert Image(s, f) == Image(s - {x}, f) + {f(x)};
    }
  }

  // ---- when a spelling says too little

  predicate PlainField(id: FieldId) {
    NulFree(id.product) && NulFree(id.resource) && NulFree(id.key) && NulFree(id.field)
  }

  function Nuls(s: string): nat { if s == "" then 0 else (if s[0] == NUL then 1 else 0) + Nuls(s[1..]) }

  lemma {:induction false} NulsApart(s: string, t: string)
    ensures Nuls(s + [NUL] + t) == Nuls(s) + 1 + Nuls(t)
  {
    if s == "" {
      assert (s + [NUL] + t)[1..] == t;
    } else {
      assert (s + [NUL] + t)[1..] == s[1..] + [NUL] + t;
      NulsApart(s[1..], t);
    }
  }

  lemma {:induction false} NoNuls(s: string)
    ensures Nuls(s) == 0 <==> NulFree(s)
  {
    if s != "" {
      NoNuls(s[1..]);
      assert s == [s[0]] + s[1..];
    }
  }

  lemma NulsOfField(id: FieldId)
    ensures Nuls(FieldText(id)) == 3 + Nuls(id.product) + Nuls(id.resource) + Nuls(id.key) + Nuls(id.field)
  {
    NulsApart(id.key, id.field);
    NulsApart(id.resource, id.key + [NUL] + id.field);
    NulsApart(id.product, id.resource + [NUL] + (id.key + [NUL] + id.field));
  }

  lemma PlainIffThreeNuls(id: FieldId)
    ensures PlainField(id) <==> Nuls(FieldText(id)) == 3
  {
    NulsOfField(id);
    NoNuls(id.product);
    NoNuls(id.resource);
    NoNuls(id.key);
    NoNuls(id.field);
  }

  lemma AtNul(s: string) returns (before: string, after: string)
    requires !NulFree(s)
    ensures s == before + [NUL] + after && |before| < |s| && |after| < |s|
  {
    var i :| 0 <= i < |s| && s[i] == NUL;
    before, after := s[..i], s[i + 1..];
  }

  /** The NUL of one part read as a separator. */
  lemma AnotherReading(a: FieldId) returns (b: FieldId)
    requires !PlainField(a)
    ensures b != a && FieldText(b) == FieldText(a)
  {
    var tail := a.key + [NUL] + a.field;
    if !NulFree(a.product) {
      var x, y := AtNul(a.product);
      b := FieldId(x, y, a.resource, tail);
    } else if !NulFree(a.resource) {
      var x, y := AtNul(a.resource);
      b := FieldId(a.product, x, y, tail);
    } else if !NulFree(a.key) {
      var x, y := AtNul(a.key);
      b := FieldId(a.product, a.resource, x, y + [NUL] + a.field);
    } else {
      var x, y := AtNul(a.field);
      b := FieldId(a.product, a.resource, a.key + [NUL] + x, y);
      assert |b.field| < |a.field|;
    }
  }

  /** The spelling of a field belongs to another field too exactly when one of its parts holds a NUL. */
  lemma AmbiguousIff(a: FieldId)
    ensures (exists b :: b != a && FieldText(b) == FieldText(a)) <==> !PlainField(a)
  {
    if b :| b != a && FieldText(b) == FieldText(a) {
      PlainIffThreeNuls(a);
      PlainIffThreeNuls(b);
      if PlainField(a) {
        FieldTextIsUnique(a, b);
      }
    }
    if !PlainField(a) {
      var b := AnotherReading(a);
    }
  }

  /** Two field changes of one resource whose keys or fields hold a NUL, as no validated item does. */
  function ConfusedChange(key: string, field: string): Item { Change(FieldChange("zia", "r", key, field)) }

  function ConfusedItems(): seq<Item> {
    [Header("zia", "r", GetKey, 0, 0, 2),
     ConfusedChange("k", ['x', NUL, 'y']),
     ConfusedChange(['k', NUL, 'x'], "y")]
  }

  /** Items that are what their summary says, and are refused because two spellings coincide. */
  lemma NulsConfuseIdentities()
    ensures var s := Summary(1, 1, 0, 0, 2, 3);
            && (exists groups :: Describes(groups, ConfusedItems(), s))
            && !(exists groups :: DescribesAsSpelt(groups, ConfusedItems(), s))
  {
    var items, s := ConfusedItems(), Summary(1, 1, 0, 0, 2, 3);
    DescribedIff(items, s);
    var a, b := FieldIdOf(items[1].change), FieldIdOf(items[2].change);
    assert FieldText(a) == FieldText(b) by {
      assert a.key + [NUL] + a.field == b.key + [NUL] + b.field;
    }
    assert FieldIdentity(items[1].change) == FieldIdentity(items[2].change);
    assert |a.key| != |b.key|;
    ConfusedTotals(s);
  }

  lemma CountThree(items: seq<Item>, p: Item -> bool)
    requires |items| == 3
    ensures Count(items, p)
        == (if p(items[0]) then 1 else 0) + (if p(items[1]) then 1 else 0) + (if p(items[2]) then 1 else 0)
  {
    assert items[..3] == items && items[..0] == [];
    CountNext(items, 2, p);
    CountNext(items, 1, p);
    CountNext(items, 0, p);
  }

  lemma ConfusedTotals(s: Summary)
    requires s == Summary(1, 1, 0, 0, 2, 3)
    ensures WellOrdered(ConfusedItems()) && TotalsAgree(ConfusedItems(), s, |ChangedIds(ConfusedItems())|)
  {
    var items := ConfusedItems();
    assert items[1..] == [items[1], items[2]] && items[1..][1..] == [items[2]];
    CountThree(items, (item: Item) => item.Header?);
    CountThree(items, IsDrift);
    CountThree(items, (item: Item) => item.Added?);
    CountThree(items, (item: Item) => item.Removed?);
    assert ChangedIds(items) == {RecordIdOf(items[1].change), RecordIdOf(items[2].change)};
    assert |RecordIdOf(items[1].change).key| != |RecordIdOf(items[2].change).key|;
  }
}
