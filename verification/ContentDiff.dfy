/**
  Comparing two dumps of a resource without identities, by the hash of each record's content.  The hash
  is a parameter; the theorem that ties it to the values takes it to be free of collisions.
*/
module ContentDiff {
  import opened Wire
  import opened Order
  import opened JsonTree
  import opened FieldDiff

  datatype HashRef = HashRef(hash: string, record: Record)

  datatype Diff = Diff(added: seq<HashRef>, removed: seq<HashRef>)

  type Buckets = map<string, seq<Record>>

  /** The content hash: of the canonical form, or none where a number has no canonical form. */
  function RecordHash(record: Record, gate: string -> bool, hash: Json -> string): Option<string> {
    match CanonicalHashValue(Obj(record), gate)
    case None => None
    case Some(canonical) => Some(hash(canonical))
  }

  /** Without collisions, records have one hash exactly when they are equal. */
  lemma SameHashIffEqual(a: Record, b: Record, gate: string -> bool, hash: Json -> string)
    requires forall x: Json, y: Json :: hash(x) == hash(y) ==> x == y
    ensures RecordHash(a, gate, hash).Some? && RecordHash(a, gate, hash) == RecordHash(b, gate, hash)
            <==> JsonValuesEqual(Obj(a), Obj(b), gate)
  {
    EqualIffSameCanonical(Obj(a), Obj(b), gate);
  }

  // ---------------------------------------------------------------- buckets

  predicate AllHashed(records: seq<Record>, hashOf: Record -> Option<string>) {
    forall i :: 0 <= i < |records| ==> hashOf(records[i]).Some?
  }

  function HashKey(hashOf: Record -> Option<string>): Record -> string {
    (record: Record) => if hashOf(record).Some? then hashOf(record).value else ""
  }

  function Hashes(records: seq<Record>, hashOf: Record -> Option<string>): (hashes: seq<string>)
    requires AllHashed(records, hashOf)
    ensures |hashes| == |records| && forall i :: 0 <= i < |records| ==> Some(hashes[i]) == hashOf(records[i])
  {
    KeysBy(records, HashKey(hashOf))
  }

  /** The records with one hash, in their order. */
  function Bucket(records: seq<Record>, hashOf: Record -> Option<string>, hash: string): seq<Record> {
    if records == [] then []
    else
      var last := records[|records| - 1];
      Bucket(records[..|records| - 1], hashOf, hash) + if hashOf(last) == Some(hash) then [last] else []
  }

  lemma {:induction false} BucketCounts(records: seq<Record>, hashOf: Record -> Option<string>, hash: string)
    requires AllHashed(records, hashOf)
    ensures |Bucket(records, hashOf, hash)| == multiset(Hashes(records, hashOf))[hash]
    ensures forall record :: record in Bucket(records, hashOf, hash) ==> hashOf(record) == Some(hash)
    ensures multiset(Bucket(records, hashOf, hash)) <= multiset(records)
  {
    if records != [] {
      var init, last := records[..|records| - 1], records[|records| - 1];
      BucketCounts(init, hashOf, hash);
      assert records == init + [last];
      assert Hashes(records, hashOf) == Hashes(init, hashOf) + [hashOf(last).value];
    }
  }

  function BucketAt(buckets: Buckets, hash: string): seq<Record> { if hash in buckets then buckets[hash] else [] }

  ghost predicate IsBucketing(records: seq<Record>, hashOf: Record -> Option<string>, buckets: Buckets) {
    && AllHashed(records, hashOf)
    && forall hash: string :: BucketAt(buckets, hash) == Bucket(records, hashOf, hash)
  }

  /** The records as they are compared: without their operational fields. */
  function FilterAll(records: seq<Record>, operational: set<string>): (filtered: seq<Record>)
    ensures |filtered| == |records|
    ensures forall i :: 0 <= i < |records| ==> filtered[i] == Filtered(records[i], operational, true)
  {
    seq(|records|, i requires 0 <= i < |records| => Filtered(records[i], operational, true))
  }

  /** Hashing fails exactly when some record, filtered, has no hash; the buckets hold the filtered records. */
  method HashRecords(records: seq<Record>, operational: set<string>, hashOf: Record -> Option<string>)
    returns (buckets: Option<Buckets>)
    ensures buckets.Some? <==> AllHashed(FilterAll(records, operational), hashOf)
    ensures buckets.Some? ==> IsBucketing(FilterAll(records, operational), hashOf, buckets.value)
  {
    ghost var all := FilterAll(records, operational);
    var m: Buckets := map[];
    for n := 0 to |records|
      invariant IsBucketing(all[..n], hashOf, m)
    {
      var filtered := Filtered(records[n], operational, true);
      var hash := hashOf(filtered);
      if hash.None? {
        return None;
      }
      assert all[..n + 1][..n] == all[..n];
      m := m[hash.value := BucketAt(m, hash.value) + [filtered]];
    }
    assert all[..|records|] == all;
    return Some(m);
  }

  // ---------------------------------------------------------------- the comparison

  function RefHashes(refs: seq<HashRef>): seq<string> { KeysBy(refs, (r: HashRef) => r.hash) }

  /** How many more records one side has with a hash. */
  function Surplus(here: seq<Record>, there: seq<Record>): nat { if |here| > |there| then |here| - |there| else 0 }

  /** The references list records of `here`, each under its hash, as many of each hash as `there` lacks. */
  ghost predicate ListsSurplus(refs: seq<HashRef>, here: seq<Record>, there: seq<Record>,
                               hashOf: Record -> Option<string>)
    requires AllHashed(here, hashOf) && AllHashed(there, hashOf)
  {
    && Ascending(RefHashes(refs))
    && multiset(RefHashes(refs)) == multiset(Hashes(here, hashOf)) - multiset(Hashes(there, hashOf))
    && forall i :: 0 <= i < |refs| ==> hashOf(refs[i].record) == Some(refs[i].hash) && refs[i].record in here
  }

  ghost predicate IsContentDiff(before: seq<Record>, after: seq<Record>, hashOf: Record -> Option<string>, d: Diff)
    requires AllHashed(before, hashOf) && AllHashed(after, hashOf)
  {
    ListsSurplus(d.added, after, before, hashOf) && ListsSurplus(d.removed, before, after, hashOf)
  }

  /** The references so far, when the first n hashes have been looked at. */
  ghost predicate SurplusSoFar(refs: seq<HashRef>, hashes: seq<string>, n: nat, here: Buckets, there: Buckets)
    requires n <= |hashes|
  {
    CountsSoFar(refs, hashes[..n], here, there) && Belong(refs, here)
  }

  ghost predicate CountsSoFar(refs: seq<HashRef>, done: seq<string>, here: Buckets, there: Buckets) {
    forall hash: string :: multiset(RefHashes(refs))[hash]
      == if hash in done then Surplus(BucketAt(here, hash), BucketAt(there, hash)) else 0
  }

  ghost predicate Belong(refs: seq<HashRef>, here: Buckets) {
    forall i :: 0 <= i < |refs| ==> refs[i].record in BucketAt(here, refs[i].hash)
  }

  function RefsOf(records: seq<Record>, hash: string): (refs: seq<HashRef>)
    ensures |refs| == |records| && forall i :: 0 <= i < |refs| ==> refs[i] == HashRef(hash, records[i])
  {
    seq(|records|, i requires 0 <= i < |records| => HashRef(hash, records[i]))
  }

  lemma {:induction false} Repeated(hashes: seq<string>, hash: string)
    requires forall i :: 0 <= i < |hashes| ==> hashes[i] == hash
    ensures forall h: string :: multiset(hashes)[h] == if h == hash then |hashes| else 0
  {
    if hashes != [] {
      assert hashes == hashes[..|hashes| - 1] + [hash];
      Repeated(hashes[..|hashes| - 1], hash);
    }
  }

  /** The references a hash adds: the end of the longer bucket. */
  function SurplusRefs(here: Buckets, there: Buckets, hash: string): seq<HashRef> {
    var bucket, other := BucketAt(here, hash), BucketAt(there, hash);
    if |bucket| > |other| then RefsOf(bucket[|other|..], hash) else []
  }

  lemma SurplusRefsCount(here: Buckets, there: Buckets, hash: string, h: string)
    ensures multiset(RefHashes(SurplusRefs(here, there, hash)))[h]
         == if h == hash then Surplus(BucketAt(here, hash), BucketAt(there, hash)) else 0
  {
    Repeated(RefHashes(SurplusRefs(here, there, hash)), hash);
  }

  lemma CountsAdd(refs: seq<HashRef>, extra: seq<HashRef>, h: string)
    ensures multiset(RefHashes(refs + extra))[h] == multiset(RefHashes(refs))[h] + multiset(RefHashes(extra))[h]
  {
    assert RefHashes(refs + extra) == RefHashes(refs) + RefHashes(extra);
  }

  lemma OneMore(hashes: seq<string>, n: nat, h: string)
    requires StrictlyAscending(hashes) && n < |hashes|
    ensures h in hashes[..n + 1] <==> h in hashes[..n] || h == hashes[n]
    ensures hashes[n] !in hashes[..n]
  {
    AscendingDistinct(hashes);
    assert hashes[..n + 1] == hashes[..n] + [hashes[n]];
  }

  lemma CountsStep(refs: seq<HashRef>, hashes: seq<string>, n: nat, here: Buckets, there: Buckets)
    requires StrictlyAscending(hashes) && n < |hashes| && CountsSoFar(refs, hashes[..n], here, there)
    ensures CountsSoFar(refs + SurplusRefs(here, there, hashes[n]), hashes[..n + 1], here, there)
  {
    forall h: string
      ensures multiset(RefHashes(refs + SurplusRefs(here, there, hashes[n])))[h]
           == if h in hashes[..n + 1] then Surplus(BucketAt(here, h), BucketAt(there, h)) else 0
    {
      SurplusRefsCount(here, there, hashes[n], h);
      CountsAdd(refs, SurplusRefs(here, there, hashes[n]), h);
      OneMore(hashes, n, h);
    }
  }

  lemma BelongStep(refs: seq<HashRef>, hash: string, here: Buckets, there: Buckets)
    requires Belong(refs, here)
    ensures Belong(refs + SurplusRefs(here, there, hash), here)
  {
    assert Belong(SurplusRefs(here, there, hash), here);
  }

  lemma SurplusStep(refs: seq<HashRef>, hashes: seq<string>, n: nat, here: Buckets, there: Buckets)
    requires StrictlyAscending(hashes) && n < |hashes| && SurplusSoFar(refs, hashes, n, here, there)
    ensures SurplusSoFar(refs + SurplusRefs(here, there, hashes[n]), hashes, n + 1, here, there)
  {
    CountsStep(refs, hashes, n, here, there);
    BelongStep(refs, hashes[n], here, there);
  }

  method CompareBuckets(before: Buckets, after: Buckets) returns (d: Diff, ghost hashes: seq<string>)
    ensures forall hash :: hash in before || hash in after ==> hash in hashes
    ensures Ascending(RefHashes(d.added)) && SurplusSoFar(d.added, hashes, |hashes|, after, before)
    ensures Ascending(RefHashes(d.removed)) && SurplusSoFar(d.removed, hashes, |hashes|, before, after)
  {
    var keys := SortedUnion(before.Keys, after.Keys);
    var added: seq<HashRef>, removed: seq<HashRef> := [], [];
    for n := 0 to |keys|
      invariant SurplusSoFar(added, keys, n, after, before)
      invariant SurplusSoFar(removed, keys, n, before, after)
    {
      SurplusStep(added, keys, n, after, before);
      SurplusStep(removed, keys, n, before, after);
      var less, more := BucketAt(before, keys[n]), BucketAt(after, keys[n]);
      if |less| > |more| {
        removed := AppendRefs(removed, less[|more|..], keys[n]);
        assert added + [] == added;
      } else if |more| > |less| {
        added := AppendRefs(added, more[|less|..], keys[n]);
        assert removed + [] == removed;
      } else {
        assert added + [] == added && removed + [] == removed;
      }
    }
    hashes := keys;
    var sortedAdded := SortRecordRefs(added, hashes, after, before);
    var sortedRemoved := SortRecordRefs(removed, hashes, before, after);
    d := Diff(sortedAdded, sortedRemoved);
  }

  method SortRecordRefs(refs: seq<HashRef>, ghost hashes: seq<string>, ghost here: Buckets, ghost there: Buckets)
    returns (sorted: seq<HashRef>)
    requires SurplusSoFar(refs, hashes, |hashes|, here, there)
    ensures Ascending(RefHashes(sorted)) && multiset(sorted) == multiset(refs)
    ensures SurplusSoFar(sorted, hashes, |hashes|, here, there)
  {
    sorted := SortBy(refs, (r: HashRef) => r.hash);
    KeysOfPermutation(refs, sorted, (r: HashRef) => r.hash);
    forall i | 0 <= i < |sorted|
      ensures sorted[i].record in BucketAt(here, sorted[i].hash)
    {
      assert sorted[i] in multiset(refs);
    }
  }

  method AppendRefs(refs: seq<HashRef>, records: seq<Record>, hash: string) returns (longer: seq<HashRef>)
    ensures longer == refs + RefsOf(records, hash)
  {
    longer := refs;
    for i := 0 to |records|
      invariant longer == refs + RefsOf(records[..i], hash)
    {
      longer := longer + [HashRef(hash, records[i])];
    }
    assert records[..|records|] == records;
  }

  lemma CountsAreDifference(refs: seq<HashRef>, hashes: seq<string>, here: seq<Record>, there: seq<Record>,
                            hereBuckets: Buckets, thereBuckets: Buckets, hashOf: Record -> Option<string>, hash: string)
    requires IsBucketing(here, hashOf, hereBuckets) && IsBucketing(there, hashOf, thereBuckets)
    requires hash in hereBuckets || hash in thereBuckets ==> hash in hashes
    requires CountsSoFar(refs, hashes, hereBuckets, thereBuckets)
    ensures multiset(RefHashes(refs))[hash]
         == (multiset(Hashes(here, hashOf)) - multiset(Hashes(there, hashOf)))[hash]
  {
    BucketCounts(here, hashOf, hash);
    BucketCounts(there, hashOf, hash);
    assert BucketAt(hereBuckets, hash) == Bucket(here, hashOf, hash);
    assert BucketAt(thereBuckets, hash) == Bucket(there, hashOf, hash);
  }

  lemma BelongingHash(record: Record, hash: string, here: seq<Record>, buckets: Buckets,
                      hashOf: Record -> Option<string>)
    requires IsBucketing(here, hashOf, buckets) && record in BucketAt(buckets, hash)
    ensures hashOf(record) == Some(hash) && record in here
  {
    BucketCounts(here, hashOf, hash);
    assert BucketAt(buckets, hash) == Bucket(here, hashOf, hash);
    assert record in multiset(Bucket(here, hashOf, hash));
    assert record in multiset(here);
  }

  lemma SurplusIsDifference(refs: seq<HashRef>, hashes: seq<string>, here: seq<Record>, there: seq<Record>,
                            hereBuckets: Buckets, thereBuckets: Buckets, hashOf: Record -> Option<string>)
    requires IsBucketing(here, hashOf, hereBuckets) && IsBucketing(there, hashOf, thereBuckets)
    requires forall hash :: hash in hereBuckets || hash in thereBuckets ==> hash in hashes
    requires Ascending(RefHashes(refs)) && SurplusSoFar(refs, hashes, |hashes|, hereBuckets, thereBuckets)
    ensures ListsSurplus(refs, here, there, hashOf)
  {
    assert multiset(RefHashes(refs)) == multiset(Hashes(here, hashOf)) - multiset(Hashes(there, hashOf)) by {
      assert hashes[..|hashes|] == hashes;
      forall hash: string
        ensures multiset(RefHashes(refs))[hash]
             == (multiset(Hashes(here, hashOf)) - multiset(Hashes(there, hashOf)))[hash]
      {
        CountsAreDifference(refs, hashes, here, there, hereBuckets, thereBuckets, hashOf, hash);
      }
    }
    forall i | 0 <= i < |refs|
      ensures hashOf(refs[i].record) == Some(refs[i].hash) && refs[i].record in here
    {
      BelongingHash(refs[i].record, refs[i].hash, here, hereBuckets, hashOf);
    }
  }

  /** The diff of two dumps: that of their filtered records. */
  ghost predicate IsDiffOf(before: seq<Record>, after: seq<Record>, operational: set<string>,
                           hashOf: Record -> Option<string>, d: Diff)
  {
    var less, more := FilterAll(before, operational), FilterAll(after, operational);
    AllHashed(less, hashOf) && AllHashed(more, hashOf) && IsContentDiff(less, more, hashOf, d)
  }

  /** The whole comparison of the filtered records; None is a record that cannot be hashed. */
  method CompareContentHash(before: seq<Record>, after: seq<Record>, operational: set<string>,
                            hashOf: Record -> Option<string>) returns (d: Option<Diff>)
    ensures d.Some? <==>
              AllHashed(FilterAll(before, operational), hashOf) && AllHashed(FilterAll(after, operational), hashOf)
    ensures d.Some? ==> IsDiffOf(before, after, operational, hashOf, d.value)
  {
    var old_ := HashRecords(before, operational, hashOf);
    if old_.None? {
      return None;
    }
    var new_ := HashRecords(after, operational, hashOf);
    if new_.None? {
      return None;
    }
    ghost var less, more := FilterAll(before, operational), FilterAll(after, operational);
    ghost var hashes;
    var diff;
    diff, hashes := CompareBuckets(old_.value, new_.value);
    SurplusIsDifference(diff.added, hashes, more, less, new_.value, old_.value, hashOf);
    SurplusIsDifference(diff.removed, hashes, less, more, old_.value, new_.value, hashOf);
    return Some(diff);
  }

  // ---------------------------------------------------------------- what a content diff is

  /** Old hashes, less the removed ones, with the added ones are the new hashes; no hash is on both
      sides; and nothing is reported exactly when the hashes are the same. */
  lemma ContentDiffIsTheDifference(before: seq<Record>, after: seq<Record>, hashOf: Record -> Option<string>, d: Diff)
    requires AllHashed(before, hashOf) && AllHashed(after, hashOf) && IsContentDiff(before, after, hashOf, d)
    ensures multiset(RefHashes(d.removed)) <= multiset(Hashes(before, hashOf))
    ensures multiset(Hashes(before, hashOf)) - multiset(RefHashes(d.removed)) + multiset(RefHashes(d.added))
         == multiset(Hashes(after, hashOf))
    ensures multiset(RefHashes(d.removed)) !! multiset(RefHashes(d.added))
    ensures d == Diff([], []) <==> multiset(Hashes(before, hashOf)) == multiset(Hashes(after, hashOf))
  {
    assert |RefHashes(d.added)| == |multiset(RefHashes(d.added))|;
    assert |RefHashes(d.removed)| == |multiset(RefHashes(d.removed))|;
  }

  lemma FilteredPermutation(records: seq<Record>, records': seq<Record>, operational: set<string>)
    requires multiset(records) == multiset(records')
    ensures multiset(FilterAll(records, operational)) == multiset(FilterAll(records', operational))
  {
    var filter := (record: Record) => Filtered(record, operational, true);
    KeysOfPermutation(records, records', filter);
    assert FilterAll(records, operational) == KeysBy(records, filter);
    assert FilterAll(records', operational) == KeysBy(records', filter);
  }

  /** The hash lists depend only on which records the two dumps hold and how often: permuting either dump
      changes neither list. */
  lemma HashListsIgnoreOrder(before: seq<Record>, after: seq<Record>, before': seq<Record>, after': seq<Record>,
                             operational: set<string>, hashOf: Record -> Option<string>, d: Diff, d': Diff)
    requires IsDiffOf(before, after, operational, hashOf, d) && IsDiffOf(before', after', operational, hashOf, d')
    requires multiset(before) == multiset(before') && multiset(after) == multiset(after')
    ensures RefHashes(d.added) == RefHashes(d'.added) && RefHashes(d.removed) == RefHashes(d'.removed)
  {
    FilteredPermutation(before, before', operational);
    FilteredPermutation(after, after', operational);
    KeysOfPermutation(FilterAll(before, operational), FilterAll(before', operational), HashKey(hashOf));
    KeysOfPermutation(FilterAll(after, operational), FilterAll(after', operational), HashKey(hashOf));
    AscendingIsUnique(RefHashes(d.added), RefHashes(d'.added));
    AscendingIsUnique(RefHashes(d.removed), RefHashes(d'.removed));
  }
}
