/** The order of strings, and sorting by it. */
module Order {

  /** Byte order, a prefix first. */
  predicate Less(a: string, b: string)
    decreases |a|
  {
    if b == "" then false
    else if a == "" then true
    else a[0] < b[0] || (a[0] == b[0] && Less(a[1..], b[1..]))
  }

  /** The strings agree on n characters, and then a is at its end or has the smaller character. */
  predicate LessAt(a: string, b: string, n: nat) {
    n <= |a| && n < |b| && a[..n] == b[..n] && (n == |a| || a[n] < b[n])
  }

  /** A string is less than another exactly when it is a proper prefix or smaller at the first difference. */
  lemma {:induction false} LessIff(a: string, b: string)
    ensures Less(a, b) <==> exists n: nat :: LessAt(a, b, n)
    decreases |a|
  {
    if a == "" || b == "" {
      assert b != "" ==> LessAt(a, b, 0);
    } else {
      LessIff(a[1..], b[1..]);
      if a[0] < b[0] {
        assert LessAt(a, b, 0);
      } else if n: nat :| LessAt(a[1..], b[1..], n) && a[0] == b[0] {
        assert a[..n + 1] == [a[0]] + a[1..][..n] && b[..n + 1] == [b[0]] + b[1..][..n];
        assert LessAt(a, b, n + 1);
      }
      if n: nat :| LessAt(a, b, n) {
        if n > 0 {
          assert a[..n][0] == b[..n][0];
          assert a[1..][..n - 1] == a[..n][1..] && b[1..][..n - 1] == b[..n][1..];
          assert LessAt(a[1..], b[1..], n - 1);
        }
      }
    }
  }

  predicate AtMost(a: string, b: string) { a == b || Less(a, b) }

  lemma {:induction false} LessTransitive(a: string, b: string, c: string)
    requires Less(a, b) && Less(b, c)
    ensures Less(a, c)
  {
    if a != "" && a[0] == b[0] == c[0] {
      LessTransitive(a[1..], b[1..], c[1..]);
    }
  }

  lemma {:induction false} LessIsTotal(a: string, b: string)
    ensures (a == b && !Less(a, b) && !Less(b, a)) || (a != b && (Less(a, b) <==> !Less(b, a)))
  {
    if a != "" && b != "" {
      LessIsTotal(a[1..], b[1..]);
      assert a == [a[0]] + a[1..] && b == [b[0]] + b[1..];
    }
  }

  predicate Ascending(s: seq<string>) { forall i, j :: 0 <= i < j < |s| ==> AtMost(s[i], s[j]) }

  predicate StrictlyAscending(s: seq<string>) { forall i, j :: 0 <= i < j < |s| ==> Less(s[i], s[j]) }

  predicate Distinct(s: seq<string>) { forall i, j :: 0 <= i < j < |s| ==> s[i] != s[j] }

  lemma AscendingDistinct(s: seq<string>)
    ensures StrictlyAscending(s) <==> Ascending(s) && Distinct(s)
  {
    forall i, j | 0 <= i < j < |s|
      ensures Less(s[i], s[j]) ==> s[i] != s[j]
    {
      LessIsTotal(s[i], s[j]);
    }
  }

  /** An ascending list is determined by its elements and their multiplicities. */
  lemma {:induction false} AscendingIsUnique(s: seq<string>, t: seq<string>)
    requires Ascending(s) && Ascending(t) && multiset(s) == multiset(t)
    ensures s == t
  {
    assert |s| == |multiset(s)| && |t| == |multiset(t)|;
    if s != [] {
      SameFirst(s, t);
      TailCounts(s);
      TailCounts(t);
      AscendingIsUnique(s[1..], t[1..]);
      assert s == [s[0]] + s[1..] && t == [t[0]] + t[1..];
    }
  }

  lemma TailCounts(s: seq<string>)
    requires s != []
    ensures multiset(s[1..]) == multiset(s) - multiset{s[0]}
  {
    assert s == [s[0]] + s[1..];
  }

  lemma SameFirst(s: seq<string>, t: seq<string>)
    requires Ascending(s) && Ascending(t) && multiset(s) == multiset(t) && s != [] && t != []
    ensures s[0] == t[0]
  {
    assert s[0] in multiset(t) && t[0] in multiset(s);
    LessIsTotal(s[0], t[0]);
  }

  lemma {:induction false} DistinctCounts(s: seq<string>, x: string)
    requires Distinct(s)
    ensures multiset(s)[x] == if x in s then 1 else 0
  {
    if s != [] {
      assert s == [s[0]] + s[1..];
      DistinctCounts(s[1..], x);
    }
  }

  /** A strictly ascending list is determined by the set of its elements. */
  lemma StrictlyAscendingIsUnique(s: seq<string>, t: seq<string>)
    requires StrictlyAscending(s) && StrictlyAscending(t) && forall x :: x in s <==> x in t
    ensures s == t
  {
    AscendingDistinct(s);
    AscendingDistinct(t);
    forall x: string
      ensures multiset(s)[x] == multiset(t)[x]
    {
      DistinctCounts(s, x);
      DistinctCounts(t, x);
    }
    assert multiset(s) == multiset(t);
    AscendingIsUnique(s, t);
  }

  // ---------------------------------------------------------------- the library's sort, by a key

  function KeysBy<T, K>(s: seq<T>, key: T -> K): (keys: seq<K>)
    ensures |keys| == |s| && forall i :: 0 <= i < |s| ==> keys[i] == key(s[i])
  {
    seq(|s|, i requires 0 <= i < |s| => key(s[i]))
  }

  lemma Without<T>(s: seq<T>, i: nat)
    requires i < |s|
    ensures multiset(s) == multiset(s[..i] + s[i + 1..]) + multiset{s[i]}
  {
    assert s == s[..i] + [s[i]] + s[i + 1..];
  }

  lemma KeysWithout<T, K>(s: seq<T>, i: nat, key: T -> K)
    requires i < |s|
    ensures multiset(KeysBy(s, key)) == multiset(KeysBy(s[..i] + s[i + 1..], key)) + multiset{key(s[i])}
  {
    Without(KeysBy(s, key), i);
    assert KeysBy(s[..i] + s[i + 1..], key) == KeysBy(s, key)[..i] + KeysBy(s, key)[i + 1..];
  }

  /** Reordering elements only reorders their keys. */
  lemma {:induction false} KeysOfPermutation<T, K>(s: seq<T>, t: seq<T>, key: T -> K)
    requires multiset(s) == multiset(t)
    ensures multiset(KeysBy(s, key)) == multiset(KeysBy(t, key))
    decreases |s|
  {
    assert |s| == |multiset(s)| && |t| == |multiset(t)|;
    if s != [] {
      assert s[0] in multiset(t);
      var i :| 0 <= i < |t| && t[i] == s[0];
      SmallerPermutation(s, t, i);
      KeysOfPermutation(s[..0] + s[1..], t[..i] + t[i + 1..], key);
      KeysWithout(s, 0, key);
      KeysWithout(t, i, key);
    }
  }

  lemma SmallerPermutation<T>(s: seq<T>, t: seq<T>, i: nat)
    requires s != [] && i < |t| && t[i] == s[0] && multiset(s) == multiset(t)
    ensures multiset(s[..0] + s[1..]) == multiset(t[..i] + t[i + 1..])
  {
    Without(s, 0);
    Without(t, i);
    assert multiset(s[..0] + s[1..]) == multiset(s) - multiset{s[0]};
    assert multiset(t[..i] + t[i + 1..]) == multiset(t) - multiset{s[0]};
  }

  /** Some order of the elements in which the keys ascend. */
  method SortBy<T(==)>(s: seq<T>, key: T -> string) returns (t: seq<T>)
    ensures Ascending(KeysBy(t, key)) && multiset(t) == multiset(s)
  {
    t := [];
    for n := 0 to |s|
      invariant Ascending(KeysBy(t, key)) && multiset(t) == multiset(s[..n])
    {
      t := Insert(t, s[n], key);
      assert s[..n + 1] == s[..n] + [s[n]];
    }
    assert s[..|s|] == s;
  }

  method Sort(s: seq<string>) returns (t: seq<string>)
    ensures Ascending(t) && multiset(t) == multiset(s)
    ensures forall x :: x in t <==> x in s
    ensures Distinct(s) ==> StrictlyAscending(t)
  {
    t := SortBy(s, x => x);
    assert KeysBy(t, x => x) == t;
    assert forall x :: x in t <==> x in multiset(t);
    if Distinct(s) {
      SameCountsStayDistinct(s, t);
      AscendingDistinct(t);
    }
  }

  lemma SameCountsStayDistinct(s: seq<string>, t: seq<string>)
    requires Distinct(s) && multiset(s) == multiset(t)
    ensures Distinct(t)
  {
    forall i, j | 0 <= i < j < |t|
      ensures t[i] != t[j]
    {
      DistinctCounts(s, t[i]);
      TwoPlaces(t, i, j);
    }
  }

  lemma TwoPlaces(t: seq<string>, i: nat, j: nat)
    requires i < j < |t|
    ensures multiset(t)[t[i]] >= if t[i] == t[j] then 2 else 1
  {
    assert t == t[..i] + [t[i]] + t[i + 1..j] + [t[j]] + t[j + 1..];
  }

  function Insert<T>(t: seq<T>, x: T, key: T -> string): (r: seq<T>)
    requires Ascending(KeysBy(t, key))
    ensures Ascending(KeysBy(r, key)) && multiset(r) == multiset(t) + multiset{x}
  {
    if t == [] then [x]
    else if AtMost(key(x), key(t[0])) then
      InsertFirst(KeysBy(t, key), key(x));
      assert KeysBy([x] + t, key) == [key(x)] + KeysBy(t, key);
      [x] + t
    else
      assert t == [t[0]] + t[1..];
      assert KeysBy(t[1..], key) == KeysBy(t, key)[1..];
      var r := Insert(t[1..], x, key);
      InsertLater(t, x, r, key);
      [t[0]] + r
  }

  lemma InsertFirst(t: seq<string>, x: string)
    requires Ascending(t) && t != [] && AtMost(x, t[0])
    ensures Ascending([x] + t)
  {
    forall j | 0 <= j < |t|
      ensures AtMost(x, t[j])
    {
      if x != t[0] && t[0] != t[j] {
        LessTransitive(x, t[0], t[j]);
      }
    }
  }

  lemma InsertLater<T>(t: seq<T>, x: T, r: seq<T>, key: T -> string)
    requires Ascending(KeysBy(t, key)) && t != [] && !AtMost(key(x), key(t[0]))
    requires Ascending(KeysBy(r, key)) && multiset(r) == multiset(t[1..]) + multiset{x}
    ensures Ascending(KeysBy([t[0]] + r, key))
  {
    LessIsTotal(key(x), key(t[0]));
    forall j | 0 <= j < |r|
      ensures AtMost(key(t[0]), key(r[j]))
    {
      assert r[j] in multiset(r);
      if r[j] != x {
        assert r[j] in t[1..];
        var i :| 1 <= i < |t| && t[i] == r[j];
        assert AtMost(KeysBy(t, key)[0], KeysBy(t, key)[i]);
      }
    }
    assert KeysBy([t[0]] + r, key) == [key(t[0])] + KeysBy(r, key);
  }
}
