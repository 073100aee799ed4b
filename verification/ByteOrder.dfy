/** Go compares and sorts strings byte by byte (`<`, sort.Strings, sort.Slice on an id).
    A string here is a sequence of bytes, each written as the char with that code. */
module ByteOrder {

  predicate Less(a: string, b: string) {
    b != "" && (a == "" || a[0] < b[0] || (a[0] == b[0] && Less(a[1..], b[1..])))
  }

  lemma {:induction false} LessIsAsymmetric(a: string, b: string)
    ensures !(Less(a, b) && Less(b, a))
    decreases |a|
  {
    if a != "" && b != "" {
      LessIsAsymmetric(a[1..], b[1..]);
    }
  }

  lemma {:induction false} LessIsTransitive(a: string, b: string, c: string)
    requires Less(a, b) && Less(b, c)
    ensures Less(a, c)
    decreases |a|
  {
    if a != "" && a[0] == b[0] == c[0] {
      LessIsTransitive(a[1..], b[1..], c[1..]);
    }
  }

  lemma {:induction false} LessIsTotal(a: string, b: string)
    ensures Less(a, b) || a == b || Less(b, a)
    decreases |a|
  {
    if a != "" && b != "" && a[0] == b[0] {
      LessIsTotal(a[1..], b[1..]);
      assert a == [a[0]] + a[1..] && b == [b[0]] + b[1..];
    }
  }

  /** `s` is in nondecreasing order of the key. */
  ghost predicate SortedBy<T(!new)>(s: seq<T>, key: T -> string) {
    forall i, j | 0 <= i < j < |s| :: !Less(key(s[j]), key(s[i]))
  }

  function Self(s: string): string {
    s
  }

  ghost predicate Sorted(s: seq<string>) {
    SortedBy(s, Self)
  }

  ghost predicate NoDuplicates<T>(s: seq<T>) {
    forall i, j | 0 <= i < j < |s| :: s[i] != s[j]
  }

  /** The key tells any two elements of `s` apart. */
  ghost predicate KeyedApart<T(!new)>(s: seq<T>, key: T -> string) {
    forall i, j | 0 <= i < |s| && 0 <= j < |s| && key(s[i]) == key(s[j]) :: s[i] == s[j]
  }

  function Insert<T>(x: T, s: seq<T>, key: T -> string): (r: seq<T>)
    ensures multiset(r) == multiset{x} + multiset(s)
  {
    if s == [] || !Less(key(s[0]), key(x)) then [x] + s
    else
      assert s == [s[0]] + s[1..];
      [s[0]] + Insert(x, s[1..], key)
  }

  /** sort.Strings and sort.Slice on a string key. */
  function SortBy<T>(s: seq<T>, key: T -> string): (r: seq<T>)
    ensures multiset(r) == multiset(s)
  {
    if s == [] then []
    else
      assert s == [s[0]] + s[1..];
      Insert(s[0], SortBy(s[1..], key), key)
  }

  function SortStrings(s: seq<string>): (r: seq<string>)
    ensures multiset(r) == multiset(s)
  {
    SortBy(s, Self)
  }

  lemma {:induction false} InsertKeepsOrder<T(!new)>(x: T, s: seq<T>, key: T -> string)
    requires SortedBy(s, key)
    ensures SortedBy(Insert(x, s, key), key)
  {
    var r := Insert(x, s, key);
    if s == [] {
    } else if !Less(key(s[0]), key(x)) {
      forall i, j | 0 <= i < j < |r| ensures !Less(key(r[j]), key(r[i])) {
        if i == 0 && j > 1 {
          NotLessTransitive(key(s[j - 1]), key(s[0]), key(x));
        }
      }
    } else {
      InsertKeepsOrder(x, s[1..], key);
      var t := Insert(x, s[1..], key);
      LessIsAsymmetric(key(s[0]), key(x));
      forall j | 0 < j < |r| ensures !Less(key(r[j]), key(r[0])) {
        assert r[j] == t[j - 1] && t[j - 1] in multiset(t);
        assert r[j] == x || r[j] in s[1..];
      }
    }
  }

  lemma NotLessTransitive(c: string, b: string, a: string)
    requires !Less(c, b) && !Less(b, a)
    ensures !Less(c, a)
  {
    LessIsTotal(b, c);
    LessIsTotal(a, b);
    if a != b && b != c {
      LessIsTransitive(a, b, c);
    }
    LessIsAsymmetric(a, c);
  }

  lemma {:induction false} SortByIsSorted<T(!new)>(s: seq<T>, key: T -> string)
    ensures SortedBy(SortBy(s, key), key)
  {
    if s != [] {
      SortByIsSorted(s[1..], key);
      InsertKeepsOrder(s[0], SortBy(s[1..], key), key);
    }
  }

  lemma SortedHeadIsLeast<T(!new)>(s: seq<T>, key: T -> string, x: T)
    requires SortedBy(s, key) && x in s
    ensures !Less(key(x), key(s[0]))
  {
    LessIsAsymmetric(key(x), key(x));
  }

  lemma SameLength<T>(a: seq<T>, b: seq<T>)
    requires multiset(a) == multiset(b)
    ensures |a| == |b|
  {
    assert |a| == |multiset(a)| && |b| == |multiset(b)|;
  }

  lemma TailsPermute<T>(a: seq<T>, b: seq<T>)
    requires a != [] && b != [] && a[0] == b[0] && multiset(a) == multiset(b)
    ensures multiset(a[1..]) == multiset(b[1..])
  {
    assert a == [a[0]] + a[1..] && b == [b[0]] + b[1..];
    assert multiset(a[1..]) == multiset(a) - multiset{a[0]};
  }

  lemma SortedHeadsAgree<T(!new)>(a: seq<T>, b: seq<T>, key: T -> string)
    requires SortedBy(a, key) && SortedBy(b, key)
    requires a != [] && b != [] && multiset(a) == multiset(b)
    requires KeyedApart(a, key)
    ensures a[0] == b[0]
  {
    assert a[0] in multiset(b) && b[0] in multiset(a);
    SortedHeadIsLeast(a, key, b[0]);
    SortedHeadIsLeast(b, key, a[0]);
    LessIsTotal(key(a[0]), key(b[0]));
  }

  lemma TailStaysSorted<T(!new)>(s: seq<T>, key: T -> string)
    requires SortedBy(s, key) && s != []
    ensures SortedBy(s[1..], key)
  {
    forall i, j | 0 <= i < j < |s[1..]| ensures !Less(key(s[1..][j]), key(s[1..][i])) {
      assert !Less(key(s[j + 1]), key(s[i + 1]));
    }
  }

  /** A sorted arrangement of elements with distinct keys is unique, so the (unstable) sort has one answer. */
  lemma {:induction false} SortedIsUnique<T(!new)>(a: seq<T>, b: seq<T>, key: T -> string)
    requires SortedBy(a, key) && SortedBy(b, key)
    requires multiset(a) == multiset(b)
    requires KeyedApart(a, key)
    ensures a == b
  {
    SameLength(a, b);
    if a != [] {
      SortedHeadsAgree(a, b, key);
      TailsPermute(a, b);
      var a', b' := a[1..], b[1..];
      TailStaysSorted(a, key);
      TailStaysSorted(b, key);
      assert forall i | 0 <= i < |a'| :: a'[i] == a[i + 1];
      SortedIsUnique(a', b', key);
      assert a == [a[0]] + a' && b == [b[0]] + b';
    }
  }

  /** Sorting forgets the order the elements came in. */
  lemma SortIgnoresOrder<T(!new)>(a: seq<T>, b: seq<T>, key: T -> string)
    requires multiset(a) == multiset(b)
    requires KeyedApart(a, key)
    ensures SortBy(a, key) == SortBy(b, key)
  {
    SortByIsSorted(a, key);
    SortByIsSorted(b, key);
    SameElements(SortBy(a, key), a);
    forall i, j | 0 <= i < |SortBy(a, key)| && 0 <= j < |SortBy(a, key)| &&
                  key(SortBy(a, key)[i]) == key(SortBy(a, key)[j])
      ensures SortBy(a, key)[i] == SortBy(a, key)[j]
    {
      assert SortBy(a, key)[i] in a && SortBy(a, key)[j] in a;
    }
    SortedIsUnique(SortBy(a, key), SortBy(b, key), key);
  }

  lemma SortStringsIgnoresOrder(a: seq<string>, b: seq<string>)
    requires multiset(a) == multiset(b)
    ensures SortStrings(a) == SortStrings(b) && Sorted(SortStrings(a))
  {
    SortIgnoresOrder(a, b, Self);
    SortByIsSorted(a, Self);
  }

  lemma SameElements<T>(a: seq<T>, b: seq<T>)
    requires multiset(a) == multiset(b)
    ensures |a| == |b|
    ensures forall x :: x in a <==> x in b
    ensures NoDuplicates(a) ==> NoDuplicates(b)
  {
    SameLength(a, b);
    forall x ensures x in a <==> x in b {
      assert x in a <==> x in multiset(a);
      assert x in b <==> x in multiset(b);
    }
    if NoDuplicates(a) {
      forall x ensures multiset(a)[x] <= 1 { CountInDistinct(a, x); }
      forall i, j | 0 <= i < j < |b| ensures b[i] != b[j] {
        CountedOnce(b, i, j);
      }
    }
  }

  lemma CountedOnce<T>(s: seq<T>, i: nat, j: nat)
    requires i < j < |s| && multiset(s)[s[i]] <= 1
    ensures s[i] != s[j]
  {
    assert s == s[..i] + [s[i]] + s[i + 1..j] + [s[j]] + s[j + 1..];
    assert multiset(s)[s[j]] >= multiset([s[i]])[s[j]] + multiset([s[j]])[s[j]];
  }

  lemma {:induction false} CountInDistinct<T>(s: seq<T>, x: T)
    requires NoDuplicates(s)
    ensures multiset(s)[x] == (if x in s then 1 else 0)
  {
    if s != [] {
      assert s == [s[0]] + s[1..];
      CountInDistinct(s[1..], x);
    }
  }

  /** Two duplicate-free sequences over the same set are permutations of each other. */
  lemma DistinctSequencesPermute<T>(a: seq<T>, b: seq<T>)
    requires NoDuplicates(a) && NoDuplicates(b)
    requires forall x :: x in a <==> x in b
    ensures multiset(a) == multiset(b)
  {
    forall x ensures multiset(a)[x] == multiset(b)[x] {
      CountInDistinct(a, x);
      CountInDistinct(b, x);
    }
  }

  // ---- the keys of a map, sorted ----

  /** The elements of a set in ascending order: what collecting the keys of a map and sorting them gives. */
  ghost function SortedKeys(keys: set<string>): (r: seq<string>)
    ensures NoDuplicates(r) && forall x :: x in r <==> x in keys
  {
    if keys == {} then []
    else
      var x :| x in keys;
      var r := Insert(x, SortedKeys(keys - {x}), Self);
      InsertNew(x, SortedKeys(keys - {x}));
      r
  }

  lemma InsertNew(x: string, s: seq<string>)
    requires x !in s && NoDuplicates(s)
    ensures NoDuplicates(Insert(x, s, Self))
    ensures forall y :: y in Insert(x, s, Self) <==> y == x || y in s
  {
    assert multiset([x] + s) == multiset(Insert(x, s, Self));
    SameElements([x] + s, Insert(x, s, Self));
  }

  lemma {:induction false} SortedKeysAreSorted(keys: set<string>)
    ensures Sorted(SortedKeys(keys))
  {
    if keys != {} {
      var x :| x in keys && SortedKeys(keys) == Insert(x, SortedKeys(keys - {x}), Self);
      SortedKeysAreSorted(keys - {x});
      InsertKeepsOrder(x, SortedKeys(keys - {x}), Self);
    }
  }

  lemma LaterKeysAreNotLess(keys: set<string>, i: nat, k: string)
    requires i < |SortedKeys(keys)| && k in keys && k !in SortedKeys(keys)[..i]
    ensures !Less(k, SortedKeys(keys)[i])
  {
    var r := SortedKeys(keys);
    SortedKeysAreSorted(keys);
    var j :| 0 <= j < |r| && r[j] == k;
    LessIsAsymmetric(k, k);
    assert j > i ==> !Less(Self(r[j]), Self(r[i]));
  }

  /** Range over a map in whatever order, append the keys, sort them. */
  method CollectKeys(keys: set<string>) returns (sorted: seq<string>)
    ensures sorted == SortedKeys(keys)
  {
    var collected: seq<string> := [];
    var rest := keys;
    while rest != {}
      invariant rest <= keys && NoDuplicates(collected)
      invariant forall x :: x in collected <==> x in keys && x !in rest
      decreases |rest|
    {
      var x :| x in rest;
      rest := rest - {x};
      collected := collected + [x];
    }
    sorted := SortStrings(collected);
    DistinctSequencesPermute(collected, SortedKeys(keys));
    SortStringsIgnoresOrder(collected, collected);
    SortedKeysAreSorted(keys);
    SortedIsUnique(sorted, SortedKeys(keys), Self);
  }
}
