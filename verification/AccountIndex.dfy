/** A one-pass index: the first entry for each key, and the keys for which a different entry followed. */
module AccountIndex {

  datatype Lookup<+E> = Absent | Ambiguous | Found(entry: E)

  /** The map and the ambiguity set that the loading loops fill line by line. */
  datatype Index<K(==), E> = Index(first: map<K, E>, duplicated: set<K>)

  function Add<K, E(==)>(ix: Index<K, E>, k: K, e: E): Index<K, E> {
    if k in ix.first then
      if ix.first[k] != e then ix.(duplicated := ix.duplicated + {k}) else ix
    else ix.(first := ix.first[k := e])
  }

  function IndexBy<K, E(==)>(entries: seq<E>, key: E -> K): Index<K, E> {
    if entries == [] then Index(map[], {})
    else
      var last := entries[|entries| - 1];
      Add(IndexBy(entries[..|entries| - 1], key), key(last), last)
  }

  function Find<K, E>(ix: Index<K, E>, k: K): Lookup<E> {
    if k in ix.duplicated then Ambiguous
    else if k in ix.first then Found(ix.first[k])
    else Absent
  }

  /** The entries filed under a key. */
  function Filed<K(==), E(==)>(entries: seq<E>, key: E -> K, k: K): set<E> {
    set e | e in entries && key(e) == k
  }

  /** What the index says about one key, given the entries filed under it. */
  ghost predicate Indexed<K, E>(ix: Index<K, E>, k: K, filed: set<E>) {
    && (k in ix.first <==> exists e :: e in filed)
    && (k in ix.first ==> ix.first[k] in filed)
    && (k in ix.duplicated <==> exists a, b :: a in filed && b in filed && a != b)
    && (k in ix.duplicated ==> k in ix.first)
  }

  lemma FiledStep<K, E>(init: seq<E>, last: E, key: E -> K, k: K)
    ensures Filed(init + [last], key, k) == if key(last) == k then Filed(init, key, k) + {last} else Filed(init, key, k)
  {
  }

  lemma AddKeepsIndexed<K, E>(ix: Index<K, E>, k: K, filed: set<E>, e: E)
    requires Indexed(ix, k, filed)
    ensures Indexed(Add(ix, k, e), k, filed + {e})
  {
    var after := filed + {e};
    assert e in after;
    if k in ix.first && ix.first[k] != e {
      assert ix.first[k] in after;
    }
  }

  lemma AddLeavesOthers<K, E>(ix: Index<K, E>, k: K, j: K, filed: set<E>, e: E)
    requires Indexed(ix, k, filed) && j != k
    ensures Indexed(Add(ix, j, e), k, filed)
  {
  }

  lemma {:induction false} IndexHolds<K, E>(entries: seq<E>, key: E -> K, k: K)
    ensures Indexed(IndexBy(entries, key), k, Filed(entries, key, k))
  {
    hide Indexed, Filed, Add;
    if entries == [] {
      NothingIndexed(key, k);
    } else {
      var init, last := entries[..|entries| - 1], entries[|entries| - 1];
      IndexHolds(init, key, k);
      assert entries == init + [last];
      FiledStep(init, last, key, k);
      if key(last) == k {
        AddKeepsIndexed(IndexBy(init, key), k, Filed(init, key, k), last);
      } else {
        AddLeavesOthers(IndexBy(init, key), k, key(last), Filed(init, key, k), last);
      }
    }
  }

  lemma NothingIndexed<K, E>(key: E -> K, k: K)
    ensures Indexed(IndexBy([], key), k, Filed([], key, k))
  {
  }

  /** A lookup succeeds exactly when the entries filed under the key are one entry. */
  lemma FindMeans<K, E>(entries: seq<E>, key: E -> K, k: K)
    ensures var found := Find(IndexBy(entries, key), k);
            && (found == Absent <==> Filed(entries, key, k) == {})
            && (found == Ambiguous <==>
                exists a, b :: a in Filed(entries, key, k) && b in Filed(entries, key, k) && a != b)
            && (forall e :: found == Found(e) <==> Filed(entries, key, k) == {e})
  {
    IndexHolds(entries, key, k);
    var found, filed := Find(IndexBy(entries, key), k), Filed(entries, key, k);
    forall e ensures found == Found(e) <==> filed == {e} {
      if found == Found(e) {
        assert forall x | x in filed :: x == e;
      }
    }
  }

  /** Lookups see the set of entries only: neither their order nor repeated lines matter. */
  lemma FindIgnoresOrder<K, E>(a: seq<E>, b: seq<E>, key: E -> K, k: K)
    requires forall e :: e in a <==> e in b
    ensures Find(IndexBy(a, key), k) == Find(IndexBy(b, key), k)
  {
    assert Filed(a, key, k) == Filed(b, key, k);
    FindMeans(a, key, k);
    FindMeans(b, key, k);
  }
}
