/**
 * Tables as the SQL queries see them: a map from primary key to record, read
 * by a scan in some storage order, filtered and projected to ranked rows.
 * The lemmas show that what a query returns after `ORDER BY` does not depend
 * on the order the scan happened to produce.
 */
module Tables {
  import opened Wrappers
  import opened Paging

  predicate NoDuplicates<T(==)>(s: seq<T>)
  {
    forall i, j :: 0 <= i < j < |s| ==> s[i] != s[j]
  }

  /** `keys` enumerates the table `m`: each primary key exactly once, in some storage order. */
  predicate Lists<K(==,!new), V>(keys: seq<K>, m: map<K, V>)
  {
    && NoDuplicates(keys)
    && (forall i :: 0 <= i < |keys| ==> keys[i] in m)
    && (forall k :: k in m ==> k in keys)
  }

  /** A sequential scan of a table: its keys in whatever order the engine yields them. */
  method Scan<K(==,!new), V>(m: map<K, V>) returns (keys: seq<K>)
    ensures Lists(keys, m)
  {
    keys := [];
    var rest := m.Keys;
    while rest != {}
      invariant rest <= m.Keys
      invariant NoDuplicates(keys)
      invariant forall i :: 0 <= i < |keys| ==> keys[i] in m && keys[i] !in rest
      invariant forall k :: k in m ==> k in keys || k in rest
      decreases |rest|
    {
      var k :| k in rest;
      keys := keys + [k];
      rest := rest - {k};
    }
  }

  /** One enumeration of a table, for use in specifications. */
  ghost function Listing<K(!new), V>(m: map<K, V>): (keys: seq<K>)
    ensures Lists(keys, m)
    decreases |m|
  {
    if m == map[] then []
    else
      var k :| k in m;
      var rest := m - {k};
      assert rest.Keys == m.Keys - {k};
      assert |rest| < |m| by {
        assert |rest.Keys| == |m.Keys| - 1;
      }
      [k] + Listing(rest)
  }

  lemma {:induction false} NoDuplicatesCount<T>(a: seq<T>, x: T)
    requires NoDuplicates(a)
    ensures multiset(a)[x] == if x in a then 1 else 0
  {
    if a != [] {
      assert a == [a[0]] + a[1..];
      assert NoDuplicates(a[1..]) by {
        forall i, j | 0 <= i < j < |a[1..]| ensures a[1..][i] != a[1..][j] {
          assert a[1..][i] == a[i + 1] && a[1..][j] == a[j + 1];
        }
      }
      NoDuplicatesCount(a[1..], x);
      if a[0] == x {
        assert x !in a[1..] by {
          forall j | 0 <= j < |a[1..]| ensures a[1..][j] != x {
            assert a[1..][j] == a[j + 1];
          }
        }
      }
    }
  }

  /** Two scans of the same table hold the same keys, only possibly in another order. */
  lemma ListingsArePermutations<K(!new), V>(a: seq<K>, b: seq<K>, m: map<K, V>)
    requires Lists(a, m) && Lists(b, m)
    ensures multiset(a) == multiset(b)
  {
    forall x ensures multiset(a)[x] == multiset(b)[x] {
      NoDuplicatesCount(a, x);
      NoDuplicatesCount(b, x);
    }
  }

  /**
   * `SELECT ... WHERE` over a scan: the record under each key is mapped by `f`
   * to its sort key and projection, or dropped when `f` yields None.
   */
  function Select<V(!new), T(!new)>(m: map<string, V>, keys: seq<string>, f: (string, V) -> Option<(SortKey, T)>): (s: seq<Row<T>>)
    requires forall i :: 0 <= i < |keys| ==> keys[i] in m
    ensures |s| <= |keys|
    ensures forall r :: r in s <==> r.id in keys && r.id in m && f(r.id, m[r.id]) == Some((r.key, r.item))
  {
    if keys == [] then []
    else
      var rest := Select(m, keys[1..], f);
      assert forall k :: k in keys <==> k == keys[0] || k in keys[1..];
      match f(keys[0], m[keys[0]])
      case Some(e) => [Row(e.0, keys[0], e.1)] + rest
      case None => rest
  }

  lemma {:induction false} SelectCount<V(!new), T(!new)>(m: map<string, V>, keys: seq<string>, f: (string, V) -> Option<(SortKey, T)>, r: Row<T>)
    requires forall i :: 0 <= i < |keys| ==> keys[i] in m
    ensures multiset(Select(m, keys, f))[r] ==
      if r.id in m && f(r.id, m[r.id]) == Some((r.key, r.item)) then multiset(keys)[r.id] else 0
  {
    if keys != [] {
      assert keys == [keys[0]] + keys[1..];
      SelectCount(m, keys[1..], f, r);
    }
  }

  /** What a query selects does not depend on the storage order of the scan. */
  lemma SelectIgnoresStorageOrder<V(!new), T(!new)>(m: map<string, V>, a: seq<string>, b: seq<string>, f: (string, V) -> Option<(SortKey, T)>)
    requires Lists(a, m) && Lists(b, m)
    ensures multiset(Select(m, a, f)) == multiset(Select(m, b, f))
  {
    ListingsArePermutations(a, b, m);
    forall r ensures multiset(Select(m, a, f))[r] == multiset(Select(m, b, f))[r] {
      SelectCount(m, a, f, r);
      SelectCount(m, b, f, r);
    }
  }

  /** `f` ranks each record by a key whose tie-breaker is the record's own primary key. */
  ghost predicate TieIsKey<V(!new), T(!new)>(f: (string, V) -> Option<(SortKey, T)>)
  {
    forall k, v :: f(k, v).Some? ==> f(k, v).value.0.tie == k
  }

  /** No two records of the table that `f` selects share a sort key (a unique column, or the primary key as tie-breaker). */
  ghost predicate KeysDistinct<V(!new), T(!new)>(m: map<string, V>, f: (string, V) -> Option<(SortKey, T)>)
  {
    forall a, b :: a in m && b in m && a != b && f(a, m[a]).Some? && f(b, m[b]).Some? ==>
      f(a, m[a]).value.0 != f(b, m[b]).value.0
  }

  lemma TieIsKeyDistinct<V(!new), T(!new)>(m: map<string, V>, f: (string, V) -> Option<(SortKey, T)>)
    requires TieIsKey(f)
    ensures KeysDistinct(m, f)
  {
  }

  /** `ORDER BY` with the primary key as final tie-breaker, as both ranked queries use. */
  function Ordered<V(!new), T(!new)>(m: map<string, V>, keys: seq<string>, f: (string, V) -> Option<(SortKey, T)>): (s: seq<Row<T>>)
    requires forall i :: 0 <= i < |keys| ==> keys[i] in m
    ensures forall r :: r in s <==> r.id in keys && r.id in m && f(r.id, m[r.id]) == Some((r.key, r.item))
  {
    var sel := Select(m, keys, f);
    assert forall r :: r in Sort(sel) <==> r in sel by {
      forall r ensures r in Sort(sel) <==> r in sel {
        assert r in Sort(sel) <==> multiset(Sort(sel))[r] > 0;
      }
    }
    Sort(sel)
  }

  lemma SelectDistinctKeys<V(!new), T(!new)>(m: map<string, V>, keys: seq<string>, f: (string, V) -> Option<(SortKey, T)>)
    requires forall i :: 0 <= i < |keys| ==> keys[i] in m
    requires NoDuplicates(keys) && KeysDistinct(m, f)
    ensures DistinctKeys(Select(m, keys, f))
  {
    var s := Select(m, keys, f);
    SelectDistinctIds(m, keys, f);
    forall i, j | 0 <= i < j < |s| ensures s[i].key != s[j].key {
      assert s[i] in s && s[j] in s;
    }
  }

  /** Dropping the first key keeps a listing free of duplicates, and the first key does not recur. */
  lemma NoDuplicatesTail<T>(keys: seq<T>)
    requires keys != [] && NoDuplicates(keys)
    ensures NoDuplicates(keys[1..]) && keys[0] !in keys[1..]
  {
    forall a, b | 0 <= a < b < |keys[1..]| ensures keys[1..][a] != keys[1..][b] {
      assert keys[1..][a] == keys[a + 1] && keys[1..][b] == keys[b + 1];
    }
    forall b | 0 <= b < |keys[1..]| ensures keys[1..][b] != keys[0] {
      assert keys[1..][b] == keys[b + 1];
    }
  }

  /** Putting a row whose id is new in front of rows with distinct ids keeps the ids distinct. */
  lemma ConsDistinctIds<T>(row: Row<T>, rest: seq<Row<T>>)
    requires DistinctIds(rest)
    requires forall i :: 0 <= i < |rest| ==> rest[i].id != row.id
    ensures DistinctIds([row] + rest)
  {
    var s := [row] + rest;
    forall i, j | 0 <= i < j < |s| ensures s[i].id != s[j].id {
      assert s[j] == rest[j - 1];
      if i > 0 {
        assert s[i] == rest[i - 1];
      }
    }
  }

  /** A query over a listing without duplicates names each record at most once. */
  lemma {:induction false} SelectDistinctIds<V(!new), T(!new)>(m: map<string, V>, keys: seq<string>, f: (string, V) -> Option<(SortKey, T)>)
    requires forall i :: 0 <= i < |keys| ==> keys[i] in m
    requires NoDuplicates(keys)
    ensures DistinctIds(Select(m, keys, f))
  {
    if keys != [] {
      var tail := keys[1..];
      var rest := Select(m, tail, f);
      NoDuplicatesTail(keys);
      SelectDistinctIds(m, tail, f);
      var e := f(keys[0], m[keys[0]]);
      if e.Some? {
        forall i | 0 <= i < |rest| ensures rest[i].id != keys[0] {
          assert rest[i] in rest;
        }
        ConsDistinctIds(Row(e.value.0, keys[0], e.value.1), rest);
      }
    }
  }

  /**
   * The ordered result is strictly sorted, names each record once, and is the
   * same whatever storage order the scan produced.
   */
  lemma OrderedIgnoresStorageOrder<V(!new), T(!new)>(m: map<string, V>, a: seq<string>, b: seq<string>, f: (string, V) -> Option<(SortKey, T)>)
    requires Lists(a, m) && Lists(b, m) && KeysDistinct(m, f)
    ensures Ordered(m, a, f) == Ordered(m, b, f)
    ensures Sorted(Ordered(m, a, f)) && DistinctIds(Ordered(m, a, f))
  {
    SelectIgnoresStorageOrder(m, a, b, f);
    SelectDistinctKeys(m, a, f);
    SelectDistinctKeys(m, b, f);
    SortIgnoresStorageOrder(Select(m, a, f), Select(m, b, f));
    var s := Ordered(m, a, f);
    forall i, j | 0 <= i < j < |s| ensures s[i].id != s[j].id {
      KeyBeforeIrreflexive(s[i].key);
      assert s[i] in s && s[j] in s;
    }
  }

  lemma {:induction false} SelectSnoc<V(!new), T(!new)>(m: map<string, V>, keys: seq<string>, f: (string, V) -> Option<(SortKey, T)>, k: string, v: V)
    requires forall i :: 0 <= i < |keys| ==> keys[i] in m
    requires k !in m && f(k, v).Some?
    ensures Select(m[k := v], keys + [k], f) == Select(m, keys, f) + [Row(f(k, v).value.0, k, f(k, v).value.1)]
  {
    if keys == [] {
    } else {
      assert (keys + [k])[1..] == keys[1..] + [k];
      SelectSnoc(m, keys[1..], f, k, v);
    }
  }

  lemma AppendedLists<V>(m: map<string, V>, keys: seq<string>, k: string, v: V)
    requires Lists(keys, m) && k !in m
    ensures Lists(keys + [k], m[k := v])
  {
    var appended := keys + [k];
    forall i, j | 0 <= i < j < |appended| ensures appended[i] != appended[j] {
      if j == |keys| { assert appended[i] == keys[i] && keys[i] in m; }
    }
  }

  /** A query over a table with one more record selects one more row. */
  lemma SelectAfterInsert<V(!new), T(!new)>(m: map<string, V>, keys: seq<string>, f: (string, V) -> Option<(SortKey, T)>, k: string, v: V, newKeys: seq<string>)
    requires Lists(keys, m) && k !in m
    requires Lists(newKeys, m[k := v])
    requires f(k, v).Some?
    ensures multiset(Select(m[k := v], newKeys, f)) == multiset(Select(m, keys, f)) + multiset{Row(f(k, v).value.0, k, f(k, v).value.1)}
  {
    AppendedLists(m, keys, k, v);
    SelectSnoc(m, keys, f, k, v);
    SelectIgnoresStorageOrder(m[k := v], newKeys, keys + [k], f);
  }

  /** Inserting the row of a fresh key into an ordered result keeps it strictly ordered. */
  lemma InsertIntoOrderedSorted<V(!new), T(!new)>(m: map<string, V>, keys: seq<string>, f: (string, V) -> Option<(SortKey, T)>, k: string, v: V)
    requires Lists(keys, m) && k !in m && TieIsKey(f)
    requires f(k, v).Some?
    ensures Sorted(Insert(Row(f(k, v).value.0, k, f(k, v).value.1), Ordered(m, keys, f)))
  {
    var r := Row(f(k, v).value.0, k, f(k, v).value.1);
    var old_ := Ordered(m, keys, f);
    TieIsKeyDistinct(m, f);
    OrderedIgnoresStorageOrder(m, keys, keys, f);
    forall i | 0 <= i < |old_| ensures old_[i].key != r.key {
      assert old_[i] in old_;
    }
    InsertSorted(r, old_);
  }

  /**
   * A record added under a fresh key appears in the ordered result exactly
   * where insertion into the old result puts it.
   */
  lemma OrderedAfterInsert<V(!new), T(!new)>(m: map<string, V>, keys: seq<string>, f: (string, V) -> Option<(SortKey, T)>, k: string, v: V, newKeys: seq<string>)
    requires Lists(keys, m) && k !in m && TieIsKey(f)
    requires Lists(newKeys, m[k := v])
    requires f(k, v).Some?
    ensures Ordered(m[k := v], newKeys, f) == Insert(Row(f(k, v).value.0, k, f(k, v).value.1), Ordered(m, keys, f))
  {
    var r := Row(f(k, v).value.0, k, f(k, v).value.1);
    InsertIntoOrderedSorted(m, keys, f, k, v);
    TieIsKeyDistinct(m[k := v], f);
    OrderedIgnoresStorageOrder(m[k := v], newKeys, newKeys, f);
    SelectAfterInsert(m, keys, f, k, v, newKeys);
    SortedUnique(Ordered(m[k := v], newKeys, f), Insert(r, Ordered(m, keys, f)));
  }

  /** Two projections that agree on every scanned record select the same rows. */
  lemma {:induction false} SelectCongruent<V(!new), T(!new)>(m: map<string, V>, keys: seq<string>, f: (string, V) -> Option<(SortKey, T)>, g: (string, V) -> Option<(SortKey, T)>)
    requires forall i :: 0 <= i < |keys| ==> keys[i] in m
    requires forall i :: 0 <= i < |keys| ==> f(keys[i], m[keys[i]]) == g(keys[i], m[keys[i]])
    ensures Select(m, keys, f) == Select(m, keys, g)
  {
    if keys != [] {
      SelectCongruent(m, keys[1..], f, g);
    }
  }
}
