/**
 * The rank-based cursor pagination shared by the message history, the inbox
 * and the user search (src/chats/chats.service.ts, src/users/users.service.ts).
 *
 * Each of those SQL queries numbers its rows with
 * `ROW_NUMBER() OVER (ORDER BY <key>)`, resolves the cursor to the rank of the
 * row it names (rank 1 when the cursor is null or names no row), keeps the rows
 * whose rank is at least that, ordered by rank, `LIMIT limit + 1`; the caller
 * then pops the extra row and turns its id into `nextCursor`. Here a rank r is
 * the 0-based index r - 1 of a sorted sequence.
 */
module Paging {
  import opened Wrappers
  import opened Ids

  /** A sort key: `primary` descending, then `tie` ascending. */
  datatype SortKey = SortKey(primary: int, tie: string)

  predicate KeyBefore(a: SortKey, b: SortKey)
  {
    a.primary > b.primary || (a.primary == b.primary && LexLess(a.tie, b.tie))
  }

  lemma KeyBeforeIrreflexive(a: SortKey)
    ensures !KeyBefore(a, a)
  {
    LexLessIrreflexive(a.tie);
  }

  lemma KeyBeforeAsymmetric(a: SortKey, b: SortKey)
    ensures !(KeyBefore(a, b) && KeyBefore(b, a))
  {
    LexLessAsymmetric(a.tie, b.tie);
  }

  lemma KeyBeforeTransitive(a: SortKey, b: SortKey, c: SortKey)
    requires KeyBefore(a, b) && KeyBefore(b, c)
    ensures KeyBefore(a, c)
  {
    if a.primary == b.primary == c.primary {
      LexLessTransitive(a.tie, b.tie, c.tie);
    }
  }

  lemma KeyBeforeTotal(a: SortKey, b: SortKey)
    ensures a == b || KeyBefore(a, b) || KeyBefore(b, a)
  {
    LexLessTotal(a.tie, b.tie);
  }

  /** A row as the window function sees it: its sort key, the id a cursor names, and the record. */
  datatype Row<T> = Row(key: SortKey, id: string, item: T)

  predicate Sorted<T>(s: seq<Row<T>>)
  {
    forall i, j :: 0 <= i < j < |s| ==> KeyBefore(s[i].key, s[j].key)
  }

  predicate DistinctKeys<T>(s: seq<Row<T>>)
  {
    forall i, j :: 0 <= i < j < |s| ==> s[i].key != s[j].key
  }

  predicate DistinctIds<T>(s: seq<Row<T>>)
  {
    forall i, j :: 0 <= i < j < |s| ==> s[i].id != s[j].id
  }

  /** Places `r` in front of the first row it sorts before. */
  function Insert<T>(r: Row<T>, s: seq<Row<T>>): (t: seq<Row<T>>)
    ensures multiset(t) == multiset(s) + multiset{r}
  {
    if s == [] || KeyBefore(r.key, s[0].key) then [r] + s
    else
      assert s == [s[0]] + s[1..];
      [s[0]] + Insert(r, s[1..])
  }

  /**
   * The rows in key order. A table row stored in front of the others
   * (a newly inserted message) is placed by one `Insert`.
   */
  function Sort<T>(s: seq<Row<T>>): (t: seq<Row<T>>)
    ensures multiset(t) == multiset(s)
  {
    if s == [] then []
    else
      assert s == [s[0]] + s[1..];
      Insert(s[0], Sort(s[1..]))
  }

  lemma {:induction false} InsertSorted<T>(r: Row<T>, s: seq<Row<T>>)
    requires Sorted(s)
    requires forall i :: 0 <= i < |s| ==> s[i].key != r.key
    ensures Sorted(Insert(r, s))
  {
    if s == [] {
    } else if KeyBefore(r.key, s[0].key) {
      forall j | 0 < j < |s|
        ensures KeyBefore(r.key, s[j].key)
      {
        KeyBeforeTransitive(r.key, s[0].key, s[j].key);
      }
    } else {
      KeyBeforeTotal(r.key, s[0].key);
      InsertSorted(r, s[1..]);
      var t := Insert(r, s[1..]);
      forall j | 0 <= j < |t|
        ensures KeyBefore(s[0].key, t[j].key)
      {
        assert t[j] in multiset(t);
        if t[j] != r {
          assert t[j] in multiset(s[1..]);
          var k :| 0 <= k < |s[1..]| && s[1..][k] == t[j];
          assert s[k + 1] == t[j];
        }
      }
    }
  }

  /** With distinct keys, `Sort` yields a strictly ascending permutation of its input. */
  lemma {:induction false} SortSorted<T>(s: seq<Row<T>>)
    requires DistinctKeys(s)
    ensures Sorted(Sort(s))
  {
    if s != [] {
      assert DistinctKeys(s[1..]) by {
        forall i, j | 0 <= i < j < |s[1..]|
          ensures s[1..][i].key != s[1..][j].key
        {
          assert s[1..][i] == s[i + 1] && s[1..][j] == s[j + 1];
        }
      }
      SortSorted(s[1..]);
      var t := Sort(s[1..]);
      forall i | 0 <= i < |t|
        ensures t[i].key != s[0].key
      {
        assert t[i] in multiset(s[1..]);
        var k :| 0 <= k < |s[1..]| && s[1..][k] == t[i];
        assert s[k + 1] == t[i];
      }
      InsertSorted(s[0], t);
    }
  }

  /** Two strictly sorted sequences with the same rows are the same sequence. */
  lemma {:induction false} SortedUnique<T>(a: seq<Row<T>>, b: seq<Row<T>>)
    requires Sorted(a) && Sorted(b)
    requires multiset(a) == multiset(b)
    ensures a == b
  {
    if a == [] {
      assert |b| == |multiset(b)| == 0;
    } else {
      assert |b| == |multiset(b)| == |multiset(a)| == |a|;
      if a[0] != b[0] {
        assert b[0] in multiset(a);
        var k :| 0 <= k < |a| && a[k] == b[0];
        assert a[0] in multiset(b);
        var m :| 0 <= m < |b| && b[m] == a[0];
        KeyBeforeAsymmetric(a[0].key, b[0].key);
        assert false;
      }
      assert a == [a[0]] + a[1..] && b == [b[0]] + b[1..];
      assert multiset(a) == multiset{a[0]} + multiset(a[1..]);
      assert multiset(b) == multiset{b[0]} + multiset(b[1..]);
      assert multiset(a[1..]) == multiset(a) - multiset{a[0]} == multiset(b) - multiset{b[0]} == multiset(b[1..]);
      SortedUnique(a[1..], b[1..]);
    }
  }

  /**
   * The order of the rows in storage does not matter: any two listings of the
   * same rows sort to the same sequence.
   */
  lemma SortIgnoresStorageOrder<T>(a: seq<Row<T>>, b: seq<Row<T>>)
    requires DistinctKeys(a) && DistinctKeys(b)
    requires multiset(a) == multiset(b)
    ensures Sort(a) == Sort(b)
    ensures Sorted(Sort(a))
  {
    SortSorted(a);
    SortSorted(b);
    SortedUnique(Sort(a), Sort(b));
  }

  /** The first position whose row has the given id. */
  function IndexOf<T>(s: seq<Row<T>>, id: string): (r: Option<nat>)
    ensures r.Some? ==> r.value < |s| && s[r.value].id == id
    ensures r.Some? ==> forall k :: 0 <= k < r.value ==> s[k].id != id
    ensures r.None? ==> forall k :: 0 <= k < |s| ==> s[k].id != id
  {
    if s == [] then None
    else if s[0].id == id then Some(0)
    else match IndexOf(s[1..], id)
      case None => None
      case Some(k) => Some(k + 1)
  }

  /**
   * The 0-based position where a page starts: that of the cursor row, or 0
   * (rank 1) when the cursor is null or names no row.
   */
  function CursorStart<T>(s: seq<Row<T>>, cursor: Option<string>): (k: nat)
    ensures k <= |s|
    ensures cursor.Some? && IndexOf(s, cursor.value).Some? ==> k == IndexOf(s, cursor.value).value
    ensures (cursor.None? || IndexOf(s, cursor.value).None?) ==> k == 0
  {
    match cursor
    case None => 0
    case Some(c) => IndexOf(s, c).GetOr(0)
  }

  /** A page of rows and the cursor of the following page. */
  datatype Page<T> = Page(rows: seq<Row<T>>, nextCursor: Option<string>)

  /** The records of a page, without their ranks. */
  function Items<T>(rows: seq<Row<T>>): (items: seq<T>)
    ensures |items| == |rows| && forall i :: 0 <= i < |rows| ==> items[i] == rows[i].item
  {
    seq(|rows|, i requires 0 <= i < |rows| => rows[i].item)
  }

  /** CursorPaginationRequestQuery, as the CursorPagination decorator produces it. */
  datatype CursorQuery = CursorQuery(cursor: Option<string>, limit: nat)

  /** CursorPaginationResponseMetaDto: the request's cursor and limit, and where the next page starts. */
  datatype CursorMeta = CursorMeta(cursor: Option<string>, limit: nat, nextCursor: Option<string>)

  /** The page promised to the client: up to `limit` rows from `start`, and the id of the row after them. */
  function PageFrom<T>(s: seq<Row<T>>, start: nat, limit: nat): (p: Page<T>)
    requires start <= |s|
    ensures |p.rows| <= limit && start + |p.rows| <= |s|
    ensures p.rows == s[start..start + |p.rows|]
    ensures p.nextCursor.Some? <==> start + limit < |s|
    ensures p.nextCursor.Some? ==> |p.rows| == limit && p.nextCursor.value == s[start + limit].id
    ensures p.nextCursor.None? ==> start + |p.rows| == |s|
  {
    if start + limit < |s| then Page(s[start..start + limit], Some(s[start + limit].id))
    else Page(s[start..], None)
  }

  function PageOf<T>(s: seq<Row<T>>, cursor: Option<string>, limit: nat): Page<T>
  {
    PageFrom(s, CursorStart(s, cursor), limit)
  }

  /** The SQL: rows ranked at or after the cursor, in rank order, `LIMIT limit + 1`. */
  function Fetch<T>(s: seq<Row<T>>, cursor: Option<string>, limit: nat): seq<Row<T>>
  {
    var start := CursorStart(s, cursor);
    if start + limit + 1 <= |s| then s[start..start + limit + 1] else s[start..]
  }

  /**
   * The query followed by the code that pops the extra row into `nextCursor`
   * (chats.service.ts 441-446 and 545-550, users.service.ts 96-101).
   */
  method Paginate<T>(sorted: seq<Row<T>>, cursor: Option<string>, limit: nat)
    returns (page: seq<Row<T>>, nextCursor: Option<string>)
    ensures Page(page, nextCursor) == PageOf(sorted, cursor, limit)
  {
    page := Fetch(sorted, cursor, limit);
    nextCursor := None;
    if |page| > limit {
      var next := page[|page| - 1];
      page := page[..|page| - 1];
      nextCursor := Some(next.id);
    }
  }

  /** Following `nextCursor` resumes exactly `limit` rows further on: no row is skipped or repeated. */
  lemma NextCursorResumes<T>(s: seq<Row<T>>, cursor: Option<string>, limit: nat)
    requires DistinctIds(s)
    requires PageOf(s, cursor, limit).nextCursor.Some?
    ensures CursorStart(s, PageOf(s, cursor, limit).nextCursor) == CursorStart(s, cursor) + limit
  {
  }

  /** Every page from `start` on, each fetched with the cursor the previous one returned. */
  function Walk<T>(s: seq<Row<T>>, start: nat, limit: nat): seq<Row<T>>
    requires DistinctIds(s) && start <= |s| && limit > 0
    decreases |s| - start
  {
    var p := PageFrom(s, start, limit);
    if p.nextCursor.None? then p.rows
    else
      var next := CursorStart(s, p.nextCursor);
      assert next == start + limit;
      p.rows + Walk(s, next, limit)
  }

  /** Paging from the first page through every `nextCursor` yields each row once, in order. */
  lemma {:induction false} WalkCoversAll<T>(s: seq<Row<T>>, start: nat, limit: nat)
    requires DistinctIds(s) && start <= |s| && limit > 0
    ensures Walk(s, start, limit) == s[start..]
    decreases |s| - start
  {
    var p := PageFrom(s, start, limit);
    if p.nextCursor.Some? {
      var next := CursorStart(s, p.nextCursor);
      assert next == start + limit;
      WalkCoversAll(s, next, limit);
      assert s[start..] == s[start..start + limit] + s[start + limit..];
    }
  }

  lemma IndexOfCons<T>(x: Row<T>, s: seq<Row<T>>, c: string)
    requires x.id != c
    ensures IndexOf([x] + s, c) == match IndexOf(s, c) case None => None case Some(k) => Some(k + 1)
  {
    assert ([x] + s)[1..] == s;
  }

  lemma PageFromCons<T>(x: Row<T>, s: seq<Row<T>>, k: nat, limit: nat)
    requires k <= |s|
    ensures PageFrom([x] + s, k + 1, limit) == PageFrom(s, k, limit)
  {
    var t := [x] + s;
    assert t[k + 1..] == s[k..];
    if k + limit < |s| {
      assert t[k + 1..k + 1 + limit] == s[k..k + limit];
    }
  }

  /** Position by position: the page's rows are those from the cursor's position on, and `nextCursor` names the row after them. */
  lemma PageRows<T>(s: seq<Row<T>>, cursor: Option<string>, limit: nat)
    ensures var p := PageOf(s, cursor, limit); var k := CursorStart(s, cursor);
      && (forall i :: 0 <= i < |p.rows| ==> k + i < |s| && p.rows[i] == s[k + i] && Items(p.rows)[i] == s[k + i].item)
      && (p.nextCursor.Some? ==> k + limit < |s| && p.nextCursor.value == s[k + limit].id)
  {
    var p := PageOf(s, cursor, limit);
    var k := CursorStart(s, cursor);
    forall i | 0 <= i < |p.rows| ensures k + i < |s| && p.rows[i] == s[k + i] {
      assert p.rows == s[k..k + |p.rows|];
    }
  }

  /** The page a cursor selects when the cursor row sits at position `k`. */
  lemma PageOfAt<T>(s: seq<Row<T>>, c: string, k: nat, limit: nat)
    requires IndexOf(s, c) == Some(k)
    ensures PageOf(s, Some(c), limit) == PageFrom(s, k, limit)
  {
  }

  /** A row that sorts before the one at `k` is inserted at or before `k`, shifting that row to `k + 1`. */
  lemma {:induction false} InsertAheadIndex<T>(s: seq<Row<T>>, r: Row<T>, c: string)
    requires r.id != c
    requires IndexOf(s, c).Some?
    requires KeyBefore(r.key, s[IndexOf(s, c).value].key)
    ensures IndexOf(Insert(r, s), c) == Some(IndexOf(s, c).value + 1)
  {
    if KeyBefore(r.key, s[0].key) {
      IndexOfCons(r, s, c);
    } else {
      assert s == [s[0]] + s[1..];
      var k := IndexOf(s, c).value;
      IndexOfCons(s[0], s[1..], c);
      assert IndexOf(s[1..], c) == Some(k - 1) && s[1..][k - 1] == s[k];
      InsertAheadIndex(s[1..], r, c);
      assert Insert(r, s) == [s[0]] + Insert(r, s[1..]);
      IndexOfCons(s[0], Insert(r, s[1..]), c);
    }
  }

  /** The page starting at a row is unchanged when a row sorting before it is inserted. */
  lemma {:induction false} InsertAheadPageFrom<T>(s: seq<Row<T>>, r: Row<T>, k: nat, limit: nat)
    requires k < |s| && KeyBefore(r.key, s[k].key)
    ensures |Insert(r, s)| == |s| + 1
    ensures PageFrom(Insert(r, s), k + 1, limit) == PageFrom(s, k, limit)
  {
    var t := Insert(r, s);
    assert |t| == |multiset(t)| == |s| + 1;
    if KeyBefore(r.key, s[0].key) {
      PageFromCons(r, s, k, limit);
    } else {
      assert s == [s[0]] + s[1..];
      InsertAheadPageFrom(s[1..], r, k - 1, limit);
      var u := Insert(r, s[1..]);
      PageFromCons(s[0], u, k, limit);
      PageFromCons(s[0], s[1..], k - 1, limit);
    }
  }

  /**
   * A row inserted ahead of the cursor row does not change the page fetched
   * with that cursor: ranks are relative to the named row, not absolute offsets.
   */
  lemma InsertAheadKeepsPage<T>(s: seq<Row<T>>, r: Row<T>, c: string, limit: nat)
    requires r.id != c
    requires IndexOf(s, c).Some?
    requires KeyBefore(r.key, s[IndexOf(s, c).value].key)
    ensures IndexOf(Insert(r, s), c) == Some(IndexOf(s, c).value + 1)
    ensures PageOf(Insert(r, s), Some(c), limit) == PageOf(s, Some(c), limit)
  {
    var k := IndexOf(s, c).value;
    InsertAheadIndex(s, r, c);
    InsertAheadPageFrom(s, r, k, limit);
    PageOfAt(Insert(r, s), c, k + 1, limit);
    PageOfAt(s, c, k, limit);
  }
}
