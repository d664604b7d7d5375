/** Cursor paging: a page is the first `limit` rows, in key order, of the rows that match and lie
    strictly after the cursor; one extra row is fetched to learn whether a next page exists.
    The table may be a different one at every fetch. */
module CursorPaging {
  import opened Sequences

  /** A position in a listing: higher scores first, then later times. A one-column listing by time
      uses the constant time 0 and its column, or the negated column for ascending order, as score. */
  datatype Key = Key(score: real, time: int)

  predicate Before(a: Key, b: Key) {
    a.score > b.score || (a.score == b.score && a.time > b.time)
  }

  datatype Page<T> = Page(items: seq<T>, nextCursor: Option<Key>, hasMore: bool)

  /** One request of a client: the table as it was then, the cursor sent, the page received. */
  datatype Fetch<T> = Fetch(table: seq<T>, cursor: Option<Key>, page: Page<T>)

  /** What stays fixed while a client walks a listing: how rows are identified and keyed,
      and the filters of the query. */
  datatype Listing<!T(!new), !I(==,!new)> = Listing(id: T -> I, key: T -> Key, matches: T -> bool)
  {
    function RowOrder(): (T, T) -> bool {
      (a, b) => Before(key(a), key(b))
    }

    function After(cursor: Option<Key>): T -> bool {
      r => cursor.None? || Before(cursor.value, key(r))
    }

    /** Every matching row of the table, in the order of the listing. */
    function All(table: seq<T>): seq<T> {
      SortBy(Filter(table, matches), RowOrder())
    }

    /** The rows a query with this cursor ranges over, before its limit. */
    function Rows(table: seq<T>, cursor: Option<Key>): seq<T> {
      SortBy(Filter(Filter(table, After(cursor)), matches), RowOrder())
    }

    /** The page the service answers with. */
    function PageOf(table: seq<T>, cursor: Option<Key>, limit: nat): Page<T> {
      Cut(Rows(table, cursor), limit)
    }

    /** One row more than the limit is looked at and dropped again; it says whether there is a next page. */
    function Cut(rows: seq<T>, limit: nat): Page<T> {
      if |rows| <= limit then Page(rows, None, false)
      else Page(rows[..limit], if limit > 0 then Some(key(rows[limit - 1])) else None, true)
    }

    // -------------------------------------------------------------- what is assumed of the tables

    /** Among the rows of the listing; other users' and filtered rows may tie with them and each other. */
    ghost predicate DistinctKeys(table: seq<T>) {
      forall a, b :: a in table && b in table && matches(a) && matches(b) && key(a) == key(b) ==> a == b
    }

    /** No other row of the listing shares the key k of the row with id x. */
    ghost predicate Untied(table: seq<T>, x: I, k: Key) {
      forall b :: b in table && matches(b) && key(b) == k ==> id(b) == x
    }

    /** The key of a row never changes while its other fields may. */
    ghost predicate KeysFixed(t: seq<T>, u: seq<T>) {
      forall a, b :: a in t && b in u && id(a) == id(b) ==> key(a) == key(b)
    }

    ghost predicate IsTable(table: seq<T>) {
      DistinctBy(table, id)
    }

    /** Changing other fields in place and appending rows with new ids keeps every key. */
    lemma KeysFixedByPosition(t: seq<T>, u: seq<T>)
      requires |t| <= |u| && IsTable(u)
      requires forall i :: 0 <= i < |t| ==> id(t[i]) == id(u[i]) && key(t[i]) == key(u[i])
      ensures KeysFixed(t, u)
    {
      forall a, b | a in t && b in u && id(a) == id(b)
        ensures key(a) == key(b)
      {
        var i :| 0 <= i < |t| && t[i] == a;
        var j :| 0 <= j < |u| && u[j] == b;
        assert id(u[i]) == id(u[j]);
      }
    }

    /** A row with this id and key is present and matches. */
    ghost predicate Holds(table: seq<T>, x: I, k: Key) {
      exists r :: r in table && id(r) == x && key(r) == k && matches(r)
    }

    // -------------------------------------------------------------- one page

    /** What ORDER BY promises: exactly the matching rows behind the cursor, each once, no row before one
        that precedes it. The order among rows of equal key is the database's choice. */
    ghost predicate IsAnswer(table: seq<T>, cursor: Option<Key>, rows: seq<T>) {
      && (forall i, j :: 0 <= i < j < |rows| ==> !Before(key(rows[j]), key(rows[i])))
      && (forall r :: r in rows <==> r in table && matches(r) && After(cursor)(r))
      && DistinctBy(rows, id)
    }

    ghost predicate IsPage(table: seq<T>, cursor: Option<Key>, limit: nat, page: Page<T>) {
      exists rows :: IsAnswer(table, cursor, rows) && page == Cut(rows, limit)
    }

    lemma RowOrderWeak()
      ensures StrictWeak(RowOrder())
    {
      var o := RowOrder();
      forall a, b | o(a, b)
        ensures !o(b, a)
      {
        assert Before(key(a), key(b));
      }
      forall a, b, c | !o(a, b) && !o(b, c)
        ensures !o(a, c)
      {
        assert !Before(key(a), key(b)) && !Before(key(b), key(c));
      }
    }

    /** The service's query is such an answer, and its page is cut from it. */
    lemma PageOfIsPage(table: seq<T>, cursor: Option<Key>, limit: nat)
      requires IsTable(table)
      ensures IsAnswer(table, cursor, Rows(table, cursor))
      ensures IsPage(table, cursor, limit, PageOf(table, cursor, limit))
    {
      RowOrderWeak();
      var f := Filter(Filter(table, After(cursor)), matches);
      SortSorted(f, RowOrder());
      SortMembers(f, RowOrder());
      FilterMembers(table, After(cursor));
      FilterMembers(Filter(table, After(cursor)), matches);
      DistinctFilter(table, id, After(cursor));
      DistinctFilter(Filter(table, After(cursor)), id, matches);
      DistinctSort(f, RowOrder(), id);
      var rows := Rows(table, cursor);
      forall i, j | 0 <= i < j < |rows|
        ensures !Before(key(rows[j]), key(rows[i]))
      {
        assert !RowOrder()(rows[j], rows[i]);
      }
    }

    /** What a client relies on in one page. */
    lemma PageFacts(table: seq<T>, cursor: Option<Key>, limit: nat, page: Page<T>)
      requires IsPage(table, cursor, limit, page)
      ensures forall i :: 0 <= i < |page.items| ==>
                page.items[i] in table && matches(page.items[i]) && After(cursor)(page.items[i])
      ensures DistinctBy(page.items, id)
      ensures forall i, j :: 0 <= i < j < |page.items| ==> !Before(key(page.items[j]), key(page.items[i]))
      ensures page.nextCursor.Some? ==>
                && (cursor.Some? ==> Before(cursor.value, page.nextCursor.value))
                && forall i :: 0 <= i < |page.items| ==> !Before(page.nextCursor.value, key(page.items[i]))
    {
      var rows :| IsAnswer(table, cursor, rows) && page == Cut(rows, limit);
      forall i | 0 <= i < |page.items|
        ensures page.items[i] in rows
      {
      }
      if page.nextCursor.Some? {
        assert rows[limit - 1] in rows;
      }
    }

    /** A matching row behind the cursor is on the page or behind the next cursor. */
    lemma PageMisses(table: seq<T>, cursor: Option<Key>, limit: nat, page: Page<T>, r: T)
      requires IsPage(table, cursor, limit, page) && limit > 0 && Untied(table, id(r), key(r))
      requires r in table && matches(r) && After(cursor)(r)
      ensures r in page.items || (page.nextCursor.Some? && Before(page.nextCursor.value, key(r)))
    {
      var rows :| IsAnswer(table, cursor, rows) && page == Cut(rows, limit);
      assert r in rows;
      var at :| 0 <= at < |rows| && rows[at] == r;
      if at >= |page.items| {
        var last := rows[limit - 1];
        assert last in rows && id(last) != id(r);
      } else {
        assert page.items[at] == r;
      }
    }

    // -------------------------------------------------------------- a whole walk over changing tables

    /** A client that follows `nextCursor` while it is not null. */
    ghost predicate IsWalk(walk: seq<Fetch<T>>, limit: nat) {
      && (walk != [] ==> walk[0].cursor.None?)
      && (forall f :: f in walk ==> IsPage(f.table, f.cursor, limit, f.page))
      && (forall p, q :: 0 <= p < |walk| && q == p + 1 && q < |walk| ==>
            walk[p].page.nextCursor.Some? && walk[q].cursor == walk[p].page.nextCursor)
    }

    /** The cursor has moved behind everything returned so far. */
    lemma {:induction false} CursorBehind(walk: seq<Fetch<T>>, limit: nat, p: nat, i: nat, q: nat)
      requires IsWalk(walk, limit)
      requires p < q < |walk| && i < |walk[p].page.items|
      ensures walk[q].cursor.Some? && !Before(walk[q].cursor.value, key(walk[p].page.items[i]))
    {
      var prev := walk[q - 1];
      assert walk[q].cursor == prev.page.nextCursor;
      PageFacts(prev.table, prev.cursor, limit, prev.page);
      if p < q - 1 {
        CursorBehind(walk, limit, p, i, q - 1);
      }
    }

    /** Items come in the order of the listing, whatever happened to the table between the fetches;
        across a page boundary the order is strict even when keys tie. */
    lemma WalkOrdered(walk: seq<Fetch<T>>, limit: nat, p: nat, i: nat, q: nat, j: nat)
      requires IsWalk(walk, limit)
      requires p <= q < |walk| && i < |walk[p].page.items| && j < |walk[q].page.items|
      requires p < q || i < j
      ensures !Before(key(walk[q].page.items[j]), key(walk[p].page.items[i]))
      ensures p < q ==> Before(key(walk[p].page.items[i]), key(walk[q].page.items[j]))
    {
      var f := walk[q];
      PageFacts(f.table, f.cursor, limit, f.page);
      if p < q {
        CursorBehind(walk, limit, p, i, q);
        assert After(f.cursor)(f.page.items[j]);
      }
    }

    /** No row is ever returned twice, even with tied keys. */
    lemma WalkNeverRepeats(walk: seq<Fetch<T>>, limit: nat, p: nat, i: nat, q: nat, j: nat)
      requires IsWalk(walk, limit)
      requires forall f, g :: f in walk && g in walk ==> KeysFixed(f.table, g.table)
      requires p <= q < |walk| && i < |walk[p].page.items| && j < |walk[q].page.items|
      requires p < q || i < j
      ensures id(walk[p].page.items[i]) != id(walk[q].page.items[j])
    {
      var f, g := walk[p], walk[q];
      WalkOrdered(walk, limit, p, i, q, j);
      PageFacts(f.table, f.cursor, limit, f.page);
      PageFacts(g.table, g.cursor, limit, g.page);
      assert KeysFixed(f.table, g.table);
    }

    /** A row that is present, matches and is untied at every fetch is returned once the walk has ended. Other
        rows may tie with each other, and be inserted, changed or removed between the fetches. */
    lemma {:induction false} WalkComplete(walk: seq<Fetch<T>>, limit: nat, x: I, k: Key, from: nat)
      returns (p: nat, i: nat)
      requires IsWalk(walk, limit) && limit > 0
      requires from < |walk| && walk[|walk| - 1].page.nextCursor.None?
      requires forall f :: f in walk ==> Untied(f.table, x, k) && Holds(f.table, x, k)
      requires walk[from].cursor.Some? ==> Before(walk[from].cursor.value, k)
      ensures from <= p < |walk| && i < |walk[p].page.items| && id(walk[p].page.items[i]) == x
      decreases |walk| - from
    {
      var f := walk[from];
      assert f in walk;
      var r :| r in f.table && id(r) == x && key(r) == k && matches(r);
      PageMisses(f.table, f.cursor, limit, f.page, r);
      if r in f.page.items {
        p := from;
        i :| 0 <= i < |f.page.items| && f.page.items[i] == r;
      } else {
        assert from + 1 < |walk|;
        assert walk[from + 1].cursor == f.page.nextCursor;
        p, i := WalkComplete(walk, limit, x, k, from + 1);
      }
    }

    // -------------------------------------------------------------- an unchanging table

    /** The conditions of a query may be applied in either order. */
    lemma RowsFromMatches(table: seq<T>, cursor: Option<Key>)
      ensures Rows(table, cursor) == SortBy(Filter(Filter(table, matches), After(cursor)), RowOrder())
    {
      FilterTwice(table, After(cursor), matches);
      FilterTwice(table, matches, After(cursor));
      FilterExtensional(table, x => After(cursor)(x) && matches(x), x => matches(x) && After(cursor)(x));
    }

    /** A page's rows are a stretch of the one sorted list of the table. */
    lemma RowsAreFilteredAll(table: seq<T>, cursor: Option<Key>)
      ensures Rows(table, cursor) == Filter(All(table), After(cursor))
    {
      RowOrderWeak();
      RowsFromMatches(table, cursor);
      FilterSort(Filter(table, matches), RowOrder(), After(cursor));
    }

    /** What lies behind a row of an answer is what lies behind it in the answer. */
    lemma RowsBehind(table: seq<T>, cursor: Option<Key>, n: nat)
      requires 0 < n <= |Rows(table, cursor)|
      ensures var rows := Rows(table, cursor);
              rows[n - 1] in rows && Rows(table, Some(key(rows[n - 1]))) == Filter(rows, After(Some(key(rows[n - 1]))))
    {
      var rows := Rows(table, cursor);
      var next := Some(key(rows[n - 1]));
      var all := All(table);
      RowsAreFilteredAll(table, cursor);
      FilterMembers(all, After(cursor));
      assert rows[n - 1] in rows;
      RowsAreFilteredAll(table, next);
      FilterTwice(all, After(cursor), After(next));
      FilterExtensional(all, After(next), r => After(cursor)(r) && After(next)(r));
    }

    /** Behind a cursor taken from the rows, fewer rows are left: the measure of a walk. */
    lemma RowsShrink(table: seq<T>, cursor: Option<Key>, n: nat)
      requires 0 < n <= |Rows(table, cursor)|
      ensures |Rows(table, Some(key(Rows(table, cursor)[n - 1])))| < |Rows(table, cursor)|
    {
      var rows := Rows(table, cursor);
      RowsBehind(table, cursor, n);
      FilterShorter(rows, After(Some(key(rows[n - 1]))), rows[n - 1]);
    }

    ghost predicate InOrder(rows: seq<T>) {
      forall i, j :: 0 <= i < j < |rows| ==> !Before(key(rows[j]), key(rows[i]))
    }

    lemma RowsInOrder(table: seq<T>, cursor: Option<Key>)
      ensures InOrder(Rows(table, cursor))
    {
      RowOrderWeak();
      SortSorted(Filter(Filter(table, After(cursor)), matches), RowOrder());
    }

    /** A cursor taken from row n - 1 passes none of the first n rows. */
    lemma {:induction false} FilterInOrder(rows: seq<T>, n: nat)
      requires InOrder(rows) && 0 < n <= |rows|
      ensures Filter(rows, After(Some(key(rows[n - 1])))) == Filter(rows[n..], After(Some(key(rows[n - 1]))))
    {
      var after := After(Some(key(rows[n - 1])));
      if n == |rows| {
        forall r | r in rows
          ensures !after(r)
        {
          var i :| 0 <= i < n && rows[i] == r;
          assert i == n - 1 || !Before(key(rows[n - 1]), key(rows[i]));
        }
        FilterNone(rows, after);
      } else {
        var init, last := rows[..|rows| - 1], rows[|rows| - 1];
        FilterInOrder(init, n);
        FilterSnoc(init[n..], last, after);
        assert rows[n..] == init[n..] + [last];
      }
    }

    /** The boundary before row n does not split rows of equal key. */
    predicate CleanBoundary(rows: seq<T>, n: nat)
      requires 0 < n < |rows|
    {
      Before(key(rows[n - 1]), key(rows[n]))
    }

    /** Behind a clean boundary it passes all others. */
    lemma CleanKeepsAll(rows: seq<T>, n: nat)
      requires InOrder(rows) && 0 < n < |rows| && CleanBoundary(rows, n)
      ensures Filter(rows[n..], After(Some(key(rows[n - 1])))) == rows[n..]
    {
      var after := After(Some(key(rows[n - 1])));
      forall r | r in rows[n..]
        ensures after(r)
      {
        var i :| n <= i < |rows| && rows[i] == r;
        assert i == n || !Before(key(rows[i]), key(rows[n]));
      }
      FilterAll(rows[n..], after);
    }

    /** Behind a split tie it loses the first of them. */
    lemma TieLoses(rows: seq<T>, n: nat)
      requires InOrder(rows) && 0 < n < |rows| && !CleanBoundary(rows, n)
      ensures |Filter(rows[n..], After(Some(key(rows[n - 1]))))| < |rows| - n
    {
      assert rows[n..][0] == rows[n];
      FilterShorter(rows[n..], After(Some(key(rows[n - 1]))), rows[n]);
    }

    /** Where the next page starts: exactly behind this one if, and only if, the boundary does not
        split rows of equal key. A split tie loses rows behind the boundary. */
    lemma NextPageContinues(table: seq<T>, cursor: Option<Key>, n: nat)
      requires 0 < n < |Rows(table, cursor)|
      ensures var rows := Rows(table, cursor);
              var next := Rows(table, Some(key(rows[n - 1])));
              if CleanBoundary(rows, n) then next == rows[n..] else |next| < |rows| - n
    {
      var rows := Rows(table, cursor);
      RowsBehind(table, cursor, n);
      RowsInOrder(table, cursor);
      FilterInOrder(rows, n);
      if CleanBoundary(rows, n) {
        CleanKeepsAll(rows, n);
      } else {
        TieLoses(rows, n);
      }
    }

    /** Following the cursor on a table nobody writes to. */
    function FollowAll(table: seq<T>, cursor: Option<Key>, limit: nat): (pages: seq<Page<T>>)
      decreases |Rows(table, cursor)|
    {
      var page := PageOf(table, cursor, limit);
      if page.nextCursor.None? then [page]
      else
        RowsShrink(table, cursor, limit);
        [page] + FollowAll(table, page.nextCursor, limit)
    }

    function Items(pages: seq<Page<T>>): seq<T> {
      if pages == [] then [] else pages[0].items + Items(pages[1..])
    }

    lemma ItemsCons(page: Page<T>, rest: seq<Page<T>>)
      ensures Items([page] + rest) == page.items + Items(rest)
    {
      assert ([page] + rest)[1..] == rest;
    }

    /** An answer cut into pages one after the other. */
    function Cuts(rows: seq<T>, limit: nat): seq<Page<T>>
      requires limit > 0
    {
      [Cut(rows, limit)] + if |rows| <= limit then [] else Cuts(rows[limit..], limit)
    }

    /** The pages hold the rows, and there are as many as needed. */
    lemma {:induction false} CutsCover(rows: seq<T>, limit: nat)
      requires limit > 0
      ensures Items(Cuts(rows, limit)) == rows
      ensures |Cuts(rows, limit)| == PageCount(|rows|, limit)
    {
      if |rows| <= limit {
        ItemsCons(Cut(rows, limit), []);
      } else {
        CutsCover(rows[limit..], limit);
        ItemsCons(Cut(rows, limit), Cuts(rows[limit..], limit));
      }
    }

    /** Where the j-th page ends. */
    function Boundary(j: nat, limit: nat): nat {
      j * limit
    }

    /** No page boundary splits rows of equal key. */
    ghost predicate Clean(rows: seq<T>, limit: nat) {
      forall j: nat :: 0 < Boundary(j, limit) < |rows| ==> CleanBoundary(rows, Boundary(j, limit))
    }

    /** Page boundaries of the rest are page boundaries of the whole. */
    lemma NextBoundary(rows: seq<T>, limit: nat, j: nat)
      requires 0 < limit < |rows| && 0 < Boundary(j, limit) < |rows| - limit
      ensures Boundary(j + 1, limit) == Boundary(j, limit) + limit
      ensures CleanBoundary(rows[limit..], Boundary(j, limit)) <==> CleanBoundary(rows, Boundary(j + 1, limit))
    {
      assert (j + 1) * limit == j * limit + limit;
    }

    lemma CleanRest(rows: seq<T>, limit: nat)
      requires 0 < limit < |rows| && Clean(rows, limit)
      ensures CleanBoundary(rows, limit) && Clean(rows[limit..], limit)
    {
      assert Boundary(1, limit) == limit;
      forall j: nat | 0 < Boundary(j, limit) < |rows[limit..]|
        ensures CleanBoundary(rows[limit..], Boundary(j, limit))
      {
        NextBoundary(rows, limit, j);
      }
    }

    lemma CleanStep(rows: seq<T>, limit: nat)
      requires 0 < limit < |rows|
      ensures Clean(rows, limit) <==> CleanBoundary(rows, limit) && Clean(rows[limit..], limit)
    {
      if Clean(rows, limit) {
        CleanRest(rows, limit);
      }
      if CleanBoundary(rows, limit) && Clean(rows[limit..], limit) {
        forall j: nat | 0 < Boundary(j, limit) < |rows|
          ensures CleanBoundary(rows, Boundary(j, limit))
        {
          CleanAt(rows, limit, j);
        }
      }
    }

    lemma CleanAt(rows: seq<T>, limit: nat, j: nat)
      requires 0 < limit < |rows| && CleanBoundary(rows, limit) && Clean(rows[limit..], limit)
      requires 0 < Boundary(j, limit) < |rows|
      ensures CleanBoundary(rows, Boundary(j, limit))
    {
      PreviousBoundary(j, limit);
      if j > 1 {
        NextBoundary(rows, limit, j - 1);
      }
    }

    lemma PreviousBoundary(j: nat, limit: nat)
      requires Boundary(j, limit) > 0
      ensures j >= 1 && (j == 1 ==> Boundary(j, limit) == limit)
      ensures j > 1 ==> Boundary(j, limit) == Boundary(j - 1, limit) + limit && Boundary(j - 1, limit) > 0
    {
      if j > 1 {
        assert (j - 1) * limit == j * limit - limit;
        NotShort(j - 1, limit);
      }
    }

    lemma NotShort(j: nat, limit: nat)
      requires j >= 1
      ensures Boundary(j, limit) >= limit
    {
    }

    lemma ShortIsClean(rows: seq<T>, limit: nat)
      requires |rows| <= limit
      ensures Clean(rows, limit)
    {
      forall j: nat
        ensures j == 0 || Boundary(j, limit) >= limit
      {
        if j > 0 {
          NotShort(j, limit);
        }
      }
    }

    /** Following the cursor cuts the whole answer into pages, if no boundary splits a tie. */
    lemma {:induction false} FollowAllCuts(table: seq<T>, cursor: Option<Key>, limit: nat)
      requires limit > 0 && Clean(Rows(table, cursor), limit)
      ensures FollowAll(table, cursor, limit) == Cuts(Rows(table, cursor), limit)
      decreases |Rows(table, cursor)|
    {
      var rows := Rows(table, cursor);
      if |rows| <= limit {
        FollowAllStep(table, cursor, limit, []);
      } else {
        CleanStep(rows, limit);
        NextPageContinues(table, cursor, limit);
        FollowAllCuts(table, Some(key(rows[limit - 1])), limit);
        FollowAllStep(table, cursor, limit, Cuts(rows[limit..], limit));
      }
    }

    /** Following the cursor never returns more rows than there are. */
    lemma {:induction false} FollowAllWithin(table: seq<T>, cursor: Option<Key>, limit: nat)
      requires limit > 0
      ensures |Items(FollowAll(table, cursor, limit))| <= |Rows(table, cursor)|
      decreases |Rows(table, cursor)|
    {
      var rows := Rows(table, cursor);
      var page := PageOf(table, cursor, limit);
      if |rows| <= limit {
        FollowAllStep(table, cursor, limit, []);
        ItemsCons(page, []);
      } else {
        RowsShrink(table, cursor, limit);
        NextPageContinues(table, cursor, limit);
        FollowAllWithin(table, page.nextCursor, limit);
        FollowAllStep(table, cursor, limit, FollowAll(table, page.nextCursor, limit));
        ItemsCons(page, FollowAll(table, page.nextCursor, limit));
      }
    }

    /** On an unchanging table the walk returns exactly the matching rows, in order, if and only if no page
        boundary splits rows of equal key. */
    lemma FollowAllCompleteIff(table: seq<T>, limit: nat)
      requires limit > 0
      ensures Items(FollowAll(table, None, limit)) == All(table) <==> Clean(All(table), limit)
      ensures Clean(All(table), limit) ==> |FollowAll(table, None, limit)| == PageCount(|All(table)|, limit)
    {
      RowsAreFilteredAll(table, None);
      FilterAll(All(table), After(None));
      if Clean(All(table), limit) {
        FollowAllCuts(table, None, limit);
        CutsCover(All(table), limit);
      } else {
        TieLosesRows(table, None, limit);
      }
    }

    lemma {:induction false} TieLosesRows(table: seq<T>, cursor: Option<Key>, limit: nat)
      requires limit > 0 && !Clean(Rows(table, cursor), limit)
      ensures |Items(FollowAll(table, cursor, limit))| < |Rows(table, cursor)|
      decreases |Rows(table, cursor)|
    {
      var rows := Rows(table, cursor);
      var page := PageOf(table, cursor, limit);
      if |rows| <= limit {
        ShortIsClean(rows, limit);
      } else {
        CleanStep(rows, limit);
        NextPageContinues(table, cursor, limit);
        if CleanBoundary(rows, limit) {
          TieLosesRows(table, page.nextCursor, limit);
        } else {
          FollowAllWithin(table, page.nextCursor, limit);
        }
        FollowAllStep(table, cursor, limit, FollowAll(table, page.nextCursor, limit));
        ItemsCons(page, FollowAll(table, page.nextCursor, limit));
      }
    }

    lemma StrictIsClean(rows: seq<T>, limit: nat)
      requires Strict(rows)
      ensures Clean(rows, limit)
    {
    }

    /** The pages a walk received, from a fetch on. */
    function Pages(walk: seq<Fetch<T>>, from: nat): seq<Page<T>>
      requires from <= |walk|
      decreases |walk| - from
    {
      if from == |walk| then [] else [walk[from].page] + Pages(walk, from + 1)
    }

    lemma FollowAllStep(table: seq<T>, cursor: Option<Key>, limit: nat, rest: seq<Page<T>>)
      requires var next := PageOf(table, cursor, limit).nextCursor;
               if next.None? then rest == [] else rest == FollowAll(table, next, limit)
      ensures FollowAll(table, cursor, limit) == [PageOf(table, cursor, limit)] + rest
    {
    }

    /** Fetch i got the page of the table, and fetch i + 1 continues behind it. */
    ghost predicate Follows(walk: seq<Fetch<T>>, table: seq<T>, limit: nat, i: nat)
      requires i < |walk|
    {
      && walk[i].page == PageOf(table, walk[i].cursor, limit)
      && if i + 1 == |walk| then walk[i].page.nextCursor.None?
         else walk[i].page.nextCursor.Some? && walk[i + 1].cursor == walk[i].page.nextCursor
    }

    lemma WalkFollows(walk: seq<Fetch<T>>, table: seq<T>, limit: nat, i: nat)
      requires IsTable(table) && DistinctKeys(table)
      requires IsWalk(walk, limit) && i < |walk| && walk[|walk| - 1].page.nextCursor.None?
      requires forall f :: f in walk ==> f.table == table
      ensures Follows(walk, table, limit, i)
    {
      var f := walk[i];
      assert f in walk;
      PageUnique(table, f.cursor, limit, f.page);
      var next := i + 1;
      if next < |walk| {
        assert walk[next].cursor == f.page.nextCursor;
      }
    }

    lemma {:induction false} FollowsAll(walk: seq<Fetch<T>>, table: seq<T>, limit: nat, from: nat)
      requires from < |walk| && forall i :: 0 <= i < |walk| ==> Follows(walk, table, limit, i)
      ensures Pages(walk, from) == FollowAll(table, walk[from].cursor, limit)
      decreases |walk| - from
    {
      assert Follows(walk, table, limit, from);
      if from + 1 < |walk| {
        FollowsAll(walk, table, limit, from + 1);
      }
      FollowAllStep(table, walk[from].cursor, limit, Pages(walk, from + 1));
    }

    /** Whatever walk a client makes over a table nobody writes to, its pages are those of FollowAll. */
    lemma {:induction false} WalkIsFollowAll(walk: seq<Fetch<T>>, table: seq<T>, limit: nat)
      requires IsTable(table) && DistinctKeys(table)
      requires IsWalk(walk, limit) && walk != [] && walk[|walk| - 1].page.nextCursor.None?
      requires forall f :: f in walk ==> f.table == table
      ensures Pages(walk, 0) == FollowAll(table, None, limit)
    {
      forall i | 0 <= i < |walk|
        ensures Follows(walk, table, limit, i)
      {
        WalkFollows(walk, table, limit, i);
      }
      FollowsAll(walk, table, limit, 0);
    }

    /** With distinct keys it does, in max(1, ceil(n / limit)) pages. */
    lemma FollowAllComplete(table: seq<T>, limit: nat)
      requires limit > 0 && IsTable(table) && DistinctKeys(table)
      ensures Items(FollowAll(table, None, limit)) == All(table)
      ensures |FollowAll(table, None, limit)| == PageCount(|All(table)|, limit)
    {
      RowsAreFilteredAll(table, None);
      FilterAll(All(table), After(None));
      PageOfIsPage(table, None, limit);
      AnswerStrict(table, None, All(table));
      StrictIsClean(All(table), limit);
      FollowAllCompleteIff(table, limit);
    }

    /** With distinct keys the database has no choice: there is only one page to answer with. */
    lemma PageUnique(table: seq<T>, cursor: Option<Key>, limit: nat, page: Page<T>)
      requires IsTable(table) && DistinctKeys(table)
      requires IsPage(table, cursor, limit, page)
      ensures page == PageOf(table, cursor, limit)
    {
      var rows :| IsAnswer(table, cursor, rows) && page == Cut(rows, limit);
      PageOfIsPage(table, cursor, limit);
      AnswerStrict(table, cursor, rows);
      AnswerStrict(table, cursor, Rows(table, cursor));
      StrictUnique(rows, Rows(table, cursor));
    }

    ghost predicate Strict(rows: seq<T>) {
      forall i, j :: 0 <= i < j < |rows| ==> Before(key(rows[i]), key(rows[j]))
    }

    lemma AnswerStrict(table: seq<T>, cursor: Option<Key>, rows: seq<T>)
      requires DistinctKeys(table) && IsAnswer(table, cursor, rows)
      ensures Strict(rows)
    {
      forall i, j | 0 <= i < j < |rows|
        ensures Before(key(rows[i]), key(rows[j]))
      {
        assert rows[i] in rows && rows[j] in rows && id(rows[i]) != id(rows[j]);
      }
    }

    lemma HasMember(s: seq<T>)
      ensures s == [] || exists r :: r in s
    {
      assert s == [] || s[0] in s;
    }

    lemma {:induction false} StrictUnique(a: seq<T>, b: seq<T>)
      requires Strict(a) && Strict(b)
      requires forall r :: r in a <==> r in b
      ensures a == b
    {
      HasMember(a);
      HasMember(b);
      if a != [] && b != [] {
        assert a[0] in b && b[0] in a;
        assert a[0] == b[0];
        assert a == [a[0]] + a[1..] && b == [b[0]] + b[1..];
        forall r
          ensures r in a[1..] <==> r in b[1..]
        {
          if r in a[1..] {
            assert r in b && r != a[0];
          }
          if r in b[1..] {
            assert r in a && r != b[0];
          }
        }
        StrictUnique(a[1..], b[1..]);
      }
    }

    /** A limit of zero never yields a cursor: the walk ends at once, and has returned everything
        only when nothing matches. */
    lemma LimitZero(table: seq<T>)
      ensures |FollowAll(table, None, 0)| == 1
      ensures Items(FollowAll(table, None, 0)) == All(table) <==> All(table) == []
    {
      var page := PageOf(table, None, 0);
      assert FollowAll(table, None, 0) == [page];
      assert Items([page]) == page.items + Items([]);
      RowsAreFilteredAll(table, None);
      FilterAll(All(table), After(None));
    }
  }

  function PageCount(n: nat, limit: nat): nat
    requires limit > 0
  {
    if n <= limit then 1 else 1 + PageCount(n - limit, limit)
  }

  /** PageCount is max(1, ceil(n / limit)). */
  lemma {:induction false} PageCountIsCeiling(n: nat, limit: nat)
    requires limit > 0
    ensures PageCount(n, limit) >= 1
    ensures n > 0 ==> (PageCount(n, limit) - 1) * limit < n <= PageCount(n, limit) * limit
  {
    if n > limit {
      PageCountIsCeiling(n - limit, limit);
      var c := PageCount(n - limit, limit);
      assert (c + 1) * limit == c * limit + limit;
      assert c * limit == (c - 1) * limit + limit;
    }
  }
}
