/** Walks over a table nobody writes to, when the database orders rows of equal key differently at every fetch. */
module CursorTies {
  import opened CursorPaging
  import opened Sequences

  lemma EqualKeys(a: Key, b: Key)
    requires !Before(a, b) && !Before(b, a)
    ensures a == b
  {
  }

  /** `s` without its element at place j. */
  function Drop<T>(s: seq<T>, j: nat): seq<T>
    requires j < |s|
  {
    s[..j] + s[j + 1..]
  }

  lemma DropMembers<T(!new), I(!new)>(l: Listing<T, I>, s: seq<T>, j: nat)
    requires j < |s| && DistinctBy(s, l.id)
    ensures DistinctBy(Drop(s, j), l.id)
    ensures forall r :: r in Drop(s, j) <==> r in s && r != s[j]
  {
    var d := Drop(s, j);
    forall r | r in s && r != s[j]
      ensures r in d
    {
      var i :| 0 <= i < |s| && s[i] == r;
      assert d[if i < j then i else i - 1] == r;
    }
    forall i | 0 <= i < |d|
      ensures d[i] == s[if i < j then i else i + 1] && d[i] in s && d[i] != s[j]
    {
      var k := if i < j then i else i + 1;
      assert l.id(s[k]) != l.id(s[j]);
    }
  }

  lemma DropInOrder<T(!new), I(!new)>(l: Listing<T, I>, s: seq<T>, j: nat)
    requires j < |s| && l.InOrder(s)
    ensures l.InOrder(Drop(s, j))
  {
  }

  /** In key order, with nothing behind row j that a later key would separate from it, dropping row j or the last
      row leaves the same keys. */
  lemma DropKeys<T(!new), I(!new)>(l: Listing<T, I>, s: seq<T>, j: nat, i: nat)
    requires j < |s| && l.InOrder(s) && i < |s| - 1
    requires forall r :: r in s ==> !Before(l.key(s[j]), l.key(r))
    ensures l.key(Drop(s, j)[i]) == l.key(s[i])
  {
    if i >= j {
      assert s[i] in s && s[i + 1] in s;
      if i > j {
        EqualKeys(l.key(s[j]), l.key(s[i]));
      }
      EqualKeys(l.key(s[j]), l.key(s[i + 1]));
    }
  }

  /** Two orders of the same rows show the same keys at the same places. */
  lemma {:induction false} SameKeys<T(!new), I(!new)>(l: Listing<T, I>, a: seq<T>, b: seq<T>)
    requires l.InOrder(a) && l.InOrder(b) && DistinctBy(a, l.id) && DistinctBy(b, l.id)
    requires forall r :: r in a <==> r in b
    ensures |a| == |b| && forall i :: 0 <= i < |a| ==> l.key(a[i]) == l.key(b[i])
  {
    if a == [] {
      l.HasMember(b);
    } else {
      var n := |a| - 1;
      assert a[n] in b;
      var j :| 0 <= j < |b| && b[j] == a[n];
      forall r | r in b
        ensures !Before(l.key(b[j]), l.key(r))
      {
        var i :| 0 <= i < |a| && a[i] == r;
      }
      assert Drop(a, n) == a[..n];
      DropMembers(l, a, n);
      DropMembers(l, b, j);
      DropInOrder(l, b, j);
      SameKeys(l, a[..n], Drop(b, j));
      forall i | 0 <= i < |a|
        ensures l.key(a[i]) == l.key(b[i])
      {
        LastOrEarlier(l, a, b, j, i);
      }
    }
  }

  lemma LastOrEarlier<T(!new), I(!new)>(l: Listing<T, I>, a: seq<T>, b: seq<T>, j: nat, i: nat)
    requires l.InOrder(b) && j < |b| == |a| && i < |a| && b[j] == a[|a| - 1]
    requires forall r :: r in b ==> !Before(l.key(b[j]), l.key(r))
    requires forall k :: 0 <= k < |a| - 1 ==> l.key(a[k]) == l.key(Drop(b, j)[k])
    ensures l.key(a[i]) == l.key(b[i])
  {
    if i < |a| - 1 {
      DropKeys(l, b, j, i);
    } else if j < i {
      assert b[i] in b;
      EqualKeys(l.key(b[j]), l.key(b[i]));
    }
  }

  /** So every legal answer has the length and the boundary keys of the stable one. */
  lemma AnswerKeys<T(!new), I(!new)>(l: Listing<T, I>, table: seq<T>, cursor: Option<Key>, rows: seq<T>)
    requires l.IsTable(table) && l.IsAnswer(table, cursor, rows)
    ensures var stable := l.Rows(table, cursor);
            |rows| == |stable| && forall i :: 0 <= i < |rows| ==> l.key(rows[i]) == l.key(stable[i])
  {
    l.PageOfIsPage(table, cursor, 0);
    SameKeys(l, rows, l.Rows(table, cursor));
  }

  /** And every legal page the size and the cursor of the stable one. */
  lemma PageShape<T(!new), I(!new)>(l: Listing<T, I>, table: seq<T>, cursor: Option<Key>, limit: nat, page: Page<T>)
    requires l.IsTable(table) && l.IsPage(table, cursor, limit, page)
    ensures |page.items| == |l.PageOf(table, cursor, limit).items|
    ensures page.nextCursor == l.PageOf(table, cursor, limit).nextCursor
  {
    var rows :| l.IsAnswer(table, cursor, rows) && page == l.Cut(rows, limit);
    AnswerKeys(l, table, cursor, rows);
  }

  /** All a walk has returned, from a fetch on. */
  ghost function Returned<T(!new), I(!new)>(l: Listing<T, I>, walk: seq<Fetch<T>>, from: nat): seq<T>
    requires from <= |walk|
  {
    l.Items(l.Pages(walk, from))
  }

  lemma ReturnedStep<T(!new), I(!new)>(l: Listing<T, I>, walk: seq<Fetch<T>>, from: nat)
    requires from < |walk|
    ensures Returned(l, walk, from) == walk[from].page.items + Returned(l, walk, from + 1)
  {
    l.ItemsCons(walk[from].page, l.Pages(walk, from + 1));
  }

  /** Fetch i got a page of the size and cursor of the stable one, and fetch i + 1 continues behind it. */
  ghost predicate Shaped<T(!new), I(!new)>(l: Listing<T, I>, walk: seq<Fetch<T>>, table: seq<T>, limit: nat, i: nat)
    requires i < |walk|
  {
    var stable := l.PageOf(table, walk[i].cursor, limit);
    && |walk[i].page.items| == |stable.items|
    && if i + 1 == |walk| then stable.nextCursor.None?
       else stable.nextCursor.Some? && walk[i + 1].cursor == stable.nextCursor
  }

  lemma WalkShaped<T(!new), I(!new)>(l: Listing<T, I>, walk: seq<Fetch<T>>, table: seq<T>, limit: nat, i: nat)
    requires l.IsTable(table) && l.IsWalk(walk, limit) && i < |walk| && walk[|walk| - 1].page.nextCursor.None?
    requires forall f :: f in walk ==> f.table == table
    ensures Shaped(l, walk, table, limit, i)
  {
    var f := walk[i];
    assert f in walk;
    PageShape(l, table, f.cursor, limit, f.page);
    var next := i + 1;
    if next < |walk| {
      assert walk[next].cursor == f.page.nextCursor;
    }
  }

  /** A walk returns as many rows, in as many pages, as following the stable order does. */
  lemma {:induction false} SameCount<T(!new), I(!new)>(l: Listing<T, I>, walk: seq<Fetch<T>>, table: seq<T>,
                                                           limit: nat, from: nat)
    requires from < |walk| && forall i :: 0 <= i < |walk| ==> Shaped(l, walk, table, limit, i)
    ensures |Returned(l, walk, from)| == |l.Items(l.FollowAll(table, walk[from].cursor, limit))|
    ensures |walk| - from == |l.FollowAll(table, walk[from].cursor, limit)|
    decreases |walk| - from
  {
    var cursor := walk[from].cursor;
    var page := l.PageOf(table, cursor, limit);
    assert Shaped(l, walk, table, limit, from);
    ReturnedStep(l, walk, from);
    if from + 1 < |walk| {
      SameCount(l, walk, table, limit, from + 1);
      l.FollowAllStep(table, cursor, limit, l.FollowAll(table, page.nextCursor, limit));
      l.ItemsCons(page, l.FollowAll(table, page.nextCursor, limit));
    } else {
      l.FollowAllStep(table, cursor, limit, []);
      l.ItemsCons(page, []);
    }
  }

  /** What is returned are distinct rows of the listing. */
  lemma {:induction false} ReturnedRows<T(!new), I(!new)>(l: Listing<T, I>, walk: seq<Fetch<T>>, table: seq<T>,
                                                              limit: nat, from: nat)
    requires l.IsTable(table) && l.IsWalk(walk, limit) && from <= |walk|
    requires forall f :: f in walk ==> f.table == table
    ensures forall r :: r in Returned(l, walk, from) ==> r in table && l.matches(r)
    ensures forall r :: r in Returned(l, walk, from) ==>
              exists q, j :: from <= q < |walk| && 0 <= j < |walk[q].page.items| && walk[q].page.items[j] == r
    ensures DistinctBy(Returned(l, walk, from), l.id)
    decreases |walk| - from
  {
    if from < |walk| {
      var f := walk[from];
      assert f in walk;
      l.PageFacts(f.table, f.cursor, limit, f.page);
      ReturnedStep(l, walk, from);
      ReturnedRows(l, walk, table, limit, from + 1);
      var rest := Returned(l, walk, from + 1);
      forall r | r in f.page.items
        ensures exists q, j :: from <= q < |walk| && 0 <= j < |walk[q].page.items| && walk[q].page.items[j] == r
      {
        var j :| 0 <= j < |f.page.items| && f.page.items[j] == r;
        assert walk[from].page.items[j] == r;
      }
      forall i, k | 0 <= i < |f.page.items| && 0 <= k < |rest|
        ensures l.id(f.page.items[i]) != l.id(rest[k])
      {
        assert rest[k] in rest;
        var q, j :| from + 1 <= q < |walk| && 0 <= j < |walk[q].page.items| && walk[q].page.items[j] == rest[k];
        TableFixed(l, table);
        l.WalkNeverRepeats(walk, limit, from, i, q, j);
      }
      DistinctConcat(l, f.page.items, rest);
    }
  }

  lemma TableFixed<T(!new), I(!new)>(l: Listing<T, I>, table: seq<T>)
    requires l.IsTable(table)
    ensures l.KeysFixed(table, table)
  {
    l.KeysFixedByPosition(table, table);
  }

  lemma DistinctConcat<T(!new), I(!new)>(l: Listing<T, I>, a: seq<T>, b: seq<T>)
    requires DistinctBy(a, l.id) && DistinctBy(b, l.id)
    requires forall i, k :: 0 <= i < |a| && 0 <= k < |b| ==> l.id(a[i]) != l.id(b[k])
    ensures DistinctBy(a + b, l.id)
  {
    forall i, j | 0 <= i < j < |a + b|
      ensures l.id((a + b)[i]) != l.id((a + b)[j])
    {
      if i < |a| && j >= |a| {
        assert l.id(a[i]) != l.id(b[j - |a|]);
      }
    }
  }

  /** Among distinct rows, a part is the whole exactly if it is as long. */
  lemma {:induction false} PartIsWhole<T(!new), I(!new)>(l: Listing<T, I>, part: seq<T>, whole: seq<T>)
    requires DistinctBy(part, l.id) && DistinctBy(whole, l.id) && forall r :: r in part ==> r in whole
    ensures |part| <= |whole|
    ensures |part| == |whole| <==> forall r :: r in whole ==> r in part
  {
    if part == [] {
      assert whole == [] || whole[0] in whole;
    } else {
      var n := |part| - 1;
      assert part[n] in whole;
      var j :| 0 <= j < |whole| && whole[j] == part[n];
      assert Drop(part, n) == part[..n];
      DropMembers(l, part, n);
      DropMembers(l, whole, j);
      PartIsWhole(l, part[..n], Drop(whole, j));
      assert forall r :: r in part <==> r in part[..n] || r == part[n];
      assert forall r :: r in whole <==> r in Drop(whole, j) || r == part[n];
    }
  }

  /** Whatever order the database picks among equal keys, at every fetch anew: the walk over an unchanging table
      returns every matching row if and only if no page boundary of the listing splits rows of equal key. */
  lemma WalkCompleteIff<T(!new), I(!new)>(l: Listing<T, I>, walk: seq<Fetch<T>>, table: seq<T>, limit: nat)
    requires limit > 0 && l.IsTable(table)
    requires l.IsWalk(walk, limit) && walk != [] && walk[|walk| - 1].page.nextCursor.None?
    requires forall f :: f in walk ==> f.table == table
    ensures (forall r :: r in table && l.matches(r) ==> r in Returned(l, walk, 0)) <==> l.Clean(l.All(table), limit)
    ensures l.Clean(l.All(table), limit) ==> |walk| == PageCount(|l.All(table)|, limit)
    ensures !l.Clean(l.All(table), limit) ==> |Returned(l, walk, 0)| < |l.All(table)|
  {
    forall i | 0 <= i < |walk|
      ensures Shaped(l, walk, table, limit, i)
    {
      WalkShaped(l, walk, table, limit, i);
    }
    SameCount(l, walk, table, limit, 0);
    l.RowsAreFilteredAll(table, None);
    FilterAll(l.All(table), l.After(None));
    l.FollowAllCompleteIff(table, limit);
    if !l.Clean(l.All(table), limit) {
      l.TieLosesRows(table, None, limit);
    }
    ReturnedRows(l, walk, table, limit, 0);
    l.PageOfIsPage(table, None, 0);
    PartIsWhole(l, Returned(l, walk, 0), l.All(table));
  }
}
