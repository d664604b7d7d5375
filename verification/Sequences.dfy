/** Shared vocabulary: optional values, results, and the two list operations every query
    of the repository is made of, filtering and stable sorting. */
module Sequences {

  datatype Option<+T> = None | Some(value: T)

  datatype Result<+T, +E> = Ok(value: T) | Err(error: E)

  /** The elements of `s` that satisfy `keep`, in their order. */
  function Filter<T>(s: seq<T>, keep: T -> bool): (r: seq<T>)
    ensures |r| <= |s|
  {
    if s == [] then []
    else
      var init := Filter(s[..|s| - 1], keep);
      if keep(s[|s| - 1]) then init + [s[|s| - 1]] else init
  }

  lemma {:induction false} FilterMembers<T>(s: seq<T>, keep: T -> bool)
    ensures forall x :: x in Filter(s, keep) ==> x in s && keep(x)
    ensures forall x :: x in s && keep(x) ==> x in Filter(s, keep)
  {
    if s != [] {
      FilterMembers(s[..|s| - 1], keep);
      assert s == s[..|s| - 1] + [s[|s| - 1]];
    }
  }

  lemma FilterSnoc<T>(s: seq<T>, x: T, keep: T -> bool)
    ensures Filter(s + [x], keep) == if keep(x) then Filter(s, keep) + [x] else Filter(s, keep)
  {
    assert (s + [x])[..|s|] == s;
  }

  /** One more element of a list read from the front, as loops do. */
  lemma FilterStep<T>(s: seq<T>, i: nat, keep: T -> bool)
    requires i < |s|
    ensures Filter(s[..i + 1], keep)
         == if keep(s[i]) then Filter(s[..i], keep) + [s[i]] else Filter(s[..i], keep)
  {
    assert s[..i + 1][..i] == s[..i];
  }

  lemma {:induction false} FilterConcat<T>(a: seq<T>, b: seq<T>, keep: T -> bool)
    ensures Filter(a + b, keep) == Filter(a, keep) + Filter(b, keep)
  {
    if b == [] {
      assert a + b == a;
    } else {
      var init, x := b[..|b| - 1], b[|b| - 1];
      assert a + b == (a + init) + [x];
      FilterConcat(a, init, keep);
      FilterSnoc(a + init, x, keep);
    }
  }

  lemma {:induction false} FilterExtensional<T>(s: seq<T>, p: T -> bool, q: T -> bool)
    requires forall x :: x in s ==> p(x) == q(x)
    ensures Filter(s, p) == Filter(s, q)
  {
    if s != [] {
      FilterExtensional(s[..|s| - 1], p, q);
    }
  }

  lemma {:induction false} FilterTwice<T>(s: seq<T>, p: T -> bool, q: T -> bool)
    ensures Filter(Filter(s, p), q) == Filter(s, x => p(x) && q(x))
  {
    if s != [] {
      var init, x := s[..|s| - 1], s[|s| - 1];
      FilterTwice(init, p, q);
      if p(x) {
        FilterSnoc(Filter(init, p), x, q);
      }
    }
  }

  /** A condition that implies an earlier one makes the earlier one redundant. */
  lemma FilterImplied<T(!new)>(s: seq<T>, wide: T -> bool, narrow: T -> bool)
    requires forall x :: narrow(x) ==> wide(x)
    ensures Filter(Filter(s, wide), narrow) == Filter(s, narrow)
  {
    FilterTwice(s, wide, narrow);
    FilterExtensional(s, narrow, x => wide(x) && narrow(x));
  }

  lemma {:induction false} FilterAll<T>(s: seq<T>, keep: T -> bool)
    requires forall x :: x in s ==> keep(x)
    ensures Filter(s, keep) == s
  {
    if s != [] {
      FilterAll(s[..|s| - 1], keep);
      assert s == s[..|s| - 1] + [s[|s| - 1]];
    }
  }

  lemma {:induction false} FilterNone<T>(s: seq<T>, keep: T -> bool)
    requires forall x :: x in s ==> !keep(x)
    ensures Filter(s, keep) == []
  {
    if s != [] {
      FilterNone(s[..|s| - 1], keep);
    }
  }

  /** What holds of any two elements in their order still holds of any two kept ones. */
  lemma {:induction false} FilterPairs<T>(s: seq<T>, keep: T -> bool, r: (T, T) -> bool)
    requires forall i, j :: 0 <= i < j < |s| ==> r(s[i], s[j])
    ensures forall i, j :: 0 <= i < j < |Filter(s, keep)| ==> r(Filter(s, keep)[i], Filter(s, keep)[j])
  {
    if s != [] {
      var init := s[..|s| - 1];
      FilterPairs(init, keep, r);
      FilterMembers(init, keep);
      forall i | 0 <= i < |Filter(init, keep)|
        ensures r(Filter(init, keep)[i], s[|s| - 1])
      {
        assert Filter(init, keep)[i] in init;
      }
    }
  }

  lemma {:induction false} FilterShorter<T>(s: seq<T>, keep: T -> bool, x: T)
    requires x in s && !keep(x)
    ensures |Filter(s, keep)| < |s|
  {
    if s[|s| - 1] != x {
      FilterShorter(s[..|s| - 1], keep, x);
    }
  }

  /** `values` of a list under a key, in order. */
  function Map<T, U>(s: seq<T>, f: T -> U): (r: seq<U>)
    ensures |r| == |s|
    ensures forall i :: 0 <= i < |s| ==> r[i] == f(s[i])
  {
    seq(|s|, i requires 0 <= i < |s| => f(s[i]))
  }

  /** No two positions share the same label. */
  ghost predicate DistinctBy<T, U>(s: seq<T>, f: T -> U) {
    forall i, j :: 0 <= i < j < |s| ==> f(s[i]) != f(s[j])
  }

  lemma {:induction false} DistinctFilter<T, U>(s: seq<T>, f: T -> U, keep: T -> bool)
    requires DistinctBy(s, f)
    ensures DistinctBy(Filter(s, keep), f)
  {
    if s != [] {
      DistinctFilter(s[..|s| - 1], f, keep);
      FilterMembers(s[..|s| - 1], keep);
      var r := Filter(s[..|s| - 1], keep);
      forall i | 0 <= i < |r|
        ensures f(r[i]) != f(s[|s| - 1])
      {
        assert r[i] in r;
        assert r[i] in s[..|s| - 1];
      }
    }
  }

  // ---------------------------------------------------------------- sorting

  /** `lt` orders like `<` does after mapping to a linear order (ties allowed). */
  ghost predicate StrictWeak<T(!new)>(lt: (T, T) -> bool) {
    && (forall a, b :: lt(a, b) ==> !lt(b, a))
    && (forall a, b, c :: !lt(a, b) && !lt(b, c) ==> !lt(a, c))
  }

  ghost predicate Sorted<T>(s: seq<T>, lt: (T, T) -> bool) {
    forall i, j :: 0 <= i < j < |s| ==> !lt(s[j], s[i])
  }

  /** Places `x` after everything it does not precede. */
  function Insert<T>(x: T, s: seq<T>, lt: (T, T) -> bool): (r: seq<T>)
    ensures |r| == |s| + 1
  {
    if s == [] || !lt(x, s[|s| - 1]) then s + [x]
    else Insert(x, s[..|s| - 1], lt) + [s[|s| - 1]]
  }

  lemma {:induction false} InsertMultiset<T>(x: T, s: seq<T>, lt: (T, T) -> bool)
    ensures multiset(Insert(x, s, lt)) == multiset(s) + multiset{x}
  {
    if s != [] && lt(x, s[|s| - 1]) {
      InsertMultiset(x, s[..|s| - 1], lt);
      assert s == s[..|s| - 1] + [s[|s| - 1]];
    }
  }

  /** The stable sort behind `Array.prototype.sort` and ORDER BY. */
  function SortBy<T>(s: seq<T>, lt: (T, T) -> bool): (r: seq<T>)
    ensures |r| == |s|
  {
    if s == [] then [] else Insert(s[|s| - 1], SortBy(s[..|s| - 1], lt), lt)
  }

  lemma {:induction false} InsertExtensional<T(!new)>(x: T, s: seq<T>, lt: (T, T) -> bool, gt: (T, T) -> bool)
    requires forall a, b :: lt(a, b) == gt(a, b)
    ensures Insert(x, s, lt) == Insert(x, s, gt)
  {
    if s != [] {
      InsertExtensional(x, s[..|s| - 1], lt, gt);
    }
  }

  lemma {:induction false} SortExtensional<T(!new)>(s: seq<T>, lt: (T, T) -> bool, gt: (T, T) -> bool)
    requires forall a, b :: lt(a, b) == gt(a, b)
    ensures SortBy(s, lt) == SortBy(s, gt)
  {
    if s != [] {
      SortExtensional(s[..|s| - 1], lt, gt);
      InsertExtensional(s[|s| - 1], SortBy(s[..|s| - 1], lt), lt, gt);
    }
  }

  lemma {:induction false} SortMultiset<T>(s: seq<T>, lt: (T, T) -> bool)
    ensures multiset(SortBy(s, lt)) == multiset(s)
  {
    if s != [] {
      SortMultiset(s[..|s| - 1], lt);
      InsertMultiset(s[|s| - 1], SortBy(s[..|s| - 1], lt), lt);
      assert s == s[..|s| - 1] + [s[|s| - 1]];
    }
  }

  lemma SortMembers<T>(s: seq<T>, lt: (T, T) -> bool)
    ensures forall x :: x in SortBy(s, lt) ==> x in s
    ensures forall x :: x in s ==> x in SortBy(s, lt)
  {
    SortMultiset(s, lt);
    var r := SortBy(s, lt);
    forall x | x in r
      ensures x in s
    {
      assert x in multiset(r);
    }
    forall x | x in s
      ensures x in r
    {
      assert x in multiset(s);
    }
  }

  lemma {:induction false} InsertSorted<T(!new)>(x: T, s: seq<T>, lt: (T, T) -> bool)
    requires StrictWeak(lt) && Sorted(s, lt)
    ensures Sorted(Insert(x, s, lt), lt)
  {
    if s != [] {
      var last := s[|s| - 1];
      if lt(x, last) {
        var rest := s[..|s| - 1];
        InsertSorted(x, rest, lt);
        var r := Insert(x, rest, lt);
        InsertMultiset(x, rest, lt);
        forall i | 0 <= i < |r|
          ensures !lt(last, r[i])
        {
          assert r[i] in multiset(r);
          assert r[i] == x || r[i] in rest;
        }
      } else {
        forall i | 0 <= i < |s|
          ensures !lt(x, s[i])
        {
          assert i == |s| - 1 || !lt(last, s[i]);
        }
      }
    }
  }

  lemma {:induction false} SortSorted<T(!new)>(s: seq<T>, lt: (T, T) -> bool)
    requires StrictWeak(lt)
    ensures Sorted(SortBy(s, lt), lt)
  {
    if s != [] {
      SortSorted(s[..|s| - 1], lt);
      InsertSorted(s[|s| - 1], SortBy(s[..|s| - 1], lt), lt);
    }
  }

  lemma NotBeforeAny<T(!new)>(x: T, s: seq<T>, lt: (T, T) -> bool)
    requires StrictWeak(lt) && Sorted(s, lt)
    requires s == [] || !lt(x, s[|s| - 1])
    ensures forall y :: y in s ==> !lt(x, y)
  {
    forall i | 0 <= i < |s|
      ensures !lt(x, s[i])
    {
      assert i == |s| - 1 || !lt(s[|s| - 1], s[i]);
    }
  }

  lemma InsertAtEnd<T(!new)>(x: T, s: seq<T>, lt: (T, T) -> bool, keep: T -> bool)
    requires forall y :: y in s ==> !lt(x, y)
    ensures Insert(x, Filter(s, keep), lt) == Filter(s, keep) + [x]
  {
    FilterMembers(s, keep);
    var f := Filter(s, keep);
    if f != [] {
      assert f[|f| - 1] in f;
    }
  }

  lemma {:induction false} FilterInsert<T(!new)>(x: T, s: seq<T>, lt: (T, T) -> bool, keep: T -> bool)
    requires StrictWeak(lt) && Sorted(s, lt)
    ensures Filter(Insert(x, s, lt), keep)
         == if keep(x) then Insert(x, Filter(s, keep), lt) else Filter(s, keep)
  {
    if s == [] || !lt(x, s[|s| - 1]) {
      FilterSnoc(s, x, keep);
      NotBeforeAny(x, s, lt);
      InsertAtEnd(x, s, lt, keep);
    } else {
      var rest, last := s[..|s| - 1], s[|s| - 1];
      FilterInsert(x, rest, lt, keep);
      FilterSnoc(Insert(x, rest, lt), last, keep);
      var f := Filter(rest, keep);
      if keep(last) {
        assert Filter(s, keep) == f + [last];
        assert (f + [last])[..|f|] == f;
        assert Insert(x, f + [last], lt) == Insert(x, f, lt) + [last];
      }
    }
  }

  /** Sorting and filtering commute, so a filtered page is a stretch of one sorted list. */
  lemma {:induction false} FilterSort<T(!new)>(s: seq<T>, lt: (T, T) -> bool, keep: T -> bool)
    requires StrictWeak(lt)
    ensures SortBy(Filter(s, keep), lt) == Filter(SortBy(s, lt), keep)
  {
    if s != [] {
      var init, x := s[..|s| - 1], s[|s| - 1];
      FilterSort(init, lt, keep);
      SortSorted(init, lt);
      FilterInsert(x, SortBy(init, lt), lt, keep);
      if keep(x) {
        assert (Filter(init, keep) + [x])[..|Filter(init, keep)|] == Filter(init, keep);
      }
    }
  }

  lemma {:induction false} DistinctInsert<T, U>(x: T, s: seq<T>, lt: (T, T) -> bool, f: T -> U)
    requires DistinctBy(s, f)
    requires forall i :: 0 <= i < |s| ==> f(s[i]) != f(x)
    ensures DistinctBy(Insert(x, s, lt), f)
  {
    if s != [] && lt(x, s[|s| - 1]) {
      var rest := s[..|s| - 1];
      DistinctInsert(x, rest, lt, f);
      var r := Insert(x, rest, lt);
      InsertMultiset(x, rest, lt);
      forall i | 0 <= i < |r|
        ensures f(r[i]) != f(s[|s| - 1])
      {
        assert r[i] in multiset(r);
        assert r[i] == x || r[i] in rest;
      }
    }
  }

  lemma {:induction false} DistinctSort<T, U>(s: seq<T>, lt: (T, T) -> bool, f: T -> U)
    requires DistinctBy(s, f)
    ensures DistinctBy(SortBy(s, lt), f)
  {
    if s != [] {
      var init, x := s[..|s| - 1], s[|s| - 1];
      DistinctSort(init, lt, f);
      SortMembers(init, lt);
      var r := SortBy(init, lt);
      forall i | 0 <= i < |r|
        ensures f(r[i]) != f(x)
      {
        assert r[i] in r;
      }
      DistinctInsert(x, SortBy(init, lt), lt, f);
    }
  }

  // ---------------------------------------------------------------- the best by score

  function ByScore<T>(score: T -> real): (T, T) -> bool {
    (a, b) => score(a) > score(b)
  }

  /** Sort by score, best first, and keep the first n. */
  function Best<T>(s: seq<T>, score: T -> real, n: nat): seq<T> {
    var sorted := SortBy(s, ByScore(score));
    if |sorted| <= n then sorted else sorted[..n]
  }

  /** What Best cuts off. */
  function Beyond<T>(s: seq<T>, score: T -> real, n: nat): seq<T> {
    var sorted := SortBy(s, ByScore(score));
    if |sorted| <= n then [] else sorted[n..]
  }

  lemma BestAndBeyond<T>(s: seq<T>, score: T -> real, n: nat)
    ensures SortBy(s, ByScore(score)) == Best(s, score, n) + Beyond(s, score, n)
  {
  }

  lemma SortedParts<T>(a: seq<T>, b: seq<T>, score: T -> real)
    requires Sorted(a + b, ByScore(score))
    ensures Sorted(a, ByScore(score)) && forall x, y :: x in a && y in b ==> score(x) >= score(y)
  {
    forall i, j | 0 <= i < j < |a|
      ensures !ByScore(score)(a[j], a[i])
    {
      assert a[i] == (a + b)[i] && a[j] == (a + b)[j];
    }
    forall x, y | x in a && y in b
      ensures score(x) >= score(y)
    {
      var i :| 0 <= i < |a| && a[i] == x;
      var j :| 0 <= j < |b| && b[j] == y;
      assert (a + b)[i] == x && (a + b)[|a| + j] == y;
      assert !ByScore(score)((a + b)[|a| + j], (a + b)[i]);
    }
  }

  /** The kept and the cut elements are all elements; nothing cut scores higher than anything kept, and
      something is cut only if n were kept. */
  lemma BestFacts<T(!new)>(s: seq<T>, score: T -> real, n: nat)
    ensures multiset(Best(s, score, n)) + multiset(Beyond(s, score, n)) == multiset(s)
    ensures Sorted(Best(s, score, n), ByScore(score))
    ensures forall a, b :: a in Best(s, score, n) && b in Beyond(s, score, n) ==> score(a) >= score(b)
    ensures Beyond(s, score, n) != [] ==> |Best(s, score, n)| == n
    ensures |Best(s, score, n)| <= n
  {
    SortSorted(s, ByScore(score));
    SortMultiset(s, ByScore(score));
    BestAndBeyond(s, score, n);
    SortedParts(Best(s, score, n), Beyond(s, score, n), score);
  }

  /** Every element is kept or cut. */
  lemma BestOrBeyond<T(!new)>(s: seq<T>, score: T -> real, n: nat, x: T)
    ensures x in s <==> x in Best(s, score, n) || x in Beyond(s, score, n)
  {
    BestFacts(s, score, n);
    assert x in s <==> x in multiset(s);
    assert x in multiset(s) <==> x in multiset(Best(s, score, n)) || x in multiset(Beyond(s, score, n));
  }

  // ---------------------------------------------------------------- text

  function Lower(c: char): char {
    if 'A' <= c <= 'Z' then c - 'A' + 'a' else c
  }

  predicate EqualsIgnoreCase(a: string, b: string) {
    |a| == |b| && forall i :: 0 <= i < |a| ==> Lower(a[i]) == Lower(b[i])
  }

  /** `text.toLowerCase().includes(part.toLowerCase())` */
  predicate IncludesIgnoreCase(text: string, part: string) {
    |part| <= |text| && (EqualsIgnoreCase(text[..|part|], part) || (text != "" && IncludesIgnoreCase(text[1..], part)))
  }

  /** The same letter, or its capital. */
  predicate SameLetter(a: char, b: char) {
    a == b || ('A' <= a <= 'Z' && b == a + 32 as char) || ('A' <= b <= 'Z' && a == b + 32 as char)
  }

  ghost predicate OccursAt(text: string, part: string, k: nat) {
    k + |part| <= |text| && forall i :: 0 <= i < |part| ==> SameLetter(text[k + i], part[i])
  }

  ghost predicate Occurs(text: string, part: string) {
    exists k: nat :: OccursAt(text, part, k)
  }

  lemma LowerIff(a: char, b: char)
    ensures Lower(a) == Lower(b) <==> SameLetter(a, b)
  {
  }

  lemma StartsIff(text: string, part: string)
    requires |part| <= |text|
    ensures EqualsIgnoreCase(text[..|part|], part) <==> OccursAt(text, part, 0)
  {
    forall i | 0 <= i < |part|
      ensures Lower(text[i]) == Lower(part[i]) <==> SameLetter(text[i], part[i])
    {
      LowerIff(text[i], part[i]);
    }
  }

  lemma OccursLater(text: string, part: string, k: nat)
    requires text != []
    ensures OccursAt(text[1..], part, k) <==> OccursAt(text, part, k + 1)
  {
    if OccursAt(text, part, k + 1) {
      forall i | 0 <= i < |part|
        ensures SameLetter(text[1..][k + i], part[i])
      {
        assert SameLetter(text[k + 1 + i], part[i]);
      }
    }
    if OccursAt(text[1..], part, k) {
      forall i | 0 <= i < |part|
        ensures SameLetter(text[k + 1 + i], part[i])
      {
        assert SameLetter(text[1..][k + i], part[i]);
      }
    }
  }

  /** The test finds the part exactly if it stands somewhere in the text, whatever the letter case. */
  lemma {:induction false} IncludesIff(text: string, part: string)
    ensures IncludesIgnoreCase(text, part) <==> Occurs(text, part)
  {
    if |part| <= |text| {
      StartsIff(text, part);
      if text != [] {
        IncludesIff(text[1..], part);
        if k: nat :| OccursAt(text[1..], part, k) {
          OccursLater(text, part, k);
        }
        if k: nat :| OccursAt(text, part, k) && k > 0 {
          OccursLater(text, part, k - 1);
        }
      }
    }
  }
}
