/** Storing candidates over the recommendations already there. */
module RecommendationStore {
  import opened Sequences
  import opened Recommendations

  datatype Rec = Rec(userId: string, targetId: string, kind: Kind, score: real, dismissed: bool)

  datatype StoreError = UniqueViolation

  predicate SameKey(r: Rec, userId: string, targetId: string, kind: Kind) {
    r.userId == userId && r.targetId == targetId && r.kind == kind
  }

  /** The unique index on user, target and type. Dismissed rows are in it too. */
  predicate Unique(rows: seq<Rec>) {
    forall i, j :: 0 <= i < j < |rows| ==> !SameKey(rows[i], rows[j].userId, rows[j].targetId, rows[j].kind)
  }

  // ---------------------------------------------------------------- the text key of the lookup map

  function KindName(kind: Kind): string {
    match kind case Person => "person" case Content => "content" case Community => "community"
  }

  function TextKey(targetId: string, kind: Kind): string {
    targetId + "-" + KindName(kind)
  }

  lemma NamesHaveNoDash(kind: Kind)
    ensures forall k :: 0 <= k < |KindName(kind)| ==> KindName(kind)[k] != '-'
  {
  }

  /** The text determines target and type, dashes in target ids notwithstanding. */
  lemma TextKeyInjective(t1: string, k1: Kind, t2: string, k2: Kind)
    requires TextKey(t1, k1) == TextKey(t2, k2)
    ensures t1 == t2 && k1 == k2
  {
    var s, n1, n2 := TextKey(t1, k1), KindName(k1), KindName(k2);
    NamesHaveNoDash(k1);
    NamesHaveNoDash(k2);
    assert s[|t1|] == '-' && s[|t2|] == '-';
    assert forall k :: |t1| < k < |s| ==> s[k] == n1[k - |t1| - 1];
    assert forall k :: |t2| < k < |s| ==> s[k] == n2[k - |t2| - 1];
    assert |t1| == |t2|;
    assert t1 == s[..|t1|] && t2 == s[..|t2|];
  }

  // ---------------------------------------------------------------- what storing means

  predicate Concerns(r: Rec, userId: string, c: Candidate) {
    SameKey(r, userId, c.targetId, c.kind)
  }

  /** The candidate for a row, if there is one. */
  function CandidateFor(cs: seq<Candidate>, targetId: string, kind: Kind): (r: Option<Candidate>)
    ensures r.Some? ==> r.value in cs && r.value.targetId == targetId && r.value.kind == kind
    ensures r.None? ==> forall c :: c in cs ==> !(c.targetId == targetId && c.kind == kind)
  {
    if cs == [] then None
    else if cs[0].targetId == targetId && cs[0].kind == kind then Some(cs[0])
    else
      assert cs == [cs[0]] + cs[1..];
      CandidateFor(cs[1..], targetId, kind)
  }

  function Refreshed(r: Rec, userId: string, cs: seq<Candidate>): Rec {
    var c := CandidateFor(cs, r.targetId, r.kind);
    if r.userId == userId && !r.dismissed && c.Some? then r.(score := c.value.score) else r
  }

  predicate Live(rows: seq<Rec>, userId: string, c: Candidate) {
    exists r :: r in rows && Concerns(r, userId, c) && !r.dismissed
  }

  function NewRow(userId: string, c: Candidate): Rec {
    Rec(userId, c.targetId, c.kind, c.score, false)
  }

  function Updated(rows: seq<Rec>, userId: string, cs: seq<Candidate>): seq<Rec> {
    Map(rows, r => Refreshed(r, userId, cs))
  }

  function Missing(rows: seq<Rec>, userId: string, cs: seq<Candidate>): seq<Rec> {
    Map(Filter(cs, c => !Live(rows, userId, c)), c => NewRow(userId, c))
  }

  /** Some candidate was dismissed before: its row is not found, but it is in the way. */
  ghost predicate DismissedBefore(rows: seq<Rec>, userId: string, cs: seq<Candidate>) {
    exists r, c :: r in rows && c in cs && Concerns(r, userId, c) && r.dismissed
  }

  ghost predicate DistinctTargets(cs: seq<Candidate>) {
    forall i, j :: 0 <= i < j < |cs| ==> !(cs[i].targetId == cs[j].targetId && cs[i].kind == cs[j].kind)
  }

  /** Inserting the missing rows respects the unique index exactly if no candidate was dismissed before. */
  lemma InsertableIff(rows: seq<Rec>, userId: string, cs: seq<Candidate>)
    requires Unique(rows) && DistinctTargets(cs)
    ensures Unique(Updated(rows, userId, cs) + Missing(rows, userId, cs)) <==> !DismissedBefore(rows, userId, cs)
  {
    if DismissedBefore(rows, userId, cs) {
      DismissedInTheWay(rows, userId, cs);
    } else {
      NothingInTheWay(rows, userId, cs);
    }
  }

  lemma DismissedInTheWay(rows: seq<Rec>, userId: string, cs: seq<Candidate>)
    requires Unique(rows) && DismissedBefore(rows, userId, cs)
    ensures !Unique(Updated(rows, userId, cs) + Missing(rows, userId, cs))
  {
    var up, added := Updated(rows, userId, cs), Missing(rows, userId, cs);
    var missing := Filter(cs, c => !Live(rows, userId, c));
    FilterMembers(cs, c => !Live(rows, userId, c));
    var r, c :| r in rows && c in cs && Concerns(r, userId, c) && r.dismissed;
    DismissedIsNotLive(rows, userId, r, c);
    var i :| 0 <= i < |rows| && rows[i] == r;
    var j :| 0 <= j < |missing| && missing[j] == c;
    assert (up + added)[i] == up[i] && (up + added)[|rows| + j] == added[j];
    assert SameKey((up + added)[i], added[j].userId, added[j].targetId, added[j].kind);
  }

  lemma NothingInTheWay(rows: seq<Rec>, userId: string, cs: seq<Candidate>)
    requires Unique(rows) && DistinctTargets(cs) && !DismissedBefore(rows, userId, cs)
    ensures Unique(Updated(rows, userId, cs) + Missing(rows, userId, cs))
  {
    var up, added := Updated(rows, userId, cs), Missing(rows, userId, cs);
    var missing := Filter(cs, c => !Live(rows, userId, c));
    FilterMembers(cs, c => !Live(rows, userId, c));
    MissingDistinct(rows, userId, cs);
    UpdatedUnique(rows, userId, cs);
    forall i, j | 0 <= i < |up| && 0 <= j < |added|
      ensures !SameKey(up[i], added[j].userId, added[j].targetId, added[j].kind)
    {
      assert missing[j] in missing && rows[i] in rows;
    }
    UniqueConcat(up, added);
  }

  lemma UniqueConcat(a: seq<Rec>, b: seq<Rec>)
    requires Unique(a) && Unique(b)
    requires forall i, j :: 0 <= i < |a| && 0 <= j < |b| ==> !SameKey(a[i], b[j].userId, b[j].targetId, b[j].kind)
    ensures Unique(a + b)
  {
    forall i, j | 0 <= i < j < |a + b|
      ensures !SameKey((a + b)[i], (a + b)[j].userId, (a + b)[j].targetId, (a + b)[j].kind)
    {
      if i < |a| && j >= |a| {
        assert (a + b)[i] == a[i] && (a + b)[j] == b[j - |a|];
      }
    }
  }

  lemma DismissedIsNotLive(rows: seq<Rec>, userId: string, r: Rec, c: Candidate)
    requires Unique(rows) && r in rows && Concerns(r, userId, c) && r.dismissed
    ensures !Live(rows, userId, c)
  {
    var i :| 0 <= i < |rows| && rows[i] == r;
    OnlyIfUnique(rows, i, userId, c.targetId, c.kind);
    forall q | q in rows && Concerns(q, userId, c)
      ensures q == r
    {
      var j :| 0 <= j < |rows| && rows[j] == q;
    }
  }

  lemma {:induction false} MissingDistinct(rows: seq<Rec>, userId: string, cs: seq<Candidate>)
    requires DistinctTargets(cs)
    ensures Unique(Missing(rows, userId, cs))
  {
    if cs != [] {
      var init, last := cs[..|cs| - 1], cs[|cs| - 1];
      MissingDistinct(rows, userId, init);
      FilterMembers(init, c => !Live(rows, userId, c));
      var f := Filter(init, c => !Live(rows, userId, c));
      forall i | 0 <= i < |f|
        ensures !(f[i].targetId == last.targetId && f[i].kind == last.kind)
      {
        assert f[i] in f && f[i] in init;
        var k :| 0 <= k < |init| && init[k] == f[i];
        assert cs[k] == f[i];
      }
    }
  }

  /** The row at place i, and no other, holds this key. */
  ghost predicate OnlyAt(rows: seq<Rec>, i: nat, userId: string, targetId: string, kind: Kind) {
    && i < |rows| && SameKey(rows[i], userId, targetId, kind)
    && forall j :: 0 <= j < |rows| && j != i ==> !SameKey(rows[j], userId, targetId, kind)
  }

  /** After a store that meets no dismissed row: each candidate has exactly one row, with its new score;
      all rows that no candidate concerns stay as and where they were; nothing else is added. */
  lemma StoreExact(rows: seq<Rec>, userId: string, cs: seq<Candidate>)
    requires Unique(rows) && DistinctTargets(cs) && !DismissedBefore(rows, userId, cs)
    ensures var after := Updated(rows, userId, cs) + Missing(rows, userId, cs);
            && Unique(after)
            && (forall c :: c in cs ==>
                  exists i: nat :: OnlyAt(after, i, userId, c.targetId, c.kind) && after[i].score == c.score &&
                    !after[i].dismissed)
            && (forall i :: 0 <= i < |rows| && (forall c :: c in cs ==> !Concerns(rows[i], userId, c)) ==>
                 after[i] == rows[i])
            && (forall i :: |rows| <= i < |after| ==> exists c :: c in cs && after[i] == NewRow(userId, c))
  {
    var up, added := Updated(rows, userId, cs), Missing(rows, userId, cs);
    var after := up + added;
    var missing := Filter(cs, c => !Live(rows, userId, c));
    InsertableIff(rows, userId, cs);
    FilterMembers(cs, c => !Live(rows, userId, c));
    forall c | c in cs
      ensures exists i: nat :: OnlyAt(after, i, userId, c.targetId, c.kind) && after[i].score == c.score &&
                !after[i].dismissed
    {
      var i := RowOf(rows, userId, cs, c);
      OnlyIfUnique(after, i, userId, c.targetId, c.kind);
    }
    forall i | 0 <= i < |rows| && (forall c :: c in cs ==> !Concerns(rows[i], userId, c))
      ensures after[i] == rows[i]
    {
      var c := CandidateFor(cs, rows[i].targetId, rows[i].kind);
      assert c.Some? ==> !Concerns(rows[i], userId, c.value);
    }
    forall i | |rows| <= i < |after|
      ensures exists c :: c in cs && after[i] == NewRow(userId, c)
    {
      var c := missing[i - |rows|];
      assert c in missing;
    }
  }

  lemma OnlyIfUnique(rows: seq<Rec>, i: nat, userId: string, targetId: string, kind: Kind)
    requires Unique(rows) && i < |rows| && SameKey(rows[i], userId, targetId, kind)
    ensures OnlyAt(rows, i, userId, targetId, kind)
  {
    forall j | 0 <= j < |rows| && j != i
      ensures !SameKey(rows[j], userId, targetId, kind)
    {
      assert if i < j then !SameKey(rows[i], rows[j].userId, rows[j].targetId, rows[j].kind)
             else !SameKey(rows[j], rows[i].userId, rows[i].targetId, rows[i].kind);
    }
  }

  lemma RowOf(rows: seq<Rec>, userId: string, cs: seq<Candidate>, c: Candidate) returns (i: nat)
    requires DistinctTargets(cs) && c in cs
    ensures var after := Updated(rows, userId, cs) + Missing(rows, userId, cs);
            i < |after| && Concerns(after[i], userId, c) && after[i].score == c.score && !after[i].dismissed
  {
    var missing := Filter(cs, c => !Live(rows, userId, c));
    FilterMembers(cs, c => !Live(rows, userId, c));
    if Live(rows, userId, c) {
      var r :| r in rows && Concerns(r, userId, c) && !r.dismissed;
      i :| 0 <= i < |rows| && rows[i] == r;
      SameCandidate(cs, c, CandidateFor(cs, r.targetId, r.kind).value);
    } else {
      assert c in missing;
      var k :| 0 <= k < |missing| && missing[k] == c;
      i := |rows| + k;
    }
  }

  lemma SameCandidate(cs: seq<Candidate>, c: Candidate, d: Candidate)
    requires DistinctTargets(cs) && c in cs && d in cs && c.targetId == d.targetId && c.kind == d.kind
    ensures c == d
  {
    var i :| 0 <= i < |cs| && cs[i] == c;
    var j :| 0 <= j < |cs| && cs[j] == d;
    assert !(i < j) && !(j < i);
  }

  // ---------------------------------------------------------------- one candidate after the other

  lemma {:induction false} CandidateForSnoc(cs: seq<Candidate>, c: Candidate, targetId: string, kind: Kind)
    ensures CandidateFor(cs + [c], targetId, kind)
         == if CandidateFor(cs, targetId, kind).Some? then CandidateFor(cs, targetId, kind)
            else if c.targetId == targetId && c.kind == kind then Some(c) else None
  {
    if cs != [] {
      assert (cs + [c])[1..] == cs[1..] + [c];
      CandidateForSnoc(cs[1..], c, targetId, kind);
    } else {
      assert cs + [c] == [c];
    }
  }

  /** A candidate with a live row refreshes that row and no other. */
  lemma UpdateOne(rows: seq<Rec>, userId: string, cs: seq<Candidate>, i: nat, k: nat)
    requires Unique(rows) && DistinctTargets(cs) && i < |cs|
    requires k < |rows| && Concerns(rows[k], userId, cs[i]) && !rows[k].dismissed
    ensures Updated(rows, userId, cs[..i + 1]) == Updated(rows, userId, cs[..i])[k := rows[k].(score := cs[i].score)]
  {
    OnlyIfUnique(rows, k, userId, cs[i].targetId, cs[i].kind);
    forall j | 0 <= j < |rows|
      ensures Refreshed(rows[j], userId, cs[..i + 1])
           == if j == k then rows[k].(score := cs[i].score) else Refreshed(rows[j], userId, cs[..i])
    {
      assert cs[..i + 1] == cs[..i] + [cs[i]];
      CandidateForSnoc(cs[..i], cs[i], rows[j].targetId, rows[j].kind);
      if j == k {
        assert forall c :: c in cs[..i] ==> !(c.targetId == cs[i].targetId && c.kind == cs[i].kind);
      }
    }
  }

  /** A candidate without a live row refreshes nothing. */
  lemma UpdateNone(rows: seq<Rec>, userId: string, cs: seq<Candidate>, i: nat)
    requires i < |cs| && !Live(rows, userId, cs[i])
    ensures Updated(rows, userId, cs[..i + 1]) == Updated(rows, userId, cs[..i])
  {
    forall j | 0 <= j < |rows|
      ensures Refreshed(rows[j], userId, cs[..i + 1]) == Refreshed(rows[j], userId, cs[..i])
    {
      assert cs[..i + 1] == cs[..i] + [cs[i]];
      CandidateForSnoc(cs[..i], cs[i], rows[j].targetId, rows[j].kind);
      assert rows[j] in rows;
    }
  }

  lemma UpdatedUnique(rows: seq<Rec>, userId: string, cs: seq<Candidate>)
    requires Unique(rows)
    ensures Unique(Updated(rows, userId, cs))
  {
    var up := Updated(rows, userId, cs);
    forall i, j | 0 <= i < j < |up|
      ensures !SameKey(up[i], up[j].userId, up[j].targetId, up[j].kind)
    {
      assert !SameKey(rows[i], rows[j].userId, rows[j].targetId, rows[j].kind);
    }
  }

  lemma MissingStep(rows: seq<Rec>, userId: string, cs: seq<Candidate>, i: nat)
    requires i < |cs|
    ensures Missing(rows, userId, cs[..i + 1])
         == if Live(rows, userId, cs[i]) then Missing(rows, userId, cs[..i])
            else Missing(rows, userId, cs[..i]) + [NewRow(userId, cs[i])]
  {
    FilterStep(cs, i, c => !Live(rows, userId, c));
  }

  /** What the map of existing rows says about a user's live rows. */
  ghost predicate MapsLive(rows: seq<Rec>, userId: string, candidates: seq<Candidate>, existing: map<string, nat>) {
    && (forall k :: k in existing ==>
          existing[k] < |rows| && rows[existing[k]].userId == userId && !rows[existing[k]].dismissed
          && TextKey(rows[existing[k]].targetId, rows[existing[k]].kind) == k)
    && (forall i :: 0 <= i < |rows| && rows[i].userId == userId && !rows[i].dismissed
                    && (exists c :: c in candidates && c.targetId == rows[i].targetId)
          ==> TextKey(rows[i].targetId, rows[i].kind) in existing)
  }

  /** Looking a candidate up by its text finds its live row, and finds one only if there is one. */
  lemma KeyLookup(rows: seq<Rec>, userId: string, candidates: seq<Candidate>, existing: map<string, nat>, c: Candidate)
    requires MapsLive(rows, userId, candidates, existing) && c in candidates
    ensures TextKey(c.targetId, c.kind) in existing <==> Live(rows, userId, c)
    ensures TextKey(c.targetId, c.kind) in existing ==>
              existing[TextKey(c.targetId, c.kind)] < |rows| &&
                Concerns(rows[existing[TextKey(c.targetId, c.kind)]], userId, c)
  {
    var key := TextKey(c.targetId, c.kind);
    if key in existing {
      var r := rows[existing[key]];
      TextKeyInjective(r.targetId, r.kind, c.targetId, c.kind);
      assert r in rows;
    }
    if Live(rows, userId, c) {
      var r :| r in rows && Concerns(r, userId, c) && !r.dismissed;
      var i :| 0 <= i < |rows| && rows[i] == r;
      assert c.targetId == rows[i].targetId;
    }
  }

  // ---------------------------------------------------------------- the call

  class Repository {
    var rows: seq<Rec>

    /** The non-dismissed rows of the user's candidates, under their text keys. */
    method ExistingMap(userId: string, candidates: seq<Candidate>) returns (existing: map<string, nat>)
      requires Unique(rows)
      ensures MapsLive(rows, userId, candidates, existing)
    {
      var targets := set c | c in candidates :: c.targetId;
      existing := map[];
      for i := 0 to |rows|
        invariant forall k :: k in existing ==>
                    existing[k] < i && rows[existing[k]].userId == userId && !rows[existing[k]].dismissed
                    && TextKey(rows[existing[k]].targetId, rows[existing[k]].kind) == k
        invariant forall j :: 0 <= j < i && rows[j].userId == userId && !rows[j].dismissed &&
                    rows[j].targetId in targets
                    ==> TextKey(rows[j].targetId, rows[j].kind) in existing
      {
        var r := rows[i];
        if r.userId == userId && r.targetId in targets && !r.dismissed {
          existing := existing[TextKey(r.targetId, r.kind) := i];
        }
      }
    }

    /** The rows saved are refreshed first and the new ones inserted after, all or none of them. */
    method StoreRecommendations(userId: string, candidates: seq<Candidate>) returns (r: Result<(), StoreError>)
      requires Unique(rows) && DistinctTargets(candidates)
      modifies this
      ensures r.Err? <==> DismissedBefore(old(rows), userId, candidates)
      ensures rows == Updated(old(rows), userId, candidates)
                      + if r.Ok? then Missing(old(rows), userId, candidates) else []
      ensures Unique(rows)
    {
      ghost var before := rows;
      var existing := ExistingMap(userId, candidates);
      var updated, toInsert := Prepare(userId, candidates, existing);
      InsertableIff(before, userId, candidates);
      UpdatedUnique(before, userId, candidates);
      rows := updated;
      var respectsIndex := Unique(rows + toInsert);
      if !respectsIndex {
        return Err(UniqueViolation);
      }
      rows := rows + toInsert;
      return Ok(());
    }

    /** Which rows to save with a new score and which to insert. */
    method Prepare(userId: string, candidates: seq<Candidate>, existing: map<string, nat>)
      returns (updated: seq<Rec>, toInsert: seq<Rec>)
      requires Unique(rows) && DistinctTargets(candidates) && MapsLive(rows, userId, candidates, existing)
      ensures updated == Updated(rows, userId, candidates)
      ensures toInsert == Missing(rows, userId, candidates)
    {
      toInsert := [];
      updated := rows;
      for i := 0 to |candidates|
        invariant updated == Updated(rows, userId, candidates[..i])
        invariant toInsert == Missing(rows, userId, candidates[..i])
      {
        var c := candidates[i];
        var key := TextKey(c.targetId, c.kind);
        MissingStep(rows, userId, candidates, i);
        KeyLookup(rows, userId, candidates, existing, c);
        if key in existing {
          UpdateOne(rows, userId, candidates, i, existing[key]);
          updated := updated[existing[key] := rows[existing[key]].(score := c.score)];
        } else {
          UpdateNone(rows, userId, candidates, i);
          toInsert := toInsert + [NewRow(userId, c)];
        }
      }
      assert candidates[..|candidates|] == candidates;
    }
  }
}
