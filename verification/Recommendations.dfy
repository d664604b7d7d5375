/** Recommendation candidates: which content and communities are proposed, how they are ranked and cut,
    and how they are stored over what was stored before. Relevance scores are abstract. */
module Recommendations {
  import opened Sequences

  datatype Kind = Person | Content | Community

  /** `count` is the number of engaging connections, or of connections in the community. */
  datatype Candidate = Candidate(targetId: string, kind: Kind, score: real, count: nat)

  datatype Activity = Activity(userId: string, contentId: string, timestamp: int)
  datatype Item = Item(id: string, topics: seq<string>, publishedAt: int)
  datatype Group = Group(id: string, topics: seq<string>)

  const TOP_CONTENT: nat := 50
  const TOP_COMMUNITIES: nat := 30

  // ---------------------------------------------------------------- first occurrences

  function Ids<T(==)>(s: seq<T>, id: T -> string): set<string> {
    set x | x in s :: id(x)
  }

  lemma IdsSnoc<T>(s: seq<T>, x: T, id: T -> string)
    ensures Ids(s + [x], id) == Ids(s, id) + {id(x)}
  {
    forall i
      ensures i in Ids(s + [x], id) <==> i in Ids(s, id) + {id(x)}
    {
      if i in Ids(s, id) {
        var y :| y in s && id(y) == i;
        assert y in s + [x];
      }
      assert x in s + [x];
    }
  }

  /** The elements whose id is not in `seen` and has not occurred before. */
  function FirstOf<T(==)>(s: seq<T>, id: T -> string, seen: set<string>): (r: seq<T>)
    ensures forall x :: x in r ==> x in s
  {
    if s == [] then []
    else
      var init, last := s[..|s| - 1], s[|s| - 1];
      var r := FirstOf(init, id, seen);
      assert s == init + [last];
      if id(last) in seen || id(last) in Ids(init, id) then r else r + [last]
  }

  /** Distinct ids, none seen, and no unseen id is missing. */
  lemma {:induction false} FirstOfFacts<T>(s: seq<T>, id: T -> string, seen: set<string>)
    ensures DistinctBy(FirstOf(s, id, seen), id)
    ensures Ids(FirstOf(s, id, seen), id) == Ids(s, id) - seen
  {
    if s != [] {
      var init, last := s[..|s| - 1], s[|s| - 1];
      FirstOfFacts(init, id, seen);
      var r := FirstOf(init, id, seen);
      assert s == init + [last];
      assert Ids(s, id) == Ids(init, id) + {id(last)};
      if id(last) !in seen && id(last) !in Ids(init, id) {
        assert Ids(r + [last], id) == Ids(r, id) + {id(last)};
        forall i | 0 <= i < |r|
          ensures id(r[i]) != id(last)
        {
          assert r[i] in r && r[i] in init;
        }
      }
    }
  }

  /** Each id is represented by its first element. */
  lemma {:induction false} FirstOfIsFirst<T>(s: seq<T>, id: T -> string, seen: set<string>, i: nat)
    requires i < |s| && id(s[i]) !in seen && forall j :: 0 <= j < i ==> id(s[j]) != id(s[i])
    ensures s[i] in FirstOf(s, id, seen)
  {
    var init := s[..|s| - 1];
    if i < |s| - 1 {
      FirstOfIsFirst(init, id, seen, i);
    } else {
      assert forall j :: 0 <= j < |init| ==> id(init[j]) != id(s[i]);
    }
  }

  // ---------------------------------------------------------------- ranking

  function ScoreOf(): Candidate -> real {
    (c: Candidate) => c.score
  }

  /** Sort by score, best first, and keep the first n. */
  function Top(cs: seq<Candidate>, n: nat): seq<Candidate> {
    Best(cs, ScoreOf(), n)
  }

  lemma TopDistinct(cs: seq<Candidate>, n: nat)
    requires DistinctBy(cs, (c: Candidate) => c.targetId)
    ensures DistinctBy(Top(cs, n), (c: Candidate) => c.targetId)
    ensures forall c :: c in Top(cs, n) ==> c in cs
  {
    var byTarget := (c: Candidate) => c.targetId;
    DistinctSort(cs, ByScore(ScoreOf()), byTarget);
    SortMembers(cs, ByScore(ScoreOf()));
    var sorted := SortBy(cs, ByScore(ScoreOf()));
    forall i, j | 0 <= i < j < |Top(cs, n)|
      ensures byTarget(Top(cs, n)[i]) != byTarget(Top(cs, n)[j])
    {
      assert byTarget(sorted[i]) != byTarget(sorted[j]);
    }
  }

  // ---------------------------------------------------------------- content

  /** If something is missing from the top n, there are n at least as good. */
  lemma TopIsBest(cs: seq<Candidate>, n: nat)
    ensures forall c :: c in cs && c !in Top(cs, n) ==>
              |Top(cs, n)| == n && forall k :: k in Top(cs, n) ==> k.score >= c.score
  {
    BestFacts(cs, ScoreOf(), n);
    forall c | c in cs && c !in Top(cs, n)
      ensures c in Beyond(cs, ScoreOf(), n)
    {
      BestOrBeyond(cs, ScoreOf(), n, c);
    }
  }

  /** What a candidate assembly starts from, and the two abstract scores. */
  datatype ContentInput = ContentInput(
    ownContentIds: seq<string>, connectionIds: seq<string>, activities: seq<Activity>, popular: seq<Item>,
    activityScore: (Activity, nat) -> real, popularScore: Item -> real)

  function EngagingUsers(input: ContentInput, contentId: string): nat {
    |Filter(input.connectionIds, (id: string) => Engages(input.activities, id, contentId))|
  }

  predicate Engages(activities: seq<Activity>, userId: string, contentId: string) {
    exists a :: a in activities && a.userId == userId && a.contentId == contentId
  }

  function FromActivity(input: ContentInput, a: Activity): Candidate {
    var n := EngagingUsers(input, a.contentId);
    Candidate(a.contentId, Content, input.activityScore(a, n), n)
  }

  function FromItem(input: ContentInput, i: Item): Candidate {
    Candidate(i.id, Content, input.popularScore(i), 0)
  }

  function SeenByUser(input: ContentInput): set<string> {
    set id | id in input.ownContentIds
  }

  /** Content of connections first, then popular content; each piece of content once, none the user knows. */
  function ContentPool(input: ContentInput): seq<Candidate> {
    var seen := SeenByUser(input);
    var byContent := (a: Activity) => a.contentId;
    Map(FirstOf(input.activities, byContent, seen), a => FromActivity(input, a))
    + Map(FirstOf(input.popular, (i: Item) => i.id, seen + Ids(input.activities, byContent)), i => FromItem(input, i))
  }

  lemma {:induction false} MapTargets<T>(s: seq<T>, id: T -> string, make: T -> Candidate)
    requires forall x :: x in s ==> make(x).targetId == id(x)
    requires DistinctBy(s, id)
    ensures DistinctBy(Map(s, make), (c: Candidate) => c.targetId)
    ensures Ids(Map(s, make), (c: Candidate) => c.targetId) == Ids(s, id)
  {
    var byTarget := (c: Candidate) => c.targetId;
    var m := Map(s, make);
    forall i | 0 <= i < |s|
      ensures byTarget(m[i]) == id(s[i])
    {
      assert s[i] in s;
    }
    forall t
      ensures t in Ids(m, byTarget) <==> t in Ids(s, id)
    {
      if t in Ids(m, byTarget) {
        var c :| c in m && byTarget(c) == t;
        var i :| 0 <= i < |m| && m[i] == c;
        assert s[i] in s && id(s[i]) == t;
      }
      if t in Ids(s, id) {
        var x :| x in s && id(x) == t;
        var i :| 0 <= i < |s| && s[i] == x;
        assert m[i] in m && byTarget(m[i]) == t;
      }
    }
  }

  lemma TwoPools(a: seq<Candidate>, b: seq<Candidate>)
    requires DistinctBy(a, (c: Candidate) => c.targetId) && DistinctBy(b, (c: Candidate) => c.targetId)
    requires Ids(a, (c: Candidate) => c.targetId) !! Ids(b, (c: Candidate) => c.targetId)
    ensures DistinctBy(a + b, (c: Candidate) => c.targetId)
    ensures Ids(a + b, (c: Candidate) => c.targetId)
         == Ids(a, (c: Candidate) => c.targetId) + Ids(b, (c: Candidate) => c.targetId)
  {
    var byTarget := (c: Candidate) => c.targetId;
    forall i, j | 0 <= i < j < |a + b|
      ensures byTarget((a + b)[i]) != byTarget((a + b)[j])
    {
      if i < |a| && j >= |a| {
        assert a[i] in a && b[j - |a|] in b;
        assert byTarget(a[i]) in Ids(a, byTarget) && byTarget(b[j - |a|]) in Ids(b, byTarget);
      }
    }
  }

  /** The pool proposes exactly the content of connections and popular content that the user has not
      interacted with, each once. */
  lemma ContentPoolExact(input: ContentInput)
    ensures DistinctBy(ContentPool(input), (c: Candidate) => c.targetId)
    ensures Ids(ContentPool(input), (c: Candidate) => c.targetId)
         == Ids(input.activities, (a: Activity) => a.contentId) + Ids(input.popular, (i: Item) => i.id)
            - SeenByUser(input)
  {
    var seen := SeenByUser(input);
    var byContent, byId := (a: Activity) => a.contentId, (i: Item) => i.id;
    var acts := FirstOf(input.activities, byContent, seen);
    var pops := FirstOf(input.popular, byId, seen + Ids(input.activities, byContent));
    FirstOfFacts(input.activities, byContent, seen);
    FirstOfFacts(input.popular, byId, seen + Ids(input.activities, byContent));
    MapTargets(acts, byContent, a => FromActivity(input, a));
    MapTargets(pops, byId, i => FromItem(input, i));
    TwoPools(Map(acts, a => FromActivity(input, a)), Map(pops, i => FromItem(input, i)));
  }

  /** `n` is how many of the connections have an activity on this content. */
  ghost predicate CountsEngaged(input: ContentInput, contentId: string, n: nat) {
    exists users: seq<string> ::
      && |users| == n
      && forall u :: multiset(users)[u]
                  == if exists a :: a in input.activities && a.userId == u && a.contentId == contentId
                     then multiset(input.connectionIds)[u] else 0
  }

  lemma EngagedCounted(input: ContentInput, contentId: string)
    ensures CountsEngaged(input, contentId, EngagingUsers(input, contentId))
  {
    var users := Filter(input.connectionIds, (id: string) => Engages(input.activities, id, contentId));
    FilterBag(input.connectionIds, (id: string) => Engages(input.activities, id, contentId));
    forall u
      ensures multiset(users)[u]
           == if exists a :: a in input.activities && a.userId == u && a.contentId == contentId
              then multiset(input.connectionIds)[u] else 0
    {
      assert Engages(input.activities, u, contentId) <==>
        exists a :: a in input.activities && a.userId == u && a.contentId == contentId;
    }
  }

  lemma {:induction false} FilterBag(s: seq<string>, keep: string -> bool)
    ensures forall x :: multiset(Filter(s, keep))[x] == if keep(x) then multiset(s)[x] else 0
  {
    if s != [] {
      FilterBag(s[..|s| - 1], keep);
      assert s == s[..|s| - 1] + [s[|s| - 1]];
    }
  }

  /** The first activity of a piece of content. */
  ghost predicate FirstActivity(input: ContentInput, a: Activity) {
    exists i :: 0 <= i < |input.activities| && input.activities[i] == a
                && forall j :: 0 <= j < i ==> input.activities[j].contentId != a.contentId
  }

  /** A proposed piece of content is scored by its first activity and the number of connections engaged in it, or,
      if there is no such activity, as popular content. */
  lemma ContentPoolScores(input: ContentInput, c: Candidate)
    requires c in ContentPool(input)
    ensures c.kind == Content
    ensures (exists a :: FirstActivity(input, a) && a.contentId == c.targetId
                         && c.score == input.activityScore(a, c.count) && CountsEngaged(input, c.targetId, c.count))
         || ((forall a :: a in input.activities ==> a.contentId != c.targetId) && c.count == 0
             && exists i :: i in input.popular && i.id == c.targetId && c.score == input.popularScore(i))
  {
    var seen := SeenByUser(input);
    var byContent, byId := (a: Activity) => a.contentId, (i: Item) => i.id;
    var acts := FirstOf(input.activities, byContent, seen);
    var pops := FirstOf(input.popular, byId, seen + Ids(input.activities, byContent));
    FirstOfFacts(input.popular, byId, seen + Ids(input.activities, byContent));
    var k :| 0 <= k < |ContentPool(input)| && ContentPool(input)[k] == c;
    if k < |acts| {
      assert acts[k] in acts;
      var i := FirstOfEarliest(input.activities, byContent, seen, acts[k]);
      assert FirstActivity(input, acts[k]);
      EngagedCounted(input, c.targetId);
    } else {
      var i := pops[k - |acts|];
      assert i in pops;
      assert byId(i) in Ids(pops, byId);
      forall a | a in input.activities
        ensures a.contentId != c.targetId
      {
        assert byContent(a) in Ids(input.activities, byContent);
      }
    }
  }

  /** Place i holds x, and no earlier place an element with x's id. */
  ghost predicate EarliestAt<T>(s: seq<T>, id: T -> string, x: T, i: nat) {
    i < |s| && s[i] == x && forall j :: 0 <= j < i ==> id(s[j]) != id(x)
  }

  /** What is kept stands before everything else with its id. */
  lemma {:induction false} FirstOfEarliest<T>(s: seq<T>, id: T -> string, seen: set<string>, x: T) returns (i: nat)
    requires x in FirstOf(s, id, seen)
    ensures EarliestAt(s, id, x, i)
  {
    var n := |s| - 1;
    if x in FirstOf(s[..n], id, seen) {
      i := FirstOfEarliest(s[..n], id, seen, x);
      assert forall j :: 0 <= j < i ==> s[..n][j] == s[j];
    } else {
      i := n;
      forall j | 0 <= j < n
        ensures id(s[j]) != id(s[n])
      {
        assert s[j] in s[..n];
        assert id(s[j]) in Ids(s[..n], id);
      }
    }
  }

  /** The loop both sources go through: skip what was seen, note and propose the rest. */
  method AddUnseen<T(==)>(s: seq<T>, id: T -> string, make: T -> Candidate, seen: set<string>)
    returns (added: seq<Candidate>, seenAfter: set<string>)
    ensures added == Map(FirstOf(s, id, seen), make)
    ensures seenAfter == seen + Ids(s, id)
  {
    added, seenAfter := [], seen;
    for i := 0 to |s|
      invariant seenAfter == seen + Ids(s[..i], id)
      invariant added == Map(FirstOf(s[..i], id, seen), make)
    {
      MadeStep(s, i, id, make, seen);
      if id(s[i]) !in seenAfter {
        seenAfter := seenAfter + {id(s[i])};
        added := added + [make(s[i])];
      }
    }
    assert s[..|s|] == s;
  }

  lemma MadeStep<T>(s: seq<T>, i: nat, id: T -> string, make: T -> Candidate, seen: set<string>)
    requires i < |s|
    ensures seen + Ids(s[..i + 1], id) == seen + Ids(s[..i], id) + {id(s[i])}
    ensures Map(FirstOf(s[..i + 1], id, seen), make)
         == if id(s[i]) in seen + Ids(s[..i], id) then Map(FirstOf(s[..i], id, seen), make)
            else Map(FirstOf(s[..i], id, seen), make) + [make(s[i])]
  {
    FirstOfStep(s, i, id, seen);
  }

  lemma FirstOfStep<T>(s: seq<T>, i: nat, id: T -> string, seen: set<string>)
    requires i < |s|
    ensures Ids(s[..i + 1], id) == Ids(s[..i], id) + {id(s[i])}
    ensures FirstOf(s[..i + 1], id, seen)
         == if id(s[i]) in seen + Ids(s[..i], id) then FirstOf(s[..i], id, seen) else FirstOf(s[..i], id, seen) + [s[i]]
  {
    assert s[..i + 1] == s[..i] + [s[i]] && s[..i + 1][..i] == s[..i];
    IdsSnoc(s[..i], s[i], id);
  }

  method ContentCandidates(input: ContentInput) returns (result: seq<Candidate>)
    ensures result == Top(ContentPool(input), TOP_CONTENT)
  {
    var seenContentIds := SeenByUser(input);
    var engaged, popular;
    engaged, seenContentIds := AddUnseen(input.activities, (a: Activity) => a.contentId, a => FromActivity(input, a),
                                         seenContentIds);
    popular, seenContentIds := AddUnseen(input.popular, (i: Item) => i.id, i => FromItem(input, i), seenContentIds);
    result := Top(engaged + popular, TOP_CONTENT);
  }

  /** What is proposed is never known to the user and never proposed twice; if something the pool holds is
      missing, fifty at least as good ones are there. */
  lemma ContentCandidatesFacts(input: ContentInput)
    ensures var r := Top(ContentPool(input), TOP_CONTENT);
            && DistinctBy(r, (c: Candidate) => c.targetId)
            && (forall c :: c in r ==> c.targetId !in input.ownContentIds && c.kind == Content)
            && |r| <= 50
            && (forall c :: c in ContentPool(input) && c !in r ==>
                  |r| == 50 && forall k :: k in r ==> k.score >= c.score)
  {
    var pool := ContentPool(input);
    ContentPoolExact(input);
    TopDistinct(pool, TOP_CONTENT);
    TopIsBest(pool, TOP_CONTENT);
    var r := Top(pool, TOP_CONTENT);
    forall c | c in r
      ensures c.targetId !in input.ownContentIds && c.kind == Content
    {
      assert c.targetId in Ids(pool, (c: Candidate) => c.targetId);
    }
  }

  // ---------------------------------------------------------------- communities

  datatype CommunityInput = CommunityInput(
    ownCommunityIds: seq<string>, connectionCommunities: seq<Group>, interestCommunities: seq<Group>,
    connectionScore: (Group, nat) -> real, interestScore: Group -> real)

  function OwnCommunities(input: CommunityInput): set<string> {
    set id | id in input.ownCommunityIds
  }

  /** In how many of the connections' memberships a community occurs. */
  function Multiplicity(groups: seq<Group>, id: string): nat {
    |Filter(groups, (g: Group) => g.id == id)|
  }

  function FromConnections(input: CommunityInput, g: Group): Candidate {
    var n := Multiplicity(input.connectionCommunities, g.id);
    Candidate(g.id, Community, input.connectionScore(g, n), n)
  }

  function FromInterest(input: CommunityInput, g: Group): Candidate {
    Candidate(g.id, Community, input.interestScore(g), 0)
  }

  /** Communities of connections first, then communities of interest. */
  function CommunityPool(input: CommunityInput): seq<Candidate> {
    PoolWith(input, input.interestCommunities)
  }

  /** The pool when only `some` of the communities of interest have been looked at. */
  function PoolWith(input: CommunityInput, some: seq<Group>): seq<Candidate> {
    var own := OwnCommunities(input);
    var byId := (g: Group) => g.id;
    Map(FirstOf(input.connectionCommunities, byId, own), g => FromConnections(input, g))
    + Map(FirstOf(some, byId, own + Ids(input.connectionCommunities, byId)), g => FromInterest(input, g))
  }

  /** The pool proposes exactly the communities of connections and interests the user has not joined, each
      once; one that connections are in carries how many times it occurs among them. */
  lemma CommunityPoolExact(input: CommunityInput)
    ensures DistinctBy(CommunityPool(input), (c: Candidate) => c.targetId)
    ensures Ids(CommunityPool(input), (c: Candidate) => c.targetId)
         == Ids(input.connectionCommunities, (g: Group) => g.id) + Ids(input.interestCommunities, (g: Group) => g.id)
            - OwnCommunities(input)
    ensures forall c :: c in CommunityPool(input) ==>
              c.kind == Community && c.count == Multiplicity(input.connectionCommunities, c.targetId)
  {
    var own := OwnCommunities(input);
    var byId := (g: Group) => g.id;
    var a := FirstOf(input.connectionCommunities, byId, own);
    var b := FirstOf(input.interestCommunities, byId, own + Ids(input.connectionCommunities, byId));
    var left, right := Map(a, g => FromConnections(input, g)), Map(b, g => FromInterest(input, g));
    FirstOfFacts(input.connectionCommunities, byId, own);
    FirstOfFacts(input.interestCommunities, byId, own + Ids(input.connectionCommunities, byId));
    MapTargets(a, byId, g => FromConnections(input, g));
    MapTargets(b, byId, g => FromInterest(input, g));
    TwoPools(left, right);
    forall c | c in CommunityPool(input)
      ensures c.kind == Community && c.count == Multiplicity(input.connectionCommunities, c.targetId)
    {
      if c in right {
        assert c.targetId in Ids(right, (c: Candidate) => c.targetId);
        assert c.targetId !in Ids(input.connectionCommunities, byId);
        FilterNone(input.connectionCommunities, (g: Group) => g.id == c.targetId);
      }
    }
  }

  /** A proposed community is scored by how many connections' memberships name it, or, if none does, by interest. */
  lemma CommunityPoolScores(input: CommunityInput, c: Candidate)
    requires c in CommunityPool(input)
    ensures if c.count > 0
            then exists g :: g in input.connectionCommunities && g.id == c.targetId
                             && c.score == input.connectionScore(g, c.count)
            else exists g :: g in input.interestCommunities && g.id == c.targetId && c.score == input.interestScore(g)
  {
    var byId, own := (g: Group) => g.id, OwnCommunities(input);
    var a := FirstOf(input.connectionCommunities, byId, own);
    var b := FirstOf(input.interestCommunities, byId, own + Ids(input.connectionCommunities, byId));
    var k :| 0 <= k < |CommunityPool(input)| && CommunityPool(input)[k] == c;
    if k < |a| {
      assert a[k] in a && a[k] in input.connectionCommunities;
      FilterMembers(input.connectionCommunities, (g: Group) => g.id == c.targetId);
      assert a[k] in Filter(input.connectionCommunities, (g: Group) => g.id == c.targetId);
    } else {
      assert b[k - |a|] in b && b[k - |a|] in input.interestCommunities;
    }
  }

  /** Counting into an insertion-ordered map: its keys are the first occurrences, its values the multiplicities. */
  method CountMembers(input: CommunityInput) returns (order: seq<string>, counts: map<string, nat>)
    ensures order == Map(FirstOf(input.connectionCommunities, (g: Group) => g.id, OwnCommunities(input)),
                         (g: Group) => g.id)
    ensures forall id :: id in counts <==> id in order
    ensures forall id :: id in counts ==> counts[id] == Multiplicity(input.connectionCommunities, id)
  {
    var userCommunityIds := OwnCommunities(input);
    var groups := input.connectionCommunities;
    order, counts := [], map[];
    for i := 0 to |groups|
      invariant order == FirstIds(groups[..i], userCommunityIds)
      invariant Counts(counts, groups[..i], userCommunityIds)
    {
      var community := groups[i];
      FirstIdsStep(groups, i, userCommunityIds);
      CountsStep(counts, groups, i, userCommunityIds);
      if community.id !in userCommunityIds {
        var count := if community.id in counts then counts[community.id] else 0;
        if community.id !in counts {
          order := order + [community.id];
        }
        counts := counts[community.id := count + 1];
      }
    }
    assert groups[..|groups|] == groups;
    FirstIdsMembers(groups, userCommunityIds);
  }

  /** The unseen ids in the order of their first occurrence. */
  function FirstIds(groups: seq<Group>, seen: set<string>): seq<string> {
    Map(FirstOf(groups, (g: Group) => g.id, seen), (g: Group) => g.id)
  }

  /** The unseen ids with their multiplicities. */
  ghost predicate Counts(counts: map<string, nat>, groups: seq<Group>, seen: set<string>) {
    && (forall id :: id in counts <==> id in Ids(groups, (g: Group) => g.id) && id !in seen)
    && (forall id :: id in counts ==> counts[id] == Multiplicity(groups, id))
  }

  lemma FirstIdsStep(groups: seq<Group>, i: nat, seen: set<string>)
    requires i < |groups|
    ensures FirstIds(groups[..i + 1], seen)
         == if groups[i].id in seen || groups[i].id in Ids(groups[..i], (g: Group) => g.id)
            then FirstIds(groups[..i], seen)
            else FirstIds(groups[..i], seen) + [groups[i].id]
  {
    FirstOfStep(groups, i, (g: Group) => g.id, seen);
  }

  lemma FirstIdsMembers(groups: seq<Group>, seen: set<string>)
    ensures forall id :: id in FirstIds(groups, seen) <==> id in Ids(groups, (g: Group) => g.id) && id !in seen
  {
    var byId := (g: Group) => g.id;
    var firsts := FirstOf(groups, byId, seen);
    FirstOfFacts(groups, byId, seen);
    forall id
      ensures id in FirstIds(groups, seen) <==> id in Ids(firsts, byId)
    {
      if id in Ids(firsts, byId) {
        var g :| g in firsts && g.id == id;
        var k :| 0 <= k < |firsts| && firsts[k] == g;
        assert FirstIds(groups, seen)[k] == id;
      }
      if id in FirstIds(groups, seen) {
        var k :| 0 <= k < |firsts| && FirstIds(groups, seen)[k] == id;
        assert firsts[k] in firsts;
      }
    }
  }

  lemma CountsStep(counts: map<string, nat>, groups: seq<Group>, i: nat, seen: set<string>)
    requires i < |groups| && Counts(counts, groups[..i], seen)
    ensures var id := groups[i].id;
            Counts(if id in seen then counts else counts[id := if id in counts then counts[id] + 1 else 1],
                   groups[..i + 1], seen)
  {
    var byId, group := (g: Group) => g.id, groups[i];
    assert groups[..i + 1] == groups[..i] + [group];
    IdsSnoc(groups[..i], group, byId);
    forall id: string
      ensures Multiplicity(groups[..i + 1], id) == Multiplicity(groups[..i], id) + if group.id == id then 1 else 0
    {
      FilterSnoc(groups[..i], group, (g: Group) => g.id == id);
    }
    if group.id !in counts {
      NotYet(groups[..i], group.id);
    }
  }

  lemma NotYet(groups: seq<Group>, id: string)
    ensures id !in Ids(groups, (g: Group) => g.id) ==> Multiplicity(groups, id) == 0
  {
    if id !in Ids(groups, (g: Group) => g.id) {
      FilterNone(groups, (g: Group) => g.id == id);
    }
  }

  /** The first community of a list with a given id. */
  function FindGroup(groups: seq<Group>, id: string): (g: Group)
    requires id in Ids(groups, (g: Group) => g.id)
    ensures g in groups && g.id == id
  {
    if groups[0].id == id then groups[0]
    else
      assert groups == [groups[0]] + groups[1..];
      FindGroup(groups[1..], id)
  }

  lemma {:induction false} FindGroupIsFirst(groups: seq<Group>, id: string, seen: set<string>)
    requires id in Ids(groups, (g: Group) => g.id) && id !in seen
    ensures FindGroup(groups, id) in FirstOf(groups, (g: Group) => g.id, seen)
  {
    var i := FindGroupIndex(groups, id);
    FirstOfIsFirst(groups, (g: Group) => g.id, seen, i);
  }

  lemma {:induction false} FindGroupIndex(groups: seq<Group>, id: string) returns (i: nat)
    requires id in Ids(groups, (g: Group) => g.id)
    ensures i < |groups| && groups[i] == FindGroup(groups, id) && forall j :: 0 <= j < i ==> groups[j].id != id
  {
    if groups[0].id == id {
      i := 0;
    } else {
      assert groups == [groups[0]] + groups[1..];
      i := FindGroupIndex(groups[1..], id);
      i := i + 1;
    }
  }

  /** Looking a counted community up again finds the element that was counted first. */
  lemma LookupCounted(input: CommunityInput, k: nat)
    requires k < |FirstOf(input.connectionCommunities, (g: Group) => g.id, OwnCommunities(input))|
    ensures var g := FirstOf(input.connectionCommunities, (g: Group) => g.id, OwnCommunities(input))[k];
            && g.id in Ids(input.connectionCommunities, (g: Group) => g.id)
            && FindGroup(input.connectionCommunities, g.id) == g
  {
    var byId := (g: Group) => g.id;
    var own, groups := OwnCommunities(input), input.connectionCommunities;
    var r := FirstOf(groups, byId, own);
    FirstOfFacts(groups, byId, own);
    assert r[k] in r;
    assert byId(r[k]) in Ids(r, byId);
    FindGroupIsFirst(groups, r[k].id, own);
    var i :| 0 <= i < |r| && r[i] == FindGroup(groups, r[k].id);
    assert byId(r[i]) == byId(r[k]);
  }

  method CommunityCandidates(input: CommunityInput) returns (result: seq<Candidate>)
    ensures result == Top(CommunityPool(input), TOP_COMMUNITIES)
  {
    var byId := (g: Group) => g.id;
    var order, counts := CountMembers(input);
    ghost var firsts := FirstOf(input.connectionCommunities, byId, OwnCommunities(input));
    var candidates: seq<Candidate> := [];
    for k := 0 to |order|
      invariant candidates == Map(firsts[..k], g => FromConnections(input, g))
    {
      LookupCounted(input, k);
      var community := FindGroup(input.connectionCommunities, order[k]);
      var memberCount := counts[order[k]];
      candidates := candidates + [Candidate(community.id, Community, input.connectionScore(community, memberCount),
                                            memberCount)];
    }
    assert firsts[..|order|] == firsts;
    candidates := AddInterest(input, candidates);
    result := Top(candidates, TOP_COMMUNITIES);
  }

  /** No community is proposed twice or to a member; each carries how many connections' memberships name it;
      if one of the pool is missing, thirty at least as good ones are there. */
  lemma CommunityCandidatesFacts(input: CommunityInput)
    ensures var r := Top(CommunityPool(input), TOP_COMMUNITIES);
            && DistinctBy(r, (c: Candidate) => c.targetId)
            && (forall c :: c in r ==> c.targetId !in input.ownCommunityIds && c.kind == Community
                                       && c.count == Multiplicity(input.connectionCommunities, c.targetId))
            && |r| <= 30
            && (forall c :: c in CommunityPool(input) && c !in r ==>
                  |r| == 30 && forall k :: k in r ==> k.score >= c.score)
  {
    var pool := CommunityPool(input);
    CommunityPoolExact(input);
    TopDistinct(pool, TOP_COMMUNITIES);
    TopIsBest(pool, TOP_COMMUNITIES);
    var r := Top(pool, TOP_COMMUNITIES);
    forall c | c in r
      ensures c.targetId !in input.ownCommunityIds
    {
      assert c.targetId in Ids(pool, (c: Candidate) => c.targetId);
    }
  }

  /** The second loop looks through the candidates themselves instead of a set. */
  method AddInterest(input: CommunityInput, found: seq<Candidate>) returns (candidates: seq<Candidate>)
    requires found == Map(FirstOf(input.connectionCommunities, (g: Group) => g.id, OwnCommunities(input)),
                          g => FromConnections(input, g))
    ensures candidates == CommunityPool(input)
  {
    candidates := found;
    for i := 0 to |input.interestCommunities|
      invariant candidates == PoolWith(input, input.interestCommunities[..i])
    {
      var community := input.interestCommunities[i];
      PoolStep(input, i);
      var already := community.id in Ids(candidates, (c: Candidate) => c.targetId);
      if community.id !in input.ownCommunityIds && !already {
        candidates := candidates + [FromInterest(input, community)];
      }
    }
    assert input.interestCommunities[..|input.interestCommunities|] == input.interestCommunities;
  }

  lemma PoolStep(input: CommunityInput, i: nat)
    requires i < |input.interestCommunities|
    ensures var pool := PoolWith(input, input.interestCommunities[..i]);
            var longer := PoolWith(input, input.interestCommunities[..i + 1]);
            var g := input.interestCommunities[i];
            if g.id in input.ownCommunityIds || g.id in Ids(pool, (c: Candidate) => c.targetId) then longer == pool
            else longer == pool + [FromInterest(input, g)]
  {
    var byId := (g: Group) => g.id;
    FirstOfStep(input.interestCommunities, i, byId, OwnCommunities(input) + Ids(input.connectionCommunities, byId));
    TargetsSoFar(input, input.interestCommunities[..i]);
  }

  /** The candidates' targets are the unseen ids of everything looked at so far. */
  lemma TargetsSoFar(input: CommunityInput, some: seq<Group>)
    ensures Ids(PoolWith(input, some), (c: Candidate) => c.targetId)
         == Ids(input.connectionCommunities, (g: Group) => g.id) + Ids(some, (g: Group) => g.id) - OwnCommunities(input)
  {
    var byId, own := (g: Group) => g.id, OwnCommunities(input);
    var seen := own + Ids(input.connectionCommunities, byId);
    var a, b := FirstOf(input.connectionCommunities, byId, own), FirstOf(some, byId, seen);
    FirstOfFacts(input.connectionCommunities, byId, own);
    MapTargets(a, byId, g => FromConnections(input, g));
    FirstOfFacts(some, byId, seen);
    MapTargets(b, byId, g => FromInterest(input, g));
    TwoPools(Map(a, g => FromConnections(input, g)), Map(b, g => FromInterest(input, g)));
  }

  // ---------------------------------------------------------------- similarity of interests

  function LowerText(s: string): string {
    seq(|s|, i requires 0 <= i < |s| => Lower(s[i]))
  }

  function InterestSet(interests: seq<string>): set<string> {
    set i | i in interests :: LowerText(i)
  }

  /** Letter for letter the same, or its capital. */
  ghost predicate SameText(a: string, b: string) {
    |a| == |b| && forall i :: 0 <= i < |a| ==> SameLetter(a[i], b[i])
  }

  ghost predicate EachOccurs(some: seq<string>, others: seq<string>) {
    forall a :: a in some ==> exists b :: b in others && SameText(a, b)
  }

  lemma SameTextIff(a: string, b: string)
    ensures LowerText(a) == LowerText(b) <==> SameText(a, b)
  {
    if |a| == |b| {
      forall i | 0 <= i < |a|
        ensures LowerText(a)[i] == LowerText(b)[i] <==> SameLetter(a[i], b[i])
      {
        LowerIff(a[i], b[i]);
      }
    }
  }

  /** Two lists name the same interests exactly if each interest of one is, letter case aside, in the other. */
  lemma SameInterestsIff(interests1: seq<string>, interests2: seq<string>)
    ensures InterestSet(interests1) <= InterestSet(interests2) <==> EachOccurs(interests1, interests2)
  {
    if InterestSet(interests1) <= InterestSet(interests2) {
      forall a | a in interests1
        ensures exists b :: b in interests2 && SameText(a, b)
      {
        assert LowerText(a) in InterestSet(interests2);
        var b :| b in interests2 && LowerText(b) == LowerText(a);
        SameTextIff(a, b);
      }
    }
    if EachOccurs(interests1, interests2) {
      forall x | x in InterestSet(interests1)
        ensures x in InterestSet(interests2)
      {
        var a :| a in interests1 && LowerText(a) == x;
        var b :| b in interests2 && SameText(a, b);
        SameTextIff(a, b);
      }
    }
  }

  /** The size of the intersection is at most the square root of the product of the sizes, with equality
      for equal sets only. */
  lemma CosineBound(a: set<string>, b: set<string>, root: real)
    requires a != {} && b != {} && root >= 0.0 && root * root == |a| as real * |b| as real
    ensures root > 0.0
    ensures |a * b| as real <= root
    ensures |a * b| as real == root <==> a == b
  {
    SubsetSize(a * b, a);
    SubsetSize(a * b, b);
    RootBound(|a * b|, |a|, |b|, root);
    if a == b {
      assert a * b == a;
    }
  }

  lemma RootBound(k: nat, n: nat, m: nat, root: real)
    requires k <= n && k <= m && n > 0 && m > 0
    requires root >= 0.0 && root * root == n as real * m as real
    ensures root > 0.0 && k as real <= root
    ensures k as real == root <==> k == n && k == m
  {
    ProductsGrow(k as real, n as real, m as real);
    if k as real > root {
      SquaresGrow(root, k as real);
    }
    if k as real < root {
      SquaresGrow(k as real, root);
    }
  }

  lemma ProductsGrow(k: real, n: real, m: real)
    requires 0.0 <= k <= n && k <= m && n > 0.0 && m > 0.0
    ensures k * k <= n * m
    ensures k * k == n * m <==> k == n && k == m
  {
    assert k * m <= n * m;
    assert k * k <= k * m;
    if n > k {
      assert k * m < n * m;
    } else if m > k {
      assert k * k < k * m;
    }
  }

  lemma Chain(a: real, b: real, c: real)
    requires a <= b < c
    ensures a < c
  {
  }

  lemma SquaresGrow(x: real, y: real)
    requires 0.0 <= x < y
    ensures x * x < y * y
  {
    Chain(x * x, x * y, y * y);
  }

  lemma SubsetSize(a: set<string>, b: set<string>)
    requires a <= b
    ensures |a| <= |b|
    ensures |a| == |b| ==> a == b
  {
    assert |b - a| == |b| - |a|;
    if |a| == |b| {
      assert b - a == {};
    }
  }

  method CountShared(set1: set<string>, set2: set<string>) returns (intersectionCount: nat)
    ensures intersectionCount == |set1 * set2|
  {
    intersectionCount := 0;
    var rest := set1;
    while rest != {}
      invariant rest <= set1
      invariant intersectionCount == |(set1 - rest) * set2|
      decreases |rest|
    {
      var interest :| interest in rest;
      if interest in set2 {
        assert (set1 - (rest - {interest})) * set2 == (set1 - rest) * set2 + {interest};
        intersectionCount := intersectionCount + 1;
      } else {
        assert (set1 - (rest - {interest})) * set2 == (set1 - rest) * set2;
      }
      rest := rest - {interest};
    }
    assert set1 - {} == set1;
  }

  lemma Ratio(k: real, root: real, r: real)
    requires root > 0.0 && 0.0 <= k <= root && r == k / root
    ensures r * root == k && 0.0 <= r <= 1.0 && (r == 1.0 <==> k == root)
  {
  }

  /** `r` is the shared part of two sets over the root: between 0 and 1, and 1 for equal non-empty sets only. */
  ghost predicate IsSimilarity(r: real, a: set<string>, b: set<string>, root: real) {
    r * root == |a * b| as real && 0.0 <= r <= 1.0 && (r == 1.0 <==> a == b && a != {})
  }

  lemma NothingShared(a: set<string>, b: set<string>, root: real)
    requires a == {} || b == {}
    ensures IsSimilarity(0.0, a, b, root)
  {
    assert a * b == {};
  }

  lemma SharedOverRoot(a: set<string>, b: set<string>, root: real, n: nat)
    requires a != {} && b != {} && root >= 0.0 && root * root == |a| as real * |b| as real && n == |a * b|
    ensures root > 0.0 && IsSimilarity(n as real / root, a, b, root)
  {
    CosineBound(a, b, root);
    Ratio(n as real, root, n as real / root);
  }

  /** So two users' interests are the same set, and not empty, exactly if both name the same, letter case and
      repetitions aside. */
  lemma EqualInterestsIff(interests1: seq<string>, interests2: seq<string>)
    ensures InterestSet(interests1) == InterestSet(interests2) && InterestSet(interests1) != {} <==>
              interests1 != [] && EachOccurs(interests1, interests2) && EachOccurs(interests2, interests1)
  {
    SameInterestsIff(interests1, interests2);
    SameInterestsIff(interests2, interests1);
    if interests1 != [] {
      assert LowerText(interests1[0]) in InterestSet(interests1);
    }
  }

  /** Counting the shared interests, ignoring case; `root` is the square root the source takes. */
  method CalculateInterestSimilarity(interests1: seq<string>, interests2: seq<string>, root: real) returns (r: real)
    requires root >= 0.0
    requires root * root == |InterestSet(interests1)| as real * |InterestSet(interests2)| as real
    ensures IsSimilarity(r, InterestSet(interests1), InterestSet(interests2), root)
  {
    var set1, set2 := InterestSet(interests1), InterestSet(interests2);
    if set1 == {} || set2 == {} {
      NothingShared(set1, set2, root);
      return 0.0;
    }
    var intersectionCount := CountShared(set1, set2);
    SharedOverRoot(set1, set2, root, intersectionCount);
    r := intersectionCount as real / root;
  }
}
