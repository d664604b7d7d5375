/** Ranking topics for one user: a window of 3 * limit rows by score, re-scored by interest, sorted again and
    cut at the limit. */
module TrendingRanking {
  import opened Sequences
  import opened TopicExtraction
  import opened TrendingStore

  /** A row as returned; the general list carries no personalised score. */
  datatype Ranked = Ranked(topic: Topic, personalizedScore: Option<real>)

  // ---------------------------------------------------------------- the query

  /** `answer` may be returned for ORDER BY score DESC LIMIT n: sorted, n rows if there are that many, and no
      row left out beats a row returned. Which of several equal rows are returned is open. */
  ghost predicate IsTop(rows: seq<Topic>, answer: seq<Topic>, n: nat) {
    exists rest :: IsCut(rows, answer, rest, n)
  }

  ghost predicate IsCut(rows: seq<Topic>, answer: seq<Topic>, rest: seq<Topic>, n: nat) {
    && multiset(answer) + multiset(rest) == multiset(rows)
    && (forall i, j :: 0 <= i < j < |answer| ==> answer[i].score >= answer[j].score)
    && (forall a, b :: a in answer && b in rest ==> a.score >= b.score)
    && |answer| <= n && (rest != [] ==> |answer| == n)
  }

  // ---------------------------------------------------------------- interests

  predicate Matches(name: string, interests: seq<string>) {
    exists interest :: interest in interests &&
      (IncludesIgnoreCase(name, interest) || IncludesIgnoreCase(interest, name))
  }

  /** The sum of the weights of the matching names among `keys`. */
  ghost function MatchSum(weights: map<string, real>, keys: set<string>, interests: seq<string>): real
    requires keys <= weights.Keys
    decreases |keys|
  {
    if keys == {} then 0.0
    else
      var k :| k in keys;
      MatchSum(weights, keys - {k}, interests) + Weight(weights, k, interests)
  }

  function Weight(weights: map<string, real>, k: string, interests: seq<string>): real
    requires k in weights
  {
    if Matches(k, interests) then weights[k] else 0.0
  }

  /** The sum does not depend on the order in which the names are visited. */
  lemma {:induction false} MatchSumStep(weights: map<string, real>, keys: set<string>, interests: seq<string>,
                                        k: string)
    requires keys <= weights.Keys && k in keys
    ensures MatchSum(weights, keys, interests)
         == MatchSum(weights, keys - {k}, interests) + Weight(weights, k, interests)
    decreases |keys|
  {
    var first :| first in keys
      && MatchSum(weights, keys, interests)
      == MatchSum(weights, keys - {first}, interests) + Weight(weights, first, interests);
    if first != k {
      MatchSumStep(weights, keys - {first}, interests, k);
      MatchSumStep(weights, keys - {k}, interests, first);
      assert keys - {first} - {k} == keys - {k} - {first};
    }
  }

  ghost function RelatedMatchScore(r: Topic, interests: seq<string>): real {
    MatchSum(r.relatedTopics, r.relatedTopics.Keys, interests)
  }

  ghost function Multiplier(r: Topic, interests: seq<string>): real {
    if Matches(r.topic, interests) then 2.0 else if RelatedMatchScore(r, interests) > 0.0 then 1.5 else 1.0
  }

  ghost function Personal(r: Topic, interests: seq<string>): real {
    r.score * Multiplier(r, interests)
  }

  /** Without negative weights a topic is lifted by its relations exactly if one of positive weight matches. */
  lemma {:induction false} RelationLiftsIff(weights: map<string, real>, keys: set<string>, interests: seq<string>)
    requires keys <= weights.Keys && forall k :: k in weights ==> weights[k] >= 0.0
    ensures MatchSum(weights, keys, interests) >= 0.0
    ensures MatchSum(weights, keys, interests) > 0.0 <==>
              exists k :: k in keys && Matches(k, interests) && weights[k] > 0.0
    decreases |keys|
  {
    if keys != {} {
      var k :| k in keys;
      MatchSumStep(weights, keys, interests, k);
      RelationLiftsIff(weights, keys - {k}, interests);
      forall e | e in keys && Matches(e, interests) && weights[e] > 0.0
        ensures MatchSum(weights, keys, interests) > 0.0
      {
        assert e == k || e in keys - {k};
      }
    }
  }

  /** One of the interests stands in the name, or the name in it, letter case aside. */
  ghost predicate Touched(name: string, interests: seq<string>) {
    exists interest :: interest in interests && (Occurs(name, interest) || Occurs(interest, name))
  }

  lemma MatchesIff(name: string, interests: seq<string>)
    ensures Matches(name, interests) <==> Touched(name, interests)
  {
    forall interest | interest in interests
      ensures IncludesIgnoreCase(name, interest) <==> Occurs(name, interest)
      ensures IncludesIgnoreCase(interest, name) <==> Occurs(interest, name)
    {
      IncludesIff(name, interest);
      IncludesIff(interest, name);
    }
  }

  /** A related topic of positive weight is touched by the interests. */
  ghost predicate RelatedTouched(r: Topic, interests: seq<string>) {
    exists k :: k in r.relatedTopics && r.relatedTopics[k] > 0.0 && Touched(k, interests)
  }

  /** A topic the interests touch counts twice; one they touch only through a related topic half as much again; any
      other counts once. */
  lemma PersonalMeans(r: Topic, interests: seq<string>)
    requires forall k :: k in r.relatedTopics ==> r.relatedTopics[k] >= 0.0
    ensures Touched(r.topic, interests) ==> Personal(r, interests) == r.score + r.score
    ensures !Touched(r.topic, interests) && RelatedTouched(r, interests) ==>
              2.0 * Personal(r, interests) == 3.0 * r.score
    ensures !Touched(r.topic, interests) && !RelatedTouched(r, interests) ==> Personal(r, interests) == r.score
  {
    MatchesIff(r.topic, interests);
    RelationLiftsIff(r.relatedTopics, r.relatedTopics.Keys, interests);
    forall k | k in r.relatedTopics
      ensures Matches(k, interests) <==> Touched(k, interests)
    {
      MatchesIff(k, interests);
    }
  }

  // ---------------------------------------------------------------- ranking

  /** `rs` is the window re-scored. */
  ghost predicate Rescored(rs: seq<Ranked>, window: seq<Topic>, interests: seq<string>) {
    && |rs| == |window|
    && forall i :: 0 <= i < |rs| ==> rs[i] == Ranked(window[i], Some(Personal(window[i], interests)))
  }

  function Score(r: Ranked): real {
    if r.personalizedScore.Some? then r.personalizedScore.value else 0.0
  }

  /** The answer for some legal window. */
  ghost predicate IsRanking(rows: seq<Topic>, interests: seq<string>, limit: nat, result: seq<Ranked>) {
    exists window, rs ::
      IsTop(rows, window, 3 * limit) && Rescored(rs, window, interests) && result == Best(rs, Score, limit)
  }

  lemma Scale(x: real, m: real)
    requires 0.0 <= x && 1.0 <= m <= 2.0
    ensures x <= x * m <= 2.0 * x
    ensures m == 1.0 ==> x * m == x
  {
  }

  lemma Bounds(r: Topic, interests: seq<string>)
    requires 0.0 <= r.score
    ensures r.score <= Personal(r, interests) <= 2.0 * r.score
    ensures Multiplier(r, interests) == 1.0 ==> Personal(r, interests) == r.score
  {
    Scale(r.score, Multiplier(r, interests));
  }

  /** What every answer guarantees about a topic and a returned topic: `o` was left out of the answer. */
  ghost predicate WithinTwo(o: Topic, x: Ranked, interests: seq<string>) {
    && Personal(o, interests) <= 2.0 * Score(x)
    && (Multiplier(o, interests) == 1.0 ==> Personal(o, interests) <= Score(x))
  }

  /** A row outside the window against a row inside it. */
  lemma OutsideWindow(o: Topic, r: Topic, interests: seq<string>)
    requires 0.0 <= o.score <= r.score
    ensures WithinTwo(o, Ranked(r, Some(Personal(r, interests))), interests)
  {
    Bounds(o, interests);
    Bounds(r, interests);
  }

  lemma RescoredMember(rs: seq<Ranked>, window: seq<Topic>, interests: seq<string>, x: Ranked)
    requires Rescored(rs, window, interests) && x in rs
    ensures x.topic in window && x == Ranked(x.topic, Some(Personal(x.topic, interests)))
  {
  }

  /** A row of the window that is not returned. */
  lemma InsideWindow(o: Topic, x: Ranked, window: seq<Topic>, rs: seq<Ranked>, interests: seq<string>, limit: nat)
    requires Rescored(rs, window, interests) && o in window && 0.0 <= o.score
    requires Ranked(o, Some(Personal(o, interests))) !in Best(rs, Score, limit) && x in Best(rs, Score, limit)
    ensures Personal(o, interests) <= Score(x) && WithinTwo(o, x, interests)
  {
    var p := Ranked(o, Some(Personal(o, interests)));
    var i :| 0 <= i < |window| && window[i] == o;
    assert rs[i] == p;
    NotReturned(rs, p, x, limit);
    Bounds(o, interests);
  }

  lemma NotReturned(rs: seq<Ranked>, p: Ranked, x: Ranked, limit: nat)
    requires p in rs && p !in Best(rs, Score, limit) && x in Best(rs, Score, limit)
    ensures Score(p) <= Score(x)
  {
    BestOrBeyond(rs, Score, limit, p);
    BestFacts(rs, Score, limit);
  }

  lemma ReturnedFromWindow(x: Ranked, window: seq<Topic>, rs: seq<Ranked>, interests: seq<string>, limit: nat)
    requires Rescored(rs, window, interests) && x in Best(rs, Score, limit)
    ensures x.topic in window && x == Ranked(x.topic, Some(Personal(x.topic, interests)))
  {
    BestOrBeyond(rs, Score, limit, x);
    RescoredMember(rs, window, interests, x);
  }

  lemma CutMember(rows: seq<Topic>, window: seq<Topic>, rest: seq<Topic>, n: nat, r: Topic)
    requires IsCut(rows, window, rest, n)
    ensures r in rows <==> r in window || r in rest
  {
    assert r in multiset(rows) <==> r in multiset(window) || r in multiset(rest);
  }

  /** Every returned topic is a row of the window under its own personalised score, and the answer is sorted by it. */
  lemma RankingSound(rows: seq<Topic>, window: seq<Topic>, rs: seq<Ranked>, interests: seq<string>, limit: nat)
    requires IsTop(rows, window, 3 * limit) && Rescored(rs, window, interests)
    ensures forall x :: x in Best(rs, Score, limit) ==>
              x.topic in window && x.topic in rows && x.personalizedScore == Some(Personal(x.topic, interests))
    ensures Sorted(Best(rs, Score, limit), ByScore(Score))
  {
    var rest :| IsCut(rows, window, rest, 3 * limit);
    BestFacts(rs, Score, limit);
    forall x | x in Best(rs, Score, limit)
      ensures x.topic in window && x.topic in rows && x.personalizedScore == Some(Personal(x.topic, interests))
    {
      ReturnedFromWindow(x, window, rs, interests, limit);
      CutMember(rows, window, rest, 3 * limit, x.topic);
    }
  }

  /** A row that is not returned is beaten by every returned topic: a row of the window by at least an equal
      score, any other row by at least half its score, and by an equal one if no interest matches it. */
  lemma TwoApproximation(rows: seq<Topic>, window: seq<Topic>, rs: seq<Ranked>, interests: seq<string>, limit: nat,
                         o: Topic, x: Ranked)
    requires forall r :: r in rows ==> r.score >= 0.0
    requires IsTop(rows, window, 3 * limit) && Rescored(rs, window, interests)
    requires o in rows && Ranked(o, Some(Personal(o, interests))) !in Best(rs, Score, limit)
    requires x in Best(rs, Score, limit)
    ensures WithinTwo(o, x, interests)
    ensures o in window ==> Personal(o, interests) <= Score(x)
  {
    var rest :| IsCut(rows, window, rest, 3 * limit);
    CutMember(rows, window, rest, 3 * limit, o);
    if o in window {
      InsideWindow(o, x, window, rs, interests, limit);
    } else {
      ReturnedFromWindow(x, window, rs, interests, limit);
      OutsideWindow(o, x.topic, interests);
    }
  }

  /** How many topics come back. */
  lemma RankingLength(rows: seq<Topic>, window: seq<Topic>, rs: seq<Ranked>, interests: seq<string>, limit: nat)
    requires IsTop(rows, window, 3 * limit) && Rescored(rs, window, interests)
    ensures |Best(rs, Score, limit)| == if |rows| < limit then |rows| else limit
  {
    var rest :| IsCut(rows, window, rest, 3 * limit);
    assert |multiset(window)| + |multiset(rest)| == |multiset(rows)|;
    if rest != [] {
      assert |window| == 3 * limit;
    }
  }

  // ---------------------------------------------------------------- the factor two is reached

  function Named(name: char): Topic {
    Topic([name], 1.0, 3, 0, map[], [], 0)
  }

  lemma PersonalOfNamed(name: char)
    ensures Personal(Named(name), ["d"]) == if Lower(name) == 'd' then 2.0 else 1.0
  {
    OneLetter(name, 'd');
    var interests := ["d"];
    assert interests[0] == "d" && forall i :: i in interests ==> i == "d";
    assert Matches([name], interests) <==> Lower(name) == 'd';
    assert RelatedMatchScore(Named(name), interests) == 0.0;
  }

  /** Four rows of equal score, of which the one that matches the interest may stand outside the window of
      three: the user gets a topic of personalised score 1 and misses one of 2. */
  lemma TwoIsReached()
    ensures IsTop([Named('a'), Named('b'), Named('c'), Named('d')], [Named('a'), Named('b'), Named('c')], 3 * 1)
    ensures Personal(Named('a'), ["d"]) == Personal(Named('b'), ["d"]) == Personal(Named('c'), ["d"]) == 1.0
    ensures Personal(Named('d'), ["d"]) == 2.0
  {
    EqualScores([Named('a'), Named('b'), Named('c')], Named('d'));
    assert [Named('a'), Named('b'), Named('c'), Named('d')] == [Named('a'), Named('b'), Named('c')] + [Named('d')];
    PersonalOfNamed('a');
    PersonalOfNamed('b');
    PersonalOfNamed('c');
    PersonalOfNamed('d');
  }

  /** Of rows of one score any that are left out may be left out. */
  lemma EqualScores(window: seq<Topic>, o: Topic)
    requires forall r :: r in window ==> r.score == o.score
    ensures IsTop(window + [o], window, |window|)
  {
    assert IsCut(window + [o], window, [o], |window|);
  }

  lemma OneLetter(a: char, b: char)
    ensures IncludesIgnoreCase([a], [b]) <==> Lower(a) == Lower(b)
    ensures IncludesIgnoreCase([b], [a]) <==> Lower(a) == Lower(b)
  {
    assert [a][..1] == [a] && [b][..1] == [b] && [a][1..] == [] && [b][1..] == [];
    assert EqualsIgnoreCase([a], [b]) <==> Lower([a][0]) == Lower([b][0]);
    assert EqualsIgnoreCase([b], [a]) <==> Lower([b][0]) == Lower([a][0]);
  }

  // ---------------------------------------------------------------- the service

  class TrendingReader {
    var topics: seq<Topic>

    /** Runs ORDER BY score DESC LIMIT n against the table; only the ensures is known to callers. */
    method RunQuery(n: nat) returns (answer: seq<Topic>)
      ensures IsTop(topics, answer, n)
    {
      answer := Best(topics, (r: Topic) => r.score, n);
      ghost var score := (r: Topic) => r.score;
      ghost var rest := Beyond(topics, score, n);
      BestFacts(topics, score, n);
      assert forall i, j :: 0 <= i < j < |answer| ==> !ByScore(score)(answer[j], answer[i]);
      assert forall a, b :: a in answer && b in rest ==> score(a) >= score(b);
      assert IsCut(topics, answer, rest, n);
    }

    method GetTrendingTopics(limit: nat) returns (r: seq<Topic>)
      ensures IsTop(topics, r, limit)
    {
      r := RunQuery(limit);
    }

    /** One interest after another, as `some` does. */
    method IsMatch(name: string, interests: seq<string>) returns (m: bool)
      ensures m == Matches(name, interests)
    {
      for i := 0 to |interests|
        invariant !Matches(name, interests[..i])
      {
        if IncludesIgnoreCase(name, interests[i]) || IncludesIgnoreCase(interests[i], name) {
          return true;
        }
        assert interests[..i + 1] == interests[..i] + [interests[i]];
      }
      assert interests[..|interests|] == interests;
      return false;
    }

    /** The keys are visited in an arbitrary order. */
    method SumRelated(weights: map<string, real>, interests: seq<string>) returns (score: real)
      ensures score == MatchSum(weights, weights.Keys, interests)
    {
      score := 0.0;
      var keys := weights.Keys;
      while keys != {}
        invariant keys <= weights.Keys
        invariant score + MatchSum(weights, keys, interests) == MatchSum(weights, weights.Keys, interests)
        decreases |keys|
      {
        var related :| related in keys;
        MatchSumStep(weights, keys, interests, related);
        var matched := IsMatch(related, interests);
        if matched {
          score := score + weights[related];
        }
        keys := keys - {related};
      }
    }

    method GetPersonalizedTrendingTopics(interests: seq<string>, limit: nat) returns (result: seq<Ranked>)
      ensures interests == [] ==> exists r :: IsTop(topics, r, limit) && result == Map(r, (t: Topic) => Ranked(t, None))
      ensures interests != [] ==> IsRanking(topics, interests, limit, result)
    {
      if |interests| == 0 {
        var general := GetTrendingTopics(limit);
        result := Map(general, (t: Topic) => Ranked(t, None));
        return;
      }
      var allTrending := RunQuery(limit * 3);
      var scoredTopics := ScoreTopics(allTrending, interests);
      result := Best(scoredTopics, Score, limit);
    }

    /** Every row of the window with its personalised score. */
    method ScoreTopics(window: seq<Topic>, interests: seq<string>) returns (scored: seq<Ranked>)
      ensures Rescored(scored, window, interests)
    {
      scored := [];
      for i := 0 to |window|
        invariant Rescored(scored, window[..i], interests)
      {
        var row := window[i];
        var direct := IsMatch(row.topic, interests);
        var related := SumRelated(row.relatedTopics, interests);
        var multiplier := if direct then 2.0 else if related > 0.0 then 1.5 else 1.0;
        scored := scored + [Ranked(row, Some(row.score * multiplier))];
        assert window[..i + 1] == window[..i] + [row];
      }
      assert window[..|window|] == window;
    }
  }
}
