/** The table of trending topics over any number of calculations: decay every row, absorb what was counted,
    delete what is old. Every loop over the entries of a record runs in an arbitrary order. */
module TrendingStore {
  import opened Sequences
  import opened TopicExtraction

  /** Seven days in milliseconds. */
  const WEEK: int := 7 * 24 * 60 * 60 * 1000

  datatype Topic = Topic(
    topic: string, score: real, mentionCount: nat, engagementCount: nat,
    relatedTopics: map<string, real>, relevantHashtags: seq<string>, updatedAt: int)

  // ---------------------------------------------------------------- the table

  /** The first row of the topic, or the length of the table. */
  function Find(rows: seq<Topic>, t: string): (i: nat)
    ensures i <= |rows|
    ensures i < |rows| ==> rows[i].topic == t
    ensures forall j :: 0 <= j < i ==> rows[j].topic != t
  {
    if rows == [] then 0 else if rows[0].topic == t then 0 else 1 + Find(rows[1..], t)
  }

  function Lookup(rows: seq<Topic>, t: string): Option<Topic> {
    var i := Find(rows, t);
    if i < |rows| then Some(rows[i]) else None
  }

  /** The unique index on the topic column. */
  ghost predicate UniqueTopics(rows: seq<Topic>) {
    forall i, j :: 0 <= i < j < |rows| ==> rows[i].topic != rows[j].topic
  }

  lemma LookupAt(rows: seq<Topic>, i: nat)
    requires UniqueTopics(rows) && i < |rows|
    ensures Find(rows, rows[i].topic) == i
  {
    var k := Find(rows, rows[i].topic);
    assert k <= i && rows[k].topic == rows[i].topic;
  }

  lemma LookupIff(rows: seq<Topic>, t: string, r: Topic)
    requires UniqueTopics(rows)
    ensures Lookup(rows, t) == Some(r) <==> r in rows && r.topic == t
  {
    if r in rows && r.topic == t {
      var i :| 0 <= i < |rows| && rows[i] == r;
      LookupAt(rows, i);
    }
  }

  lemma LookupSaved(rows: seq<Topic>, i: nat, r: Topic, t: string)
    requires UniqueTopics(rows) && i < |rows| && r.topic == rows[i].topic
    ensures UniqueTopics(rows[i := r])
    ensures Lookup(rows[i := r], t) == if t == r.topic then Some(r) else Lookup(rows, t)
  {
    var saved := rows[i := r];
    if t == r.topic {
      LookupAt(saved, i);
    } else if Lookup(rows, t).Some? {
      var k := Find(rows, t);
      assert saved[k] == rows[k];
      LookupAt(saved, k);
    } else {
      assert forall j :: 0 <= j < |saved| ==> saved[j].topic == rows[j].topic;
    }
  }

  lemma LookupCreated(rows: seq<Topic>, r: Topic, t: string)
    requires UniqueTopics(rows) && Lookup(rows, r.topic) == None
    ensures UniqueTopics(rows + [r])
    ensures Lookup(rows + [r], t) == if t == r.topic then Some(r) else Lookup(rows, t)
  {
    var all := rows + [r];
    if t == r.topic {
      assert all[|rows|] == r;
      LookupAt(all, |rows|);
    } else if Lookup(rows, t).Some? {
      var k := Find(rows, t);
      assert all[k] == rows[k];
      LookupAt(all, k);
    }
  }

  lemma LookupFiltered(rows: seq<Topic>, keep: Topic -> bool, t: string)
    requires UniqueTopics(rows)
    ensures UniqueTopics(Filter(rows, keep))
    ensures Lookup(Filter(rows, keep), t)
         == if Lookup(rows, t).Some? && keep(Lookup(rows, t).value) then Lookup(rows, t) else None
  {
    var kept := Filter(rows, keep);
    var topicOf := (r: Topic) => r.topic;
    assert DistinctBy(rows, topicOf);
    DistinctFilter(rows, topicOf, keep);
    assert forall i :: 0 <= i < |kept| ==> topicOf(kept[i]) == kept[i].topic;
    FilterMembers(rows, keep);
    if Lookup(kept, t).Some? {
      LookupIff(rows, t, Lookup(kept, t).value);
    } else if Lookup(rows, t).Some? && keep(Lookup(rows, t).value) {
      LookupIff(kept, t, Lookup(rows, t).value);
    }
  }

  // ---------------------------------------------------------------- one calculation, one topic

  /** Topics with fewer than three mentions are skipped. */
  function Counted(m: Mentions, t: string): Option<TopicData> {
    if t in m && m[t].mentionCount >= 3 then Some(m[t]) else None
  }

  /** A save that changes nothing writes nothing, so a row at zero keeps its date. */
  function Decayed(r: Topic, now: int): Topic {
    if r.score == 0.0 then r else r.(score := r.score * 0.75, updatedAt := now)
  }

  function Added(a: map<string, real>, b: map<string, real>): map<string, real> {
    map u | u in a.Keys + b.Keys :: Val(a, u) + Val(b, u)
  }

  /** `Array.from(new Set(s))`: first occurrences, in order. */
  function Distinct(s: seq<string>): (d: seq<string>)
    ensures NoDuplicates(d)
    ensures forall x :: x in d <==> x in s
  {
    if s == [] then []
    else
      var d := Distinct(s[..|s| - 1]);
      assert s == s[..|s| - 1] + [s[|s| - 1]];
      if s[|s| - 1] in d then d else d + [s[|s| - 1]]
  }

  function Merged(r: Topic, d: TopicData, now: int): Topic {
    Topic(r.topic, r.score + d.score, r.mentionCount + d.mentionCount, r.engagementCount + d.engagementCount,
          Added(r.relatedTopics, d.relatedTopics), Distinct(r.relevantHashtags + d.relevantHashtags), now)
  }

  function Created(t: string, d: TopicData, now: int): Topic {
    Topic(t, d.score, d.mentionCount, d.engagementCount, d.relatedTopics, d.relevantHashtags, now)
  }

  function Absorbed(row: Option<Topic>, t: string, d: Option<TopicData>, now: int): Option<Topic> {
    if d.None? then row
    else if row.Some? then Some(Merged(row.value, d.value, now))
    else Some(Created(t, d.value, now))
  }

  predicate Expired(r: Topic, now: int) {
    r.score < 0.5 && r.updatedAt < now - WEEK
  }

  function AfterDecay(row: Option<Topic>, now: int): Option<Topic> {
    if row.Some? then Some(Decayed(row.value, now)) else None
  }

  /** What one calculation makes of the row of one topic. */
  function Next(row: Option<Topic>, t: string, d: Option<TopicData>, now: int): Option<Topic> {
    var r := Absorbed(AfterDecay(row, now), t, d, now);
    if r.Some? && Expired(r.value, now) then None else r
  }

  /** The columns of a row that a calculation counted: three quarters of the old score and all of the other numbers,
      with what was counted added, dated now. */
  ghost predicate CountedRow(row: Option<Topic>, r: Topic, t: string, d: TopicData, now: int) {
    && r.topic == t && r.updatedAt == now
    && 4.0 * r.score == (if row.None? then 0.0 else 3.0 * row.value.score) + 4.0 * d.score
    && r.mentionCount == (if row.None? then 0 else row.value.mentionCount) + d.mentionCount
    && r.engagementCount == (if row.None? then 0 else row.value.engagementCount) + d.engagementCount
    && (forall u :: Val(r.relatedTopics, u)
                 == (if row.None? then 0.0 else Val(row.value.relatedTopics, u)) + Val(d.relatedTopics, u))
    && (forall h :: h in r.relevantHashtags <==>
          (row.Some? && h in row.value.relevantHashtags) || h in d.relevantHashtags)
  }

  /** A row that was not counted: at zero it stays, until it is a week old, and any other fades by a quarter. */
  ghost predicate UncountedRow(row: Topic, after: Option<Topic>, now: int) {
    if row.score == 0.0 then
      after == if now - row.updatedAt > 604_800_000 then None else Some(row)
    else
      && after.Some? && 4.0 * after.value.score == 3.0 * row.score
      && after.value == row.(score := after.value.score, updatedAt := now)
  }

  /** What one calculation leaves of a topic's row: only three mentions or more count. */
  ghost predicate RowAfter(row: Option<Topic>, after: Option<Topic>, t: string, m: Mentions, now: int) {
    if t in m && m[t].mentionCount > 2 then after.Some? && CountedRow(row, after.value, t, m[t], now)
    else if row.None? then after.None?
    else UncountedRow(row.value, after, now)
  }

  lemma NextMeans(row: Option<Topic>, t: string, m: Mentions, now: int)
    requires row.Some? ==> row.value.topic == t
    ensures RowAfter(row, Next(row, t, Counted(m, t), now), t, m, now)
  {
    if Counted(m, t).Some? && row.Some? {
      var decayed := Decayed(row.value, now);
      var merged := Merged(decayed, m[t], now);
      forall u
        ensures Val(merged.relatedTopics, u) == Val(row.value.relatedTopics, u) + Val(m[t].relatedTopics, u)
      {
      }
    }
  }

  /** One calculation turns the table `before` into the table `after`: each topic by itself. */
  ghost predicate Calculated(before: seq<Topic>, after: seq<Topic>, m: Mentions, now: int) {
    && UniqueTopics(after)
    && forall t :: Lookup(after, t) == Next(Lookup(before, t), t, Counted(m, t), now)
  }

  lemma SameMap(m: map<string, real>, n: map<string, real>)
    requires forall u :: u in m <==> u in n
    requires forall u :: Val(m, u) == Val(n, u)
    ensures m == n
  {
    forall u | u in m
      ensures m[u] == n[u]
    {
      assert Val(m, u) == Val(n, u);
    }
  }

  /** `r` is `a` with the weights of `b` added, but for those under the keys still to come. */
  ghost predicate Merging(r: map<string, real>, a: map<string, real>, b: map<string, real>, keys: set<string>) {
    forall u :: (u in r <==> u in a || (u in b && u !in keys))
             && Val(r, u) == Val(a, u) + if u in keys then 0.0 else Val(b, u)
  }

  lemma MergeStep(r: map<string, real>, a: map<string, real>, b: map<string, real>, keys: set<string>, k: string)
    requires Merging(r, a, b, keys) && k in keys && k in b
    ensures Merging(r[k := Val(r, k) + b[k]], a, b, keys - {k})
  {
  }

  method MergeRelated(a: map<string, real>, b: map<string, real>) returns (r: map<string, real>)
    ensures r == Added(a, b)
  {
    r := a;
    var keys := b.Keys;
    while keys != {}
      invariant keys <= b.Keys
      invariant Merging(r, a, b, keys)
      decreases |keys|
    {
      var related :| related in keys;
      MergeStep(r, a, b, keys, related);
      r := r[related := Val(r, related) + b[related]];
      keys := keys - {related};
    }
    SameMap(r, Added(a, b));
  }

  class TrendingService {
    var topics: seq<Topic>

    constructor ()
      ensures topics == []
    {
      topics := [];
    }

    /** Loads all rows, multiplies each score by 0.75 and saves the row. */
    method DecayExistingTrendingTopics(now: int)
      requires UniqueTopics(topics)
      modifies this
      ensures UniqueTopics(topics)
      ensures forall t :: Lookup(topics, t) == AfterDecay(old(Lookup(topics, t)), now)
    {
      ghost var was := topics;
      var i := 0;
      while i < |topics|
        invariant i <= |topics| == |was|
        invariant forall j :: 0 <= j < i ==> topics[j] == Decayed(was[j], now)
        invariant forall j :: i <= j < |was| ==> topics[j] == was[j]
      {
        var score := topics[i].score * 0.75;
        if score != topics[i].score {
          topics := topics[i := topics[i].(score := score, updatedAt := now)];
        }
        i := i + 1;
      }
      forall t
        ensures Lookup(topics, t) == AfterDecay(Lookup(was, t), now)
      {
        assert forall j :: 0 <= j < |was| ==> topics[j].topic == was[j].topic;
        if Lookup(was, t).Some? {
          LookupAt(topics, Find(was, t));
        }
      }
    }

    /** Adds the counts of one topic to its row, or makes the row. */
    method Absorb(t: string, data: TopicData, now: int)
      requires UniqueTopics(topics)
      modifies this
      ensures UniqueTopics(topics)
      ensures forall u :: Lookup(topics, u)
                       == if u == t then Absorbed(old(Lookup(topics, t)), t, Some(data), now)
                          else old(Lookup(topics, u))
    {
      ghost var was := topics;
      var i := Find(topics, t);
      if i < |topics| {
        var row := topics[i];
        var related := MergeRelated(row.relatedTopics, data.relatedTopics);
        var saved := Topic(row.topic, row.score + data.score, row.mentionCount + data.mentionCount,
                           row.engagementCount + data.engagementCount, related,
                           Distinct(row.relevantHashtags + data.relevantHashtags), now);
        topics := topics[i := saved];
        forall u
          ensures UniqueTopics(topics)
          ensures Lookup(topics, u) == if u == t then Some(saved) else Lookup(was, u)
        {
          LookupSaved(was, i, saved, u);
        }
      } else {
        var row := Topic(t, data.score, data.mentionCount, data.engagementCount, data.relatedTopics,
                         data.relevantHashtags, now);
        topics := topics + [row];
        forall u
          ensures UniqueTopics(topics)
          ensures Lookup(topics, u) == if u == t then Some(row) else Lookup(was, u)
        {
          LookupCreated(was, row, u);
        }
      }
    }

    method PerformTrendingCalculation(mentions: Mentions, now: int)
      requires UniqueTopics(topics)
      modifies this
      ensures Calculated(old(topics), topics, mentions, now)
      ensures forall t :: RowAfter(old(Lookup(topics, t)), Lookup(topics, t), t, mentions, now)
    {
      ghost var was := topics;
      DecayExistingTrendingTopics(now);
      AbsorbAll(mentions, now);
      DeleteExpired(now);
      forall t
        ensures RowAfter(Lookup(was, t), Lookup(topics, t), t, mentions, now)
      {
        NextMeans(Lookup(was, t), t, mentions, now);
      }
    }

    method AbsorbAll(mentions: Mentions, now: int)
      requires UniqueTopics(topics)
      modifies this
      ensures UniqueTopics(topics)
      ensures forall t :: Lookup(topics, t) == Absorbed(old(Lookup(topics, t)), t, Counted(mentions, t), now)
    {
      ghost var was := topics;
      var keys := mentions.Keys;
      while keys != {}
        invariant keys <= mentions.Keys
        invariant UniqueTopics(topics)
        invariant forall t :: Lookup(topics, t)
                           == if t in keys then Lookup(was, t)
                              else Absorbed(Lookup(was, t), t, Counted(mentions, t), now)
        decreases |keys|
      {
        var topic :| topic in keys;
        keys := keys - {topic};
        if mentions[topic].mentionCount < 3 {
          continue;
        }
        Absorb(topic, mentions[topic], now);
      }
    }

    method DeleteExpired(now: int)
      requires UniqueTopics(topics)
      modifies this
      ensures UniqueTopics(topics)
      ensures forall t :: Lookup(topics, t)
                       == if old(Lookup(topics, t)).Some? && Expired(old(Lookup(topics, t)).value, now) then None
                          else old(Lookup(topics, t))
    {
      ghost var was := topics;
      var keep := (r: Topic) => !(r.score < 0.5 && r.updatedAt < now - WEEK);
      topics := Filter(topics, keep);
      forall t
        ensures UniqueTopics(topics)
        ensures Lookup(topics, t) == if Lookup(was, t).Some? && keep(Lookup(was, t).value) then Lookup(was, t) else None
      {
        LookupFiltered(was, keep, t);
      }
      LookupFiltered(was, keep, "");
    }
  }

  // ---------------------------------------------------------------- any number of calculations

  datatype Calculation = Calculation(mentions: Mentions, now: int)

  /** The row of `t` after the calculations, starting from an empty table. */
  function After(runs: seq<Calculation>, t: string): Option<Topic> {
    if runs == [] then None
    else
      var c := runs[|runs| - 1];
      Next(After(runs[..|runs| - 1], t), t, Counted(c.mentions, t), c.now)
  }

  /** A history of the table: `tables[i]` becomes `tables[i + 1]` by calculation i. */
  ghost predicate History(tables: seq<seq<Topic>>, runs: seq<Calculation>) {
    && |tables| == |runs| + 1 && tables[0] == []
    && forall i, j :: 0 <= i < |runs| && j == i + 1 ==> Calculated(tables[i], tables[j], runs[i].mentions, runs[i].now)
  }

  /** The service's table is described, topic by topic, by After. */
  lemma {:induction false} TableIsAfter(tables: seq<seq<Topic>>, runs: seq<Calculation>, t: string)
    requires History(tables, runs)
    ensures UniqueTopics(tables[|runs|])
    ensures Lookup(tables[|runs|], t) == After(runs, t)
  {
    if runs != [] {
      var n := |runs| - 1;
      TableIsAfter(tables[..n + 1], runs[..n], t);
      assert Calculated(tables[n], tables[n + 1], runs[n].mentions, runs[n].now);
    }
  }

  function Data(c: Calculation, t: string): TopicData {
    var d := Counted(c.mentions, t);
    if d.Some? then d.value else Empty
  }

  /** What a calculation adds to the score of a topic. */
  function Gain(c: Calculation, t: string): real {
    Data(c, t).score
  }

  function ScoreOf(row: Option<Topic>): real {
    if row.Some? then row.value.score else 0.0
  }

  /** x times 0.75 to the power n. */
  function Faded(x: real, n: nat): real {
    if n == 0 then x else 0.75 * Faded(x, n - 1)
  }

  /** The gains of the runs from b on, each faded once for every later run. */
  function Discounted(runs: seq<Calculation>, t: string, b: nat): real
    requires b <= |runs|
    decreases |runs| - b
  {
    if b == |runs| then 0.0 else Faded(Gain(runs[b], t), |runs| - 1 - b) + Discounted(runs, t, b + 1)
  }

  lemma {:induction false} DiscountedSnoc(runs: seq<Calculation>, c: Calculation, t: string, b: nat)
    requires b <= |runs|
    ensures Discounted(runs + [c], t, b) == 0.75 * Discounted(runs, t, b) + Gain(c, t)
    decreases |runs| - b
  {
    var all := runs + [c];
    assert all[|runs|] == c;
    if b == |runs| {
      assert Discounted(all, t, b + 1) == 0.0;
    } else {
      DiscountedSnoc(runs, c, t, b + 1);
      assert all[b] == runs[b];
      assert Faded(Gain(all[b], t), |all| - 1 - b) == 0.75 * Faded(Gain(runs[b], t), |runs| - 1 - b);
    }
  }

  /** A row that a calculation has saved is not old, so only a row at zero is ever deleted. */
  lemma NextScore(row: Option<Topic>, t: string, d: Option<TopicData>, now: int)
    ensures ScoreOf(Next(row, t, d, now)) == 0.75 * ScoreOf(row) + if d.Some? then d.value.score else 0.0
  {
  }

  /** The closed form, over every run: deletions do not show in it, because only rows at zero are deleted. */
  lemma {:induction false} ClosedForm(runs: seq<Calculation>, t: string)
    ensures ScoreOf(After(runs, t)) == Discounted(runs, t, 0)
  {
    if runs != [] {
      var init, c := runs[..|runs| - 1], runs[|runs| - 1];
      assert runs == init + [c];
      ClosedForm(init, t);
      DiscountedSnoc(init, c, t, 0);
      NextScore(After(init, t), t, Counted(c.mentions, t), c.now);
    }
  }

  /** Runs that add at most M each never lift a score above 4M, however many there are. */
  lemma {:induction false} ScoreBound(runs: seq<Calculation>, t: string, most: real)
    requires forall c :: c in runs ==> 0.0 <= Gain(c, t) <= most
    ensures 0.0 <= ScoreOf(After(runs, t))
    ensures runs != [] ==> ScoreOf(After(runs, t)) <= 4.0 * most
  {
    if runs != [] {
      var init, c := runs[..|runs| - 1], runs[|runs| - 1];
      assert c in runs;
      ScoreBound(init, t, most);
      NextScore(After(init, t), t, Counted(c.mentions, t), c.now);
    }
  }

  /** The bound is approached: under a constant gain d the distance to 4d shrinks by a quarter in every run. */
  lemma {:induction false} SteadyScore(runs: seq<Calculation>, t: string, d: real)
    requires forall c :: c in runs ==> Gain(c, t) == d
    ensures 4.0 * d - ScoreOf(After(runs, t)) == 4.0 * Faded(d, |runs|)
  {
    if runs != [] {
      var init, c := runs[..|runs| - 1], runs[|runs| - 1];
      assert c in runs;
      SteadyScore(init, t, d);
      NextScore(After(init, t), t, Counted(c.mentions, t), c.now);
    }
  }

  // ---------------------------------------------------------------- deletion

  /** Exactly when a calculation deletes a row. The threshold of 0.5 plays no part: any other score is
      changed by the decay, and the change dates the row now. */
  lemma DeletedIff(row: Topic, t: string, d: Option<TopicData>, now: int)
    ensures Next(Some(row), t, d, now) == None <==> d == None && row.score == 0.0 && row.updatedAt < now - WEEK
  {
  }

  /** A topic nobody mentions any more stays for any number of calculations, at any spacing, however far its score
      falls: each run only fades and re-dates it. */
  lemma {:induction false} FadedTopicStays(runs: seq<Calculation>, idle: seq<Calculation>, t: string)
    requires After(runs, t).Some? && After(runs, t).value.score != 0.0
    requires forall c :: c in idle ==> Counted(c.mentions, t) == None
    ensures After(runs + idle, t).Some?
    ensures var row, later := After(runs, t).value, After(runs + idle, t).value;
            && later.score == Faded(row.score, |idle|) != 0.0
            && later == row.(score := later.score,
                             updatedAt := if idle == [] then row.updatedAt else idle[|idle| - 1].now)
  {
    if idle == [] {
      assert runs + idle == runs;
    } else {
      var init, c := idle[..|idle| - 1], idle[|idle| - 1];
      assert c in idle;
      FadedTopicStays(runs, init, t);
      assert (runs + idle)[..|runs + idle| - 1] == runs + init;
    }
  }

  lemma {:induction false} FadedShift(x: real, n: nat)
    ensures Faded(0.75 * x, n) == Faded(x, n + 1)
  {
    if n > 0 {
      FadedShift(x, n - 1);
    }
  }

  /** Every score falls below the threshold after finitely many idle calculations. */
  lemma {:induction false} FallsBelowThreshold(x: real) returns (n: nat)
    ensures Faded(x, n) < 0.5
    decreases if x < 0.5 then 0 else (8.0 * x).Floor
  {
    if x < 0.5 {
      n := 0;
    } else {
      var m := FallsBelowThreshold(0.75 * x);
      FadedShift(x, m);
      n := m + 1;
    }
  }

  /** With positive gains, which is what extraction yields, a row once made stays. */
  lemma {:induction false} NeverDeleted(runs: seq<Calculation>, t: string)
    requires forall c :: c in runs && Counted(c.mentions, t).Some? ==> Gain(c, t) > 0.0
    ensures After(runs, t).Some? <==> exists c :: c in runs && Counted(c.mentions, t).Some?
    ensures After(runs, t).Some? ==> After(runs, t).value.score > 0.0
  {
    if runs != [] {
      var init, c := runs[..|runs| - 1], runs[|runs| - 1];
      assert runs == init + [c];
      assert c in runs;
      NeverDeleted(init, t);
      NextScore(After(init, t), t, Counted(c.mentions, t), c.now);
      if After(init, t).Some? {
        DeletedIff(After(init, t).value, t, Counted(c.mentions, t), c.now);
        var e :| e in init && Counted(e.mentions, t).Some?;
        assert e in runs;
      }
    }
  }

  // ---------------------------------------------------------------- the other columns

  function MentionTotal(runs: seq<Calculation>, t: string): nat {
    if runs == [] then 0 else MentionTotal(runs[..|runs| - 1], t) + Data(runs[|runs| - 1], t).mentionCount
  }

  function EngagementTotal(runs: seq<Calculation>, t: string): nat {
    if runs == [] then 0 else EngagementTotal(runs[..|runs| - 1], t) + Data(runs[|runs| - 1], t).engagementCount
  }

  function RelatedTotal(runs: seq<Calculation>, t: string, u: string): real {
    if runs == [] then 0.0
    else RelatedTotal(runs[..|runs| - 1], t, u) + Val(Data(runs[|runs| - 1], t).relatedTopics, u)
  }

  /** The undecayed columns of a row are the sums, and the hashtags the union, over the runs that counted. */
  ghost predicate Sums(r: Topic, runs: seq<Calculation>, t: string) {
    && r.topic == t
    && r.mentionCount == MentionTotal(runs, t)
    && r.engagementCount == EngagementTotal(runs, t)
    && (forall u :: Val(r.relatedTopics, u) == RelatedTotal(runs, t, u))
    && (forall h :: h in r.relevantHashtags <==> exists c :: c in runs && h in Data(c, t).relevantHashtags)
  }

  /** One more calculation that leaves the row in place. */
  lemma SumsStep(r: Topic, runs: seq<Calculation>, c: Calculation, t: string)
    requires Sums(r, runs, t)
    requires Next(Some(r), t, Counted(c.mentions, t), c.now).Some?
    ensures Sums(Next(Some(r), t, Counted(c.mentions, t), c.now).value, runs + [c], t)
  {
    var all := runs + [c];
    assert all[..|runs|] == runs && all[|runs|] == c;
    var d, s := Data(c, t), Next(Some(r), t, Counted(c.mentions, t), c.now).value;
    forall h
      ensures h in s.relevantHashtags <==> exists e :: e in all && h in Data(e, t).relevantHashtags
    {
      assert h in s.relevantHashtags <==> h in r.relevantHashtags || h in d.relevantHashtags;
      if h in r.relevantHashtags {
        var e :| e in runs && h in Data(e, t).relevantHashtags;
        assert e in all;
      }
      assert c in all;
    }
  }

  /** The calculation that makes the row. */
  lemma SumsStart(runs: seq<Calculation>, c: Calculation, t: string)
    requires forall e :: e in runs ==> Counted(e.mentions, t) == None
    requires Counted(c.mentions, t).Some?
    ensures Sums(Created(t, Data(c, t), c.now), runs + [c], t)
  {
    var all := runs + [c];
    assert all[..|runs|] == runs && all[|runs|] == c;
    NothingCounted(runs, t);
    assert c in all;
  }

  lemma {:induction false} NothingCounted(runs: seq<Calculation>, t: string)
    requires forall e :: e in runs ==> Counted(e.mentions, t) == None
    ensures MentionTotal(runs, t) == 0 && EngagementTotal(runs, t) == 0
    ensures forall u :: RelatedTotal(runs, t, u) == 0.0
  {
    if runs != [] {
      assert runs[|runs| - 1] in runs;
      NothingCounted(runs[..|runs| - 1], t);
    }
  }

  /** How many runs there were when the topic last had no row. */
  function Born(runs: seq<Calculation>, t: string): (b: nat)
    ensures b <= |runs|
    ensures After(runs[..b], t) == None
    ensures forall k :: b < k <= |runs| ==> After(runs[..k], t).Some?
  {
    if After(runs, t) == None then
      assert runs[..|runs|] == runs;
      |runs|
    else
      var init := runs[..|runs| - 1];
      var b := Born(init, t);
      assert forall k :: 0 <= k <= |init| ==> runs[..k] == init[..k];
      assert runs[..|runs|] == runs;
      b
  }

  /** Since its row was made, by a run that counted it, a topic's columns hold the sums of the runs that counted it. */
  lemma {:induction false} LifeSums(runs: seq<Calculation>, t: string)
    requires After(runs, t).Some?
    ensures Born(runs, t) < |runs| && Counted(runs[Born(runs, t)].mentions, t).Some?
    ensures Sums(After(runs, t).value, runs[Born(runs, t)..], t)
  {
    var n := |runs| - 1;
    var init, c := runs[..n], runs[n];
    var b := Born(runs, t);
    if After(init, t) == None {
      assert b == n;
      SumsStart([], c, t);
      assert runs[b..] == [] + [c];
    } else {
      LifeSums(init, t);
      SumsStep(After(init, t).value, init[b..], c, t);
      TailSnoc(runs, b);
    }
  }

  lemma TailSnoc(runs: seq<Calculation>, b: nat)
    requires b < |runs|
    ensures runs[b..] == runs[..|runs| - 1][b..] + [runs[|runs| - 1]]
  {
  }

  /** With positive gains that is every run there ever was. */
  lemma {:induction false} AllRunsCount(runs: seq<Calculation>, t: string)
    requires forall c :: c in runs && Counted(c.mentions, t).Some? ==> Gain(c, t) > 0.0
    requires After(runs, t).Some?
    ensures Sums(After(runs, t).value, runs, t)
  {
    var n := |runs| - 1;
    var init, c := runs[..n], runs[n];
    assert runs == init + [c];
    NeverDeleted(init, t);
    if After(init, t) == None {
      SumsStart(init, c, t);
    } else {
      AllRunsCount(init, t);
      SumsStep(After(init, t).value, init, c, t);
    }
  }

  /** Hashtag lists stay free of duplicates when extraction's are. */
  lemma {:induction false} HashtagsDistinct(runs: seq<Calculation>, t: string)
    requires forall c :: c in runs ==> NoDuplicates(Data(c, t).relevantHashtags)
    ensures After(runs, t).Some? ==> NoDuplicates(After(runs, t).value.relevantHashtags)
  {
    if runs != [] {
      assert runs[|runs| - 1] in runs;
      HashtagsDistinct(runs[..|runs| - 1], t);
    }
  }

  // ---------------------------------------------------------------- what extraction feeds in

  lemma {:induction false} SumAtLeast(acts: seq<Activity>, t: string)
    requires forall a :: a in acts ==> 0.0 < a.ageFactor
    ensures Sum(acts, a => ScoreIn(a, t)) >= 0.0
    ensures Total(acts, a => MentionsIn(a, t)) > 0 ==> Sum(acts, a => ScoreIn(a, t)) > 0.0
  {
    if acts != [] {
      var a := acts[|acts| - 1];
      assert a in acts;
      SumAtLeast(acts[..|acts| - 1], t);
      ScorePositive(a, t);
    }
  }

  lemma WeightedSign(x: real, y: real)
    requires x > 0.0 && y >= 0.0
    ensures Weighted(x, y) >= 0.0 && (y > 0.0 ==> Weighted(x, y) > 0.0)
  {
  }

  lemma ScorePositive(a: Activity, t: string)
    requires 0.0 < a.ageFactor
    ensures ScoreIn(a, t) >= 0.0 && (MentionsIn(a, t) > 0 ==> ScoreIn(a, t) > 0.0)
  {
    PointsPositive(a, t);
    WeightedSign(a.ageFactor, Points(a, t));
  }

  lemma PointsPositive(a: Activity, t: string)
    ensures Points(a, t) >= 0.0 && (MentionsIn(a, t) > 0 ==> Points(a, t) > 0.0)
  {
    var n, k := CountOf(a.topics, t) as real, TagCount(a.hashtags, t) as real;
    assert n >= 0.0 && k >= 0.0 && (MentionsIn(a, t) > 0 ==> n + k > 0.0);
    if Engaging(a) {
      assert Points(a, t) == n * 1.5 + k * 1.2;
    } else {
      assert Points(a, t) == n * 1.0 + k * 1.2;
    }
  }

  /** The activities behind each calculation, with ages that leave a positive factor. */
  ghost predicate FromActivities(runs: seq<Calculation>, feeds: seq<seq<Activity>>) {
    && |feeds| == |runs|
    && (forall i :: 0 <= i < |runs| ==> Extracted(runs[i].mentions, feeds[i]))
    && (forall i, a :: 0 <= i < |runs| && a in feeds[i] ==> 0.0 < a.ageFactor)
  }

  /** A run counts a topic exactly if its activities mention it three times or more. */
  lemma CountedIff(runs: seq<Calculation>, feeds: seq<seq<Activity>>, t: string, i: nat)
    requires FromActivities(runs, feeds) && i < |runs|
    ensures Counted(runs[i].mentions, t).Some? <==> Total(feeds[i], a => MentionsIn(a, t)) > 2
  {
    assert ExtractedTopic(runs[i].mentions, feeds[i], t);
  }

  /** From activities to the table: a topic has a row exactly if the activities of some run mention it three times,
      its columns hold the sums over all runs, its hashtags without duplicates, and its score is positive and the
      discounted sum of all its gains. */
  lemma FromActivitiesToTable(runs: seq<Calculation>, feeds: seq<seq<Activity>>, t: string)
    requires FromActivities(runs, feeds)
    ensures After(runs, t).Some? <==> exists i :: 0 <= i < |runs| && Total(feeds[i], a => MentionsIn(a, t)) > 2
    ensures After(runs, t).Some? ==>
      && Sums(After(runs, t).value, runs, t)
      && NoDuplicates(After(runs, t).value.relevantHashtags)
      && After(runs, t).value.score == Discounted(runs, t, 0) > 0.0
  {
    forall c | c in runs && Counted(c.mentions, t).Some?
      ensures Gain(c, t) > 0.0
    {
      var i :| 0 <= i < |runs| && runs[i] == c;
      assert ExtractedTopic(c.mentions, feeds[i], t);
      SumAtLeast(feeds[i], t);
    }
    NeverDeleted(runs, t);
    forall i | 0 <= i < |runs|
      ensures Counted(runs[i].mentions, t).Some? <==> Total(feeds[i], a => MentionsIn(a, t)) > 2
    {
      CountedIff(runs, feeds, t, i);
    }
    ClosedForm(runs, t);
    forall c | c in runs
      ensures NoDuplicates(Data(c, t).relevantHashtags)
    {
      var i :| 0 <= i < |runs| && runs[i] == c;
      assert ExtractedTopic(c.mentions, feeds[i], t);
    }
    HashtagsDistinct(runs, t);
    if After(runs, t).Some? {
      AllRunsCount(runs, t);
    }
  }
}
