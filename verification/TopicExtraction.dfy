/** Counting topics over recent activities: nested loops over a map of records, and the sums they amount to.
    The age factor of an activity, exp(-age / 12h), is an arbitrary real here. */
module TopicExtraction {
  import opened Sequences

  datatype Activity = Activity(ageFactor: real, kind: string, topics: seq<string>, hashtags: seq<string>)

  datatype TopicData = TopicData(
    score: real, mentionCount: nat, engagementCount: nat,
    relatedTopics: map<string, real>, relevantHashtags: seq<string>)

  type Mentions = map<string, TopicData>

  const Empty := TopicData(0.0, 0, 0, map[], [])

  predicate Engaging(a: Activity) {
    a.kind == "like" || a.kind == "share" || a.kind == "comment"
  }

  /** `hashtag.replace('#', '')`: the first '#' goes, wherever it stands. */
  function TopicOf(hashtag: string): string {
    if hashtag == "" then "" else if hashtag[0] == '#' then hashtag[1..] else [hashtag[0]] + TopicOf(hashtag[1..])
  }

  /** The hashtag h is the topic t with one '#' put in before any other, or is t and holds none. */
  ghost predicate Spells(h: string, t: string) {
    (h == t && '#' !in t) || exists k: nat :: HashAt(h, t, k)
  }

  ghost predicate HashAt(h: string, t: string, k: nat) {
    k <= |t| && '#' !in t[..k] && h == t[..k] + "#" + t[k..]
  }

  /** What is left of a hashtag is the one topic it spells. */
  lemma {:induction false} TopicIff(h: string, t: string)
    ensures TopicOf(h) == t <==> Spells(h, t)
  {
    if h == "" {
    } else if h[0] == '#' {
      assert h == h[1..][..0] + "#" + h[1..][0..];
      assert HashAt(h, h[1..], 0);
      if k: nat :| HashAt(h, t, k) {
        FirstHash(h, t, k);
      }
    } else if t == "" {
      assert forall k: nat :: !HashAt(h, t, k);
    } else {
      TopicIff(h[1..], t[1..]);
      SpellsRest(h, t);
    }
  }

  lemma FirstHash(h: string, t: string, k: nat)
    requires HashAt(h, t, k) && h[0] == '#'
    ensures t == h[1..]
  {
    if k > 0 {
      assert false;
    }
  }

  lemma SpellsRest(h: string, t: string)
    requires h != "" && t != "" && h[0] != '#'
    ensures Spells(h, t) <==> h[0] == t[0] && Spells(h[1..], t[1..])
  {
    if k: nat :| HashAt(h, t, k) {
      assert k > 0;
      assert t[..k] == [t[0]] + t[1..][..k - 1] && t[k..] == t[1..][k - 1..];
      assert HashAt(h[1..], t[1..], k - 1);
    }
    if k: nat :| h[0] == t[0] && HashAt(h[1..], t[1..], k) {
      assert t[..k + 1] == [t[0]] + t[1..][..k] && t[k + 1..] == t[1..][k..];
      assert h == [h[0]] + h[1..];
      assert HashAt(h, t, k + 1);
    }
    assert h == [h[0]] + h[1..] && t == [t[0]] + t[1..];
  }

  // ---------------------------------------------------------------- the sums

  function CountOf(s: seq<string>, x: string): nat {
    |Filter(s, (y: string) => y == x)|
  }

  /** How many of the hashtags spell the topic. */
  ghost function TagCount(hashtags: seq<string>, topic: string): nat {
    |Filter(hashtags, (h: string) => Spells(h, topic))|
  }

  function Total(acts: seq<Activity>, f: Activity -> nat): nat {
    if acts == [] then 0 else Total(acts[..|acts| - 1], f) + f(acts[|acts| - 1])
  }

  function Sum(acts: seq<Activity>, f: Activity -> real): real {
    if acts == [] then 0.0 else Sum(acts[..|acts| - 1], f) + f(acts[|acts| - 1])
  }

  /** Each place a topic stands in, as topic or as hashtag. */
  ghost function MentionsIn(a: Activity, t: string): nat {
    CountOf(a.topics, t) + TagCount(a.hashtags, t)
  }

  function EngagementsIn(a: Activity, t: string): nat {
    if Engaging(a) then CountOf(a.topics, t) else 0
  }

  /** 1 for a topic, half as much again for an engaging activity, 1.2 for a hashtag. */
  ghost function Points(a: Activity, t: string): real {
    CountOf(a.topics, t) as real * (if Engaging(a) then 1.5 else 1.0) + TagCount(a.hashtags, t) as real * 1.2
  }

  function Weighted(ageFactor: real, points: real): real {
    ageFactor * points
  }

  /** Weighted by age. */
  ghost function ScoreIn(a: Activity, t: string): real {
    Weighted(a.ageFactor, Points(a, t))
  }

  /** Half a point for every pair of places the two topics stand in. */
  function RelatedIn(a: Activity, t: string, u: string): real {
    if t == u then 0.0 else 0.5 * a.ageFactor * (CountOf(a.topics, t) as real * CountOf(a.topics, u) as real)
  }

  /** A hashtag belongs to a topic it stands beside or spells. */
  ghost predicate TagIn(a: Activity, t: string, h: string) {
    h in a.hashtags && (t in a.topics || Spells(h, t))
  }

  function Get(m: Mentions, t: string): TopicData {
    if t in m then m[t] else Empty
  }

  /** An absent entry counts as zero. */
  function Val(m: map<string, real>, u: string): real {
    if u in m then m[u] else 0.0
  }

  /** The record of `t` is the declarative sum over the activities. */
  ghost predicate IsSum(d: TopicData, acts: seq<Activity>, t: string) {
    && d.mentionCount == Total(acts, a => MentionsIn(a, t))
    && d.engagementCount == Total(acts, a => EngagementsIn(a, t))
    && d.score == Sum(acts, a => ScoreIn(a, t))
    && (forall u :: Val(d.relatedTopics, u) == Sum(acts, a => RelatedIn(a, t, u)))
    && (forall h :: h in d.relevantHashtags <==> exists a :: a in acts && TagIn(a, t, h))
    && NoDuplicates(d.relevantHashtags)
  }

  ghost predicate NoDuplicates(s: seq<string>) {
    forall i, j :: 0 <= i < j < |s| ==> s[i] != s[j]
  }

  /** Exactly the mentioned topics have a record, and each record is the sum. */
  ghost predicate Extracted(m: Mentions, acts: seq<Activity>) {
    forall t :: ExtractedTopic(m, acts, t)
  }

  ghost predicate ExtractedTopic(m: Mentions, acts: seq<Activity>, t: string) {
    (t in m <==> Total(acts, a => MentionsIn(a, t)) > 0) && IsSum(Get(m, t), acts, t)
  }

  // ---------------------------------------------------------------- the loops

  lemma CountStep(s: seq<string>, i: nat, x: string)
    requires i < |s|
    ensures CountOf(s[..i + 1], x) == CountOf(s[..i], x) + if s[i] == x then 1 else 0
  {
    FilterStep(s, i, (y: string) => y == x);
  }

  lemma CountIn(s: seq<string>, x: string)
    ensures CountOf(s, x) > 0 <==> x in s
  {
    FilterMembers(s, (y: string) => y == x);
    var f := Filter(s, (y: string) => y == x);
    if f != [] {
      assert f[0] in f;
    }
  }

  /** What one occurrence of `topic` gives to its relation with `u`. */
  function Share(topics: seq<string>, topic: string, ageFactor: real, u: string): real {
    if u == topic then 0.0 else 0.5 * ageFactor * CountOf(topics, u) as real
  }

  lemma ShareStep(topics: seq<string>, j: nat, topic: string, ageFactor: real, u: string)
    requires j < |topics|
    ensures Share(topics[..j + 1], topic, ageFactor, u)
         == Share(topics[..j], topic, ageFactor, u) + if topics[j] == u && u != topic then 0.5 * ageFactor else 0.0
  {
    CountStep(topics, j, u);
    Distribute(0.5 * ageFactor, CountOf(topics[..j], u) as real);
  }

  lemma Distribute(x: real, n: real)
    ensures x * (n + 1.0) == x * n + x
  {
  }

  /** The innermost loop over the other topics of the activity. */
  method AddRelated(related: map<string, real>, topics: seq<string>, topic: string, ageFactor: real)
    returns (r: map<string, real>)
    ensures forall u :: Val(r, u) == Val(related, u) + Share(topics, topic, ageFactor, u)
  {
    r := related;
    for j := 0 to |topics|
      invariant forall u :: Val(r, u) == Val(related, u) + Share(topics[..j], topic, ageFactor, u)
    {
      var relatedTopic := topics[j];
      forall u
        ensures Share(topics[..j + 1], topic, ageFactor, u)
             == Share(topics[..j], topic, ageFactor, u)
                + if relatedTopic == u && u != topic then 0.5 * ageFactor else 0.0
      {
        ShareStep(topics, j, topic, ageFactor, u);
      }
      if relatedTopic != topic {
        if relatedTopic !in r {
          r := r[relatedTopic := 0.0];
        }
        r := r[relatedTopic := r[relatedTopic] + 0.5 * ageFactor];
      }
    }
    assert topics[..|topics|] == topics;
  }

  method AddHashtags(list: seq<string>, hashtags: seq<string>) returns (r: seq<string>)
    requires NoDuplicates(list)
    ensures NoDuplicates(r)
    ensures forall h :: h in r <==> h in list || h in hashtags
  {
    r := list;
    for i := 0 to |hashtags|
      invariant NoDuplicates(r)
      invariant forall h :: h in r <==> h in list || h in hashtags[..i]
    {
      assert hashtags[..i + 1] == hashtags[..i] + [hashtags[i]];
      if hashtags[i] !in r {
        r := r + [hashtags[i]];
      }
    }
    assert hashtags[..|hashtags|] == hashtags;
  }

  /** How one place of topic t in an activity changes t's record. */
  ghost predicate MentionedOnce(d: TopicData, e: TopicData, a: Activity, t: string) {
    && e.mentionCount == d.mentionCount + 1
    && e.engagementCount == d.engagementCount + (if Engaging(a) then 1 else 0)
    && e.score == d.score + Weight(a)
    && (forall u :: Val(e.relatedTopics, u) == Val(d.relatedTopics, u) + Share(a.topics, t, a.ageFactor, u))
    && NoDuplicates(e.relevantHashtags)
    && (forall h :: h in e.relevantHashtags <==> h in d.relevantHashtags || h in a.hashtags)
  }

  function Weight(a: Activity): real {
    a.ageFactor * if Engaging(a) then 1.5 else 1.0
  }

  /** n times x, one x at a time. */
  function Times(x: real, n: nat): real {
    if n == 0 then 0.0 else Times(x, n - 1) + x
  }

  lemma {:induction false} TimesIsProduct(x: real, n: nat)
    ensures Times(x, n) == x * n as real
  {
    if n > 0 {
      TimesIsProduct(x, n - 1);
      Distribute(x, (n - 1) as real);
    }
  }

  /** How n places do. */
  ghost predicate MentionedTimes(d: TopicData, e: TopicData, a: Activity, t: string, n: nat) {
    && e.mentionCount == d.mentionCount + n
    && e.engagementCount == d.engagementCount + (if Engaging(a) then n else 0)
    && e.score == d.score + Times(Weight(a), n)
    && (forall u :: Val(e.relatedTopics, u) == Val(d.relatedTopics, u) + Times(Share(a.topics, t, a.ageFactor, u), n))
    && NoDuplicates(e.relevantHashtags)
    && (forall h :: h in e.relevantHashtags <==> h in d.relevantHashtags || (n > 0 && h in a.hashtags))
  }

  lemma OneMoreMention(d: TopicData, e: TopicData, f: TopicData, a: Activity, t: string, n: nat)
    requires MentionedTimes(d, e, a, t, n) && MentionedOnce(e, f, a, t)
    ensures MentionedTimes(d, f, a, t, n + 1)
  {
  }

  method MentionTopic(d: TopicData, a: Activity, topic: string) returns (r: TopicData)
    requires NoDuplicates(d.relevantHashtags)
    ensures MentionedOnce(d, r, a, topic)
  {
    r := d.(mentionCount := d.mentionCount + 1, score := d.score + 1.0 * a.ageFactor);
    if a.kind == "like" || a.kind == "share" || a.kind == "comment" {
      r := r.(engagementCount := r.engagementCount + 1, score := r.score + 0.5 * a.ageFactor);
    }
    var related := AddRelated(r.relatedTopics, a.topics, topic, a.ageFactor);
    var tags := AddHashtags(r.relevantHashtags, a.hashtags);
    r := r.(relatedTopics := related, relevantHashtags := tags);
  }

  /** What some topics of an activity have changed about topic t. */
  ghost predicate TopicsAdded(m: Mentions, r: Mentions, a: Activity, done: seq<string>, t: string) {
    && (t in r <==> t in m || CountOf(done, t) > 0)
    && MentionedTimes(Get(m, t), Get(r, t), a, t, CountOf(done, t))
  }

  lemma TopicsAddedStep(m: Mentions, before: Mentions, e: TopicData, a: Activity, done: seq<string>, topic: string,
                        t: string)
    requires TopicsAdded(m, before, a, done, t)
    requires MentionedOnce(Get(before, topic), e, a, topic)
    ensures TopicsAdded(m, before[topic := e], a, done + [topic], t)
  {
    FilterSnoc(done, topic, (y: string) => y == t);
    if t == topic {
      OneMoreMention(Get(m, t), Get(before, t), e, a, t, CountOf(done, t));
    }
  }

  method AddTopics(m: Mentions, a: Activity) returns (r: Mentions)
    requires forall t :: t in m ==> NoDuplicates(m[t].relevantHashtags)
    ensures forall t :: TopicsAdded(m, r, a, a.topics, t)
  {
    r := m;
    ghost var done: seq<string> := [];
    for i := 0 to |a.topics|
      invariant done == a.topics[..i]
      invariant forall t :: TopicsAdded(m, r, a, done, t)
    {
      var topic := a.topics[i];
      assert TopicsAdded(m, r, a, done, topic);
      var d := if topic in r then r[topic] else Empty;
      var e := MentionTopic(d, a, topic);
      ghost var longer := done + [topic];
      ghost var after := r[topic := e];
      forall t
        ensures TopicsAdded(m, after, a, longer, t)
      {
        assert TopicsAdded(m, r, a, done, t);
        TopicsAddedStep(m, r, e, a, done, topic, t);
      }
      r := r[topic := e];
      done := longer;
    }
    assert done == a.topics;
  }

  /** How some hashtags of an activity, n of which spell topic t, change t's record. */
  ghost predicate TaggedTimes(d: TopicData, e: TopicData, age: real, done: seq<string>, t: string, n: nat) {
    && e.mentionCount == d.mentionCount + n
    && e.engagementCount == d.engagementCount
    && e.score == d.score + Times(1.2 * age, n)
    && e.relatedTopics == d.relatedTopics
    && NoDuplicates(e.relevantHashtags)
    && (forall h :: h in e.relevantHashtags <==> h in d.relevantHashtags || (h in done && Spells(h, t)))
  }

  ghost predicate TagsAdded(m: Mentions, r: Mentions, a: Activity, done: seq<string>, t: string) {
    && (t in r <==> t in m || TagCount(done, t) > 0)
    && TaggedTimes(Get(m, t), Get(r, t), a.ageFactor, done, t, TagCount(done, t))
  }

  ghost predicate TaggedOnce(d: TopicData, e: TopicData, age: real, hashtag: string) {
    && e.mentionCount == d.mentionCount + 1 && e.engagementCount == d.engagementCount
    && e.score == d.score + 1.2 * age && e.relatedTopics == d.relatedTopics
    && NoDuplicates(e.relevantHashtags)
    && (forall h :: h in e.relevantHashtags <==> h in d.relevantHashtags || h == hashtag)
  }

  method TagTopic(d: TopicData, hashtag: string, age: real) returns (e: TopicData)
    requires NoDuplicates(d.relevantHashtags)
    ensures TaggedOnce(d, e, age, hashtag)
  {
    e := d.(mentionCount := d.mentionCount + 1, score := d.score + 1.2 * age);
    if hashtag !in e.relevantHashtags {
      e := e.(relevantHashtags := e.relevantHashtags + [hashtag]);
    }
  }

  lemma OneMoreTag(d: TopicData, e: TopicData, f: TopicData, age: real, done: seq<string>, hashtag: string, t: string,
                   n: nat)
    requires TaggedTimes(d, e, age, done, t, n) && TaggedOnce(e, f, age, hashtag) && Spells(hashtag, t)
    ensures TaggedTimes(d, f, age, done + [hashtag], t, n + 1)
  {
  }

  lemma OtherTag(d: TopicData, e: TopicData, age: real, done: seq<string>, hashtag: string, t: string, n: nat)
    requires TaggedTimes(d, e, age, done, t, n) && !Spells(hashtag, t)
    ensures TaggedTimes(d, e, age, done + [hashtag], t, n)
  {
  }

  lemma TagsAddedStep(m: Mentions, before: Mentions, e: TopicData, a: Activity, done: seq<string>, hashtag: string,
                      t: string)
    requires TagsAdded(m, before, a, done, t)
    requires TaggedOnce(Get(before, TopicOf(hashtag)), e, a.ageFactor, hashtag)
    ensures TagsAdded(m, before[TopicOf(hashtag) := e], a, done + [hashtag], t)
  {
    FilterSnoc(done, hashtag, (h: string) => Spells(h, t));
    TopicIff(hashtag, t);
    if t == TopicOf(hashtag) {
      OneMoreTag(Get(m, t), Get(before, t), e, a.ageFactor, done, hashtag, t, TagCount(done, t));
    } else {
      OtherTag(Get(m, t), Get(before, t), a.ageFactor, done, hashtag, t, TagCount(done, t));
    }
  }

  method AddTags(m: Mentions, a: Activity) returns (r: Mentions)
    requires forall t :: t in m ==> NoDuplicates(m[t].relevantHashtags)
    ensures forall t :: TagsAdded(m, r, a, a.hashtags, t)
  {
    r := m;
    ghost var done: seq<string> := [];
    for i := 0 to |a.hashtags|
      invariant done == a.hashtags[..i]
      invariant forall t :: TagsAdded(m, r, a, done, t)
    {
      var hashtag := a.hashtags[i];
      var topic := TopicOf(hashtag);
      assert TagsAdded(m, r, a, done, topic);
      // A new record starts with this hashtag in its list.
      var d := if topic in r then r[topic] else Empty.(relevantHashtags := [hashtag]);
      var e := TagTopic(d, hashtag, a.ageFactor);
      ghost var longer := done + [hashtag];
      ghost var after := r[topic := e];
      forall t
        ensures TagsAdded(m, after, a, longer, t)
      {
        assert TagsAdded(m, r, a, done, t);
        TagsAddedStep(m, r, e, a, done, hashtag, t);
      }
      r := r[topic := e];
      done := longer;
    }
    assert done == a.hashtags;
  }

  // ---------------------------------------------------------------- the whole extraction

  lemma {:induction false} SumExtensional(acts: seq<Activity>, f: Activity -> real, g: Activity -> real)
    requires forall a :: f(a) == g(a)
    ensures Sum(acts, f) == Sum(acts, g)
  {
    if acts != [] {
      SumExtensional(acts[..|acts| - 1], f, g);
    }
  }

  /** One more activity adds its own numbers to each sum. */
  lemma SumsSnoc(acts: seq<Activity>, a: Activity, t: string, u: string)
    ensures Total(acts + [a], a => MentionsIn(a, t)) == Total(acts, a => MentionsIn(a, t)) + MentionsIn(a, t)
    ensures Total(acts + [a], a => EngagementsIn(a, t)) == Total(acts, a => EngagementsIn(a, t)) + EngagementsIn(a, t)
    ensures Sum(acts + [a], a => ScoreIn(a, t)) == Sum(acts, a => ScoreIn(a, t)) + ScoreIn(a, t)
    ensures Sum(acts + [a], a => RelatedIn(a, t, u)) == Sum(acts, a => RelatedIn(a, t, u)) + RelatedIn(a, t, u)
  {
    assert (acts + [a])[..|acts|] == acts;
  }

  lemma ScoreParts(age: real, n: real, w: real, k: real)
    ensures age * w * n + 1.2 * age * k == age * (n * w + k * 1.2)
  {
  }

  lemma RelatedParts(age: real, n: real, c: real)
    ensures 0.5 * age * c * n == 0.5 * age * (n * c)
  {
  }

  lemma WeightedTimes(age: real, w: real, n: nat, k: nat)
    ensures Times(age * w, n) + Times(1.2 * age, k) == Weighted(age, n as real * w + k as real * 1.2)
  {
    TimesIsProduct(age * w, n);
    TimesIsProduct(1.2 * age, k);
    ScoreParts(age, n as real, w, k as real);
  }

  lemma ScoreInParts(a: Activity, t: string)
    ensures Times(Weight(a), CountOf(a.topics, t)) + Times(1.2 * a.ageFactor, TagCount(a.hashtags, t)) == ScoreIn(a, t)
  {
    var w := if Engaging(a) then 1.5 else 1.0;
    assert Weight(a) == a.ageFactor * w;
    assert Points(a, t) == CountOf(a.topics, t) as real * w + TagCount(a.hashtags, t) as real * 1.2;
    WeightedTimes(a.ageFactor, w, CountOf(a.topics, t), TagCount(a.hashtags, t));
  }

  lemma RelatedInParts(a: Activity, t: string, u: string)
    ensures Times(Share(a.topics, t, a.ageFactor, u), CountOf(a.topics, t)) == RelatedIn(a, t, u)
  {
    TimesIsProduct(Share(a.topics, t, a.ageFactor, u), CountOf(a.topics, t));
    RelatedParts(a.ageFactor, CountOf(a.topics, t) as real, CountOf(a.topics, u) as real);
  }

  /** One activity's topics and hashtags change a record by the activity's own numbers. */
  lemma NumbersStep(d: TopicData, mid: TopicData, r: TopicData, a: Activity, t: string, u: string)
    requires MentionedTimes(d, mid, a, t, CountOf(a.topics, t))
    requires TaggedTimes(mid, r, a.ageFactor, a.hashtags, t, TagCount(a.hashtags, t))
    ensures r.mentionCount == d.mentionCount + MentionsIn(a, t)
    ensures r.engagementCount == d.engagementCount + EngagementsIn(a, t)
    ensures r.score == d.score + ScoreIn(a, t)
    ensures Val(r.relatedTopics, u) == Val(d.relatedTopics, u) + RelatedIn(a, t, u)
  {
    ScoreInParts(a, t);
    RelatedInParts(a, t, u);
  }

  lemma ExtractedStep(m: Mentions, mid: Mentions, r: Mentions, acts: seq<Activity>, a: Activity, t: string)
    requires ExtractedTopic(m, acts, t)
    requires TopicsAdded(m, mid, a, a.topics, t) && TagsAdded(mid, r, a, a.hashtags, t)
    ensures ExtractedTopic(r, acts + [a], t)
  {
    SumsSnoc(acts, a, t, t);
    NumbersStep(Get(m, t), Get(mid, t), Get(r, t), a, t, t);
    forall u
      ensures Val(Get(r, t).relatedTopics, u) == Sum(acts + [a], a => RelatedIn(a, t, u))
    {
      SumsSnoc(acts, a, t, u);
      NumbersStep(Get(m, t), Get(mid, t), Get(r, t), a, t, u);
    }
    CountIn(a.topics, t);
    forall h
      ensures h in Get(r, t).relevantHashtags <==> exists b :: b in acts + [a] && TagIn(b, t, h)
    {
      TagsStep(Get(m, t), Get(r, t), acts, a, t, h);
    }
  }

  lemma TagsStep(d: TopicData, r: TopicData, acts: seq<Activity>, a: Activity, t: string, h: string)
    requires h in d.relevantHashtags <==> exists b :: b in acts && TagIn(b, t, h)
    requires h in r.relevantHashtags <==> h in d.relevantHashtags || TagIn(a, t, h)
    ensures h in r.relevantHashtags <==> exists b :: b in acts + [a] && TagIn(b, t, h)
  {
    if b :| b in acts && TagIn(b, t, h) {
      assert b in acts + [a];
    }
    if TagIn(a, t, h) {
      assert a in acts + [a];
    }
  }

  /** The record of every topic is its declarative sum, for any list of activities. */
  method ExtractTopicMentions(activities: seq<Activity>) returns (m: Mentions)
    ensures Extracted(m, activities)
  {
    m := map[];
    ghost var done: seq<Activity> := [];
    for i := 0 to |activities|
      invariant done == activities[..i]
      invariant Extracted(m, done)
    {
      var a := activities[i];
      ghost var before, longer := m, done + [a];
      forall t | t in m
        ensures NoDuplicates(m[t].relevantHashtags)
      {
        assert ExtractedTopic(m, done, t);
      }
      var mid := AddTopics(m, a);
      forall t | t in mid
        ensures NoDuplicates(mid[t].relevantHashtags)
      {
        assert TopicsAdded(m, mid, a, a.topics, t);
      }
      m := AddTags(mid, a);
      forall t
        ensures ExtractedTopic(m, longer, t)
      {
        assert ExtractedTopic(before, done, t);
        assert TopicsAdded(before, mid, a, a.topics, t) && TagsAdded(mid, m, a, a.hashtags, t);
        ExtractedStep(before, mid, m, done, a, t);
      }
      done := longer;
    }
    assert done == activities;
  }

  // ---------------------------------------------------------------- what the sums mean

  /** A '#' stands only in front. */
  ghost predicate PlainTag(h: string) {
    '#' !in h || h[0] == '#'
  }

  lemma PlainSpells(h: string, t: string)
    requires PlainTag(h) && '#' !in t
    ensures Spells(h, t) <==> h == t || h == "#" + t
  {
    if k: nat :| HashAt(h, t, k) {
      assert h[k] == '#';
      FirstHash(h, t, k);
      assert h == [h[0]] + h[1..];
    }
    if h == "#" + t {
      assert HashAt(h, t, 0);
    }
  }

  lemma {:induction false} PlainTagCount(hashtags: seq<string>, t: string)
    requires '#' !in t && forall h :: h in hashtags ==> PlainTag(h)
    ensures TagCount(hashtags, t) == CountOf(hashtags, t) + CountOf(hashtags, "#" + t)
  {
    if hashtags != [] {
      PlainTagCount(hashtags[..|hashtags| - 1], t);
      PlainSpells(hashtags[|hashtags| - 1], t);
    }
  }

  /** The places of t in an activity: the topic itself, and the hashtags with and without the '#'. */
  function PlacesIn(a: Activity, t: string): nat {
    CountOf(a.topics, t) + CountOf(a.hashtags, t) + CountOf(a.hashtags, "#" + t)
  }

  lemma {:induction false} TotalPlaces(acts: seq<Activity>, t: string)
    requires '#' !in t && forall a, h :: a in acts && h in a.hashtags ==> PlainTag(h)
    ensures Total(acts, a => MentionsIn(a, t)) == Total(acts, a => PlacesIn(a, t))
  {
    if acts != [] {
      TotalPlaces(acts[..|acts| - 1], t);
      assert acts[|acts| - 1] in acts;
      PlainTagCount(acts[|acts| - 1].hashtags, t);
    }
  }

  /** One record counts a topic together with its hashtag, written with or without the '#'. */
  lemma TagsJoinTopic(m: Mentions, acts: seq<Activity>, t: string)
    requires Extracted(m, acts) && '#' !in t
    requires forall a, h :: a in acts && h in a.hashtags ==> PlainTag(h)
    ensures Get(m, t).mentionCount == Total(acts, a => PlacesIn(a, t))
    ensures t in m <==> exists a :: a in acts && (t in a.topics || t in a.hashtags || "#" + t in a.hashtags)
  {
    assert ExtractedTopic(m, acts, t);
    TotalPlaces(acts, t);
    TotalPositive(acts, a => PlacesIn(a, t));
    forall a
      ensures PlacesIn(a, t) > 0 <==> t in a.topics || t in a.hashtags || "#" + t in a.hashtags
    {
      CountIn(a.topics, t);
      CountIn(a.hashtags, t);
      CountIn(a.hashtags, "#" + t);
    }
  }

  /** The numbers of a single activity: a topic counts 1, in a like, share or comment 1.5, its hashtag 1.2, and each
      other topic beside it relates to it with 0.5, all times the age factor. */
  lemma OneActivity(m: Mentions, a: Activity, t: string, u: string)
    requires a.topics == [t, u] && a.hashtags == ["#" + t] && t != u && '#' !in t
    requires Extracted(m, [a])
    ensures Get(m, t).mentionCount == 2
    ensures Get(m, t).engagementCount == (if a.kind in {"like", "share", "comment"} then 1 else 0)
    ensures Get(m, t).score == a.ageFactor * (if a.kind in {"like", "share", "comment"} then 2.7 else 2.2)
    ensures Val(Get(m, t).relatedTopics, u) == a.ageFactor / 2.0
    ensures Get(m, t).relevantHashtags == ["#" + t]
  {
    assert ExtractedTopic(m, [a], t);
    OneSum(a, a => ScoreIn(a, t), a => MentionsIn(a, t), a => EngagementsIn(a, t));
    OneSum(a, a => RelatedIn(a, t, u), a => MentionsIn(a, t), a => EngagementsIn(a, t));
    CountPair(t, u, t);
    CountPair(t, u, u);
    PlainSpells("#" + t, t);
    assert a.hashtags == [] + ["#" + t];
    FilterSnoc([], "#" + t, (h: string) => Spells(h, t));
    var tags := Get(m, t).relevantHashtags;
    forall h
      ensures h in tags <==> h == "#" + t
    {
      assert a in [a];
    }
    OnlyOne(tags, "#" + t);
  }

  lemma OneSum(a: Activity, f: Activity -> real, g: Activity -> nat, h: Activity -> nat)
    ensures Sum([a], f) == f(a) && Total([a], g) == g(a) && Total([a], h) == h(a)
  {
    assert [a][..0] == [];
  }

  lemma CountPair(t: string, u: string, x: string)
    ensures CountOf([t, u], x) == (if t == x then 1 else 0) + (if u == x then 1 else 0)
  {
    assert [t, u] == [t] + [u] && [t] == [] + [t];
    FilterSnoc([t], u, (y: string) => y == x);
    FilterSnoc([], t, (y: string) => y == x);
  }

  lemma FirstTwoDiffer(s: seq<string>)
    requires NoDuplicates(s) && |s| > 1
    ensures s[0] != s[1]
  {
  }

  lemma OnlyOne(s: seq<string>, x: string)
    requires NoDuplicates(s) && forall y :: y in s <==> y == x
    ensures s == [x]
  {
    assert x in s;
    assert s[0] in s;
    if |s| > 1 {
      assert s[1] in s;
      FirstTwoDiffer(s);
    }
  }

  lemma {:induction false} TotalPositive(acts: seq<Activity>, f: Activity -> nat)
    ensures Total(acts, f) > 0 <==> exists a :: a in acts && f(a) > 0
  {
    if acts != [] {
      TotalPositive(acts[..|acts| - 1], f);
      assert acts == acts[..|acts| - 1] + [acts[|acts| - 1]];
    }
  }

  /** The co-occurrence weights are symmetric, and no topic relates to itself. */
  lemma RelatedSymmetric(m: Mentions, acts: seq<Activity>, t: string, u: string)
    requires Extracted(m, acts)
    ensures Val(Get(m, t).relatedTopics, u) == Val(Get(m, u).relatedTopics, t)
    ensures Val(Get(m, t).relatedTopics, t) == 0.0
  {
    assert ExtractedTopic(m, acts, t) && ExtractedTopic(m, acts, u);
    forall a
      ensures RelatedIn(a, t, u) == RelatedIn(a, u, t)
    {
      Commute(CountOf(a.topics, t) as real, CountOf(a.topics, u) as real);
    }
    SumExtensional(acts, a => RelatedIn(a, t, u), a => RelatedIn(a, u, t));
    SumZero(acts, a => RelatedIn(a, t, t));
  }

  lemma Commute(x: real, y: real)
    ensures x * y == y * x
  {
  }

  lemma {:induction false} SumZero(acts: seq<Activity>, f: Activity -> real)
    requires forall a :: f(a) == 0.0
    ensures Sum(acts, f) == 0.0
  {
    if acts != [] {
      SumZero(acts[..|acts| - 1], f);
    }
  }

  lemma {:induction false} TotalMonotone(acts: seq<Activity>, f: Activity -> nat, g: Activity -> nat)
    requires forall a :: f(a) <= g(a)
    ensures Total(acts, f) <= Total(acts, g)
  {
    if acts != [] {
      TotalMonotone(acts[..|acts| - 1], f, g);
    }
  }

  lemma EngagementsAreMentions(m: Mentions, acts: seq<Activity>, t: string)
    requires Extracted(m, acts)
    ensures Get(m, t).engagementCount <= Get(m, t).mentionCount
  {
    assert ExtractedTopic(m, acts, t);
    TotalMonotone(acts, a => EngagementsIn(a, t), a => MentionsIn(a, t));
  }

  lemma {:induction false} SumMove(acts: seq<Activity>, i: nat, f: Activity -> real)
    requires i < |acts|
    ensures Sum(acts, f) == Sum(acts[..i] + acts[i + 1..], f) + f(acts[i])
  {
    var n := |acts| - 1;
    if i == n {
      assert acts[..i] + acts[i + 1..] == acts[..n];
    } else {
      SumMove(acts[..n], i, f);
      var rest := acts[..i] + acts[i + 1..];
      assert rest[..|rest| - 1] == acts[..n][..i] + acts[..n][i + 1..];
    }
  }

  /** The order of the activities does not matter to any sum. */
  lemma {:induction false} SumPermuted(a: seq<Activity>, b: seq<Activity>, f: Activity -> real)
    requires multiset(a) == multiset(b)
    ensures Sum(a, f) == Sum(b, f)
  {
    if a == [] {
      assert |multiset(b)| == 0;
    } else {
      var i := LastElsewhere(a, b);
      SumMove(b, i, f);
      SumPermuted(a[..|a| - 1], b[..i] + b[i + 1..], f);
    }
  }

  /** The last element of a list stands somewhere in its permutation, and can be taken out of both. */
  lemma LastElsewhere(a: seq<Activity>, b: seq<Activity>) returns (i: nat)
    requires a != [] && multiset(a) == multiset(b)
    ensures i < |b| && b[i] == a[|a| - 1]
    ensures multiset(a[..|a| - 1]) == multiset(b[..i] + b[i + 1..])
  {
    LastBag(a);
    i := PlaceOf(b, a[|a| - 1]);
    WithoutBag(b, i);
  }

  lemma LastBag(s: seq<Activity>)
    requires s != []
    ensures s[|s| - 1] in multiset(s)
    ensures multiset(s[..|s| - 1]) == multiset(s) - multiset{s[|s| - 1]}
  {
    assert s == s[..|s| - 1] + [s[|s| - 1]];
  }

  lemma PlaceOf(s: seq<Activity>, x: Activity) returns (i: nat)
    requires x in multiset(s)
    ensures i < |s| && s[i] == x
  {
    i :| 0 <= i < |s| && s[i] == x;
  }

  lemma WithoutBag(s: seq<Activity>, i: nat)
    requires i < |s|
    ensures multiset(s[..i] + s[i + 1..]) == multiset(s) - multiset{s[i]}
  {
    assert s == s[..i] + [s[i]] + s[i + 1..];
  }

  lemma {:induction false} TotalAsSum(acts: seq<Activity>, f: Activity -> nat)
    ensures Total(acts, f) as real == Sum(acts, a => f(a) as real)
  {
    if acts != [] {
      TotalAsSum(acts[..|acts| - 1], f);
    }
  }

  lemma TotalPermuted(a: seq<Activity>, b: seq<Activity>, f: Activity -> nat)
    requires multiset(a) == multiset(b)
    ensures Total(a, f) == Total(b, f)
  {
    TotalAsSum(a, f);
    TotalAsSum(b, f);
    SumPermuted(a, b, a => f(a) as real);
  }

  /** The same activities in another order give every topic the same numbers. */
  lemma OrderIrrelevant(a: seq<Activity>, b: seq<Activity>, m: Mentions, n: Mentions, t: string)
    requires multiset(a) == multiset(b) && Extracted(m, a) && Extracted(n, b)
    ensures t in m <==> t in n
    ensures Get(m, t).mentionCount == Get(n, t).mentionCount && Get(m, t).engagementCount == Get(n, t).engagementCount
    ensures Get(m, t).score == Get(n, t).score
    ensures forall u :: Val(Get(m, t).relatedTopics, u) == Val(Get(n, t).relatedTopics, u)
  {
    assert ExtractedTopic(m, a, t) && ExtractedTopic(n, b, t);
    TotalPermuted(a, b, a => MentionsIn(a, t));
    TotalPermuted(a, b, a => EngagementsIn(a, t));
    SumPermuted(a, b, a => ScoreIn(a, t));
    forall u
      ensures Val(Get(m, t).relatedTopics, u) == Val(Get(n, t).relatedTopics, u)
    {
      SumPermuted(a, b, a => RelatedIn(a, t, u));
    }
  }
}
