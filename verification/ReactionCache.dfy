/** Reactions to content and the cached per-type counts that every write adjusts in place. */
module ReactionCache {
  import opened Sequences

  datatype Content = Content(contentType: string, contentId: string)

  datatype Reaction = Reaction(content: Content, creatorId: string, kind: string, isDeleted: bool)

  datatype ReactionError = AlreadyExists | NotFoundOrNotYours | UniqueViolation

  /** Counts per reaction type; a type without an entry counts as zero. */
  type Counts = map<string, int>

  /** The reaction table, rows numbered by id and never physically deleted, and the metrics cache. */
  datatype State = State(reactions: seq<Reaction>, cache: map<Content, Counts>)

  function Get(counts: Counts, kind: string): int {
    if kind in counts then counts[kind] else 0
  }

  // ---------------------------------------------------------------- the query behind the cache

  predicate Counted(content: Content, kind: string, r: Reaction) {
    r.content == content && r.kind == kind && !r.isDeleted
  }

  /** How many live reactions of a type the table holds: the number the cache must agree with. */
  function Recount(rs: seq<Reaction>, content: Content, kind: string): nat {
    |Filter(rs, (r: Reaction) => Counted(content, kind, r))|
  }

  /** SELECT type, COUNT(id) ... GROUP BY type. */
  function GroupedCounts(rs: seq<Reaction>, content: Content): Counts {
    var kinds := set r | r in rs && r.content == content && !r.isDeleted :: r.kind;
    map kind | kind in kinds :: Recount(rs, content, kind)
  }

  lemma GroupedCountsExact(rs: seq<Reaction>, content: Content, kind: string)
    ensures Get(GroupedCounts(rs, content), kind) == Recount(rs, content, kind)
  {
    if kind !in GroupedCounts(rs, content) {
      FilterNone(rs, (r: Reaction) => Counted(content, kind, r));
    }
  }

  // ---------------------------------------------------------------- cache adjustments

  function Increment(cache: map<Content, Counts>, content: Content, kind: string): map<Content, Counts> {
    if content !in cache then cache
    else cache[content := cache[content][kind := Get(cache[content], kind) + 1]]
  }

  /** The guard keeps a count from going below zero. */
  function Decrement(cache: map<Content, Counts>, content: Content, kind: string): map<Content, Counts> {
    if content !in cache || Get(cache[content], kind) <= 0 then cache
    else cache[content := cache[content][kind := Get(cache[content], kind) - 1]]
  }

  // ---------------------------------------------------------------- the service

  /** The unique index on content, creator and type. Soft-deleted rows still occupy their place in it. */
  predicate Taken(rs: seq<Reaction>, content: Content, creatorId: string, kind: string) {
    exists i :: 0 <= i < |rs| && rs[i].content == content && rs[i].creatorId == creatorId && rs[i].kind == kind
  }

  predicate Owned(s: State, id: nat, userId: string) {
    id < |s.reactions| && s.reactions[id].creatorId == userId && !s.reactions[id].isDeleted
  }

  function Create(s: State, userId: string, content: Content, kind: string): Result<State, ReactionError> {
    if Taken(s.reactions, content, userId, kind) then Err(AlreadyExists)
    else Ok(State(s.reactions + [Reaction(content, userId, kind, false)], Increment(s.cache, content, kind)))
  }

  /** `kind` is the optional new type. An empty one is written to the row but not seen as a change. */
  function Update(s: State, id: nat, userId: string, kind: Option<string>): Result<State, ReactionError> {
    if !Owned(s, id, userId) then Err(NotFoundOrNotYours)
    else if kind.None? then Ok(s)
    else
      var row := s.reactions[id];
      if kind.value != row.kind && Taken(s.reactions, row.content, userId, kind.value) then Err(UniqueViolation)
      else
        var rs := s.reactions[id := row.(kind := kind.value)];
        if row.kind != kind.value && kind.value != "" then
          Ok(State(rs, Increment(Decrement(s.cache, row.content, row.kind), row.content, kind.value)))
        else
          Ok(State(rs, s.cache))
  }

  function Remove(s: State, id: nat, userId: string): Result<State, ReactionError> {
    if !Owned(s, id, userId) then Err(NotFoundOrNotYours)
    else
      var r := s.reactions[id];
      Ok(State(s.reactions[id := r.(isDeleted := true)], Decrement(s.cache, r.content, r.kind)))
  }

  /** Reading the metrics fills the cache when it holds nothing. */
  function Fill(s: State, content: Content): State {
    if content in s.cache then s else s.(cache := s.cache[content := GroupedCounts(s.reactions, content)])
  }

  function Evict(s: State, content: Content): State {
    s.(cache := s.cache - {content})
  }

  // ---------------------------------------------------------------- agreement

  /** Every cached count is what recounting would give. */
  ghost predicate Agrees(s: State) {
    forall content, kind :: content in s.cache ==> Get(s.cache[content], kind) == Recount(s.reactions, content, kind)
  }

  lemma RecountAppend(rs: seq<Reaction>, r: Reaction, content: Content, kind: string)
    ensures Recount(rs + [r], content, kind) == Recount(rs, content, kind) + if Counted(content, kind, r) then 1 else 0
  {
    FilterSnoc(rs, r, (r: Reaction) => Counted(content, kind, r));
  }

  lemma RecountReplace(rs: seq<Reaction>, id: nat, r: Reaction, content: Content, kind: string)
    requires id < |rs|
    ensures Recount(rs[id := r], content, kind)
         == Recount(rs, content, kind)
            - (if Counted(content, kind, rs[id]) then 1 else 0) + (if Counted(content, kind, r) then 1 else 0)
    ensures Counted(content, kind, rs[id]) ==> Recount(rs, content, kind) > 0
  {
    var keep := (r: Reaction) => Counted(content, kind, r);
    assert rs == rs[..id] + [rs[id]] + rs[id + 1..];
    assert rs[id := r] == rs[..id] + [r] + rs[id + 1..];
    FilterConcat(rs[..id] + [rs[id]], rs[id + 1..], keep);
    FilterConcat(rs[..id] + [r], rs[id + 1..], keep);
    FilterSnoc(rs[..id], rs[id], keep);
    FilterSnoc(rs[..id], r, keep);
  }

  lemma CreateAgrees(s: State, userId: string, content: Content, kind: string)
    requires Agrees(s) && Create(s, userId, content, kind).Ok?
    ensures Agrees(Create(s, userId, content, kind).value)
  {
    var u := Create(s, userId, content, kind).value;
    forall c, k | c in u.cache
      ensures Get(u.cache[c], k) == Recount(u.reactions, c, k)
    {
      RecountAppend(s.reactions, Reaction(content, userId, kind, false), c, k);
    }
  }

  lemma RemoveAgrees(s: State, id: nat, userId: string)
    requires Agrees(s) && Remove(s, id, userId).Ok?
    ensures Agrees(Remove(s, id, userId).value)
  {
    var r := s.reactions[id];
    var u := Remove(s, id, userId).value;
    forall c, k | c in u.cache
      ensures Get(u.cache[c], k) == Recount(u.reactions, c, k)
    {
      RecountReplace(s.reactions, id, r.(isDeleted := true), c, k);
    }
  }

  /** The guard in the decrement never fires when a live reaction is being taken away. */
  lemma GuardNeverSuppresses(s: State, id: nat, userId: string)
    requires Agrees(s) && Owned(s, id, userId) && s.reactions[id].content in s.cache
    ensures Get(s.cache[s.reactions[id].content], s.reactions[id].kind) > 0
  {
    var r := s.reactions[id];
    RecountReplace(s.reactions, id, r, r.content, r.kind);
  }

  /** An update keeps the agreement exactly unless it writes an empty type over another one while the
      content's counts are cached: the row changes and the counts do not. */
  lemma UpdateAgreesIff(s: State, id: nat, userId: string, kind: Option<string>)
    requires Agrees(s) && Update(s, id, userId, kind).Ok?
    ensures Agrees(Update(s, id, userId, kind).value)
       <==> !(kind == Some("") && s.reactions[id].kind != "" && s.reactions[id].content in s.cache)
  {
    if kind.Some? {
      var r := s.reactions[id];
      var changed := r.(kind := kind.value);
      var u := Update(s, id, userId, kind).value;
      if kind.value == "" && r.kind != "" && r.content in s.cache {
        RecountReplace(s.reactions, id, changed, r.content, "");
        assert Get(u.cache[r.content], "") != Recount(u.reactions, r.content, "");
      } else {
        forall c, k | c in u.cache
          ensures Get(u.cache[c], k) == Recount(u.reactions, c, k)
        {
          RecountReplace(s.reactions, id, changed, c, k);
          RecountReplace(s.reactions, id, r, r.content, r.kind);
        }
      }
    }
  }

  lemma FillAgrees(s: State, content: Content)
    requires Agrees(s)
    ensures Agrees(Fill(s, content))
    ensures content in Fill(s, content).cache
  {
    var u := Fill(s, content);
    forall c, k | c in u.cache
      ensures Get(u.cache[c], k) == Recount(u.reactions, c, k)
    {
      GroupedCountsExact(s.reactions, content, k);
    }
  }

  // ---------------------------------------------------------------- runs

  datatype Call =
    | CallCreate(userId: string, content: Content, kind: string)
    | CallUpdate(id: nat, userId: string, newKind: Option<string>)
    | CallRemove(id: nat, userId: string)
    | CallMetrics(content: Content)
    | Expire(content: Content)

  function Step(s: State, call: Call): State {
    var r := Attempt(s, call);
    if r.Ok? then r.value else s
  }

  /** No row, deleted or not, stands where the user's reaction of this type would. */
  ghost predicate Free(s: State, userId: string, content: Content, kind: string) {
    forall r :: r in s.reactions ==> !(r.content == content && r.creatorId == userId && r.kind == kind)
  }

  /** A type is reacted with once and for all; only its author changes or removes a reaction that is not deleted. */
  ghost predicate Allowed(s: State, call: Call) {
    match call
    case CallCreate(userId, content, kind) => Free(s, userId, content, kind)
    case CallUpdate(id, userId, newKind) =>
      && id < |s.reactions| && s.reactions[id].creatorId == userId && !s.reactions[id].isDeleted
      && (newKind.Some? && newKind.value != s.reactions[id].kind ==>
            Free(s, userId, s.reactions[id].content, newKind.value))
    case CallRemove(id, userId) =>
      id < |s.reactions| && s.reactions[id].creatorId == userId && !s.reactions[id].isDeleted
    case _ => true
  }

  /** The rows a call leaves: one more, one of another type, or one deleted. */
  ghost predicate RowEffect(rs: seq<Reaction>, call: Call, after: seq<Reaction>) {
    match call
    case CallCreate(userId, content, kind) =>
      && |after| == |rs| + 1 && after[..|rs|] == rs
      && after[|rs|].content == content && after[|rs|].creatorId == userId && after[|rs|].kind == kind
      && !after[|rs|].isDeleted
    case CallUpdate(id, userId, newKind) =>
      && |after| == |rs|
      && forall i :: 0 <= i < |rs| ==>
           after[i] == if i == id && newKind.Some? then rs[i].(kind := newKind.value) else rs[i]
    case CallRemove(id, userId) =>
      |after| == |rs| && forall i :: 0 <= i < |rs| ==> after[i] == if i == id then rs[i].(isDeleted := true) else rs[i]
    case _ => after == rs
  }

  /** Only reading puts a count into the cache, and only expiry takes one out. */
  ghost predicate KeysEffect(cache: map<Content, Counts>, call: Call, after: map<Content, Counts>) {
    match call
    case CallMetrics(content) => after.Keys == cache.Keys + {content}
    case Expire(content) => after.Keys == cache.Keys - {content}
    case _ => after.Keys == cache.Keys
  }

  function Attempt(s: State, call: Call): Result<State, ReactionError> {
    match call
    case CallCreate(userId, content, kind) => Create(s, userId, content, kind)
    case CallUpdate(id, userId, newKind) => Update(s, id, userId, newKind)
    case CallRemove(id, userId) => Remove(s, id, userId)
    case CallMetrics(content) => Ok(Fill(s, content))
    case Expire(content) => Ok(Evict(s, content))
  }

  /** Every call succeeds exactly when it is allowed, leaves exactly its effect, and changes nothing otherwise. */
  lemma CallRule(s: State, call: Call)
    ensures Attempt(s, call).Ok? <==> Allowed(s, call)
    ensures if Allowed(s, call) then RowEffect(s.reactions, call, Step(s, call).reactions) else Step(s, call) == s
    ensures KeysEffect(s.cache, call, Step(s, call).cache)
  {
    match call
    case CallCreate(userId, content, kind) => TakenIff(s, userId, content, kind);
    case CallUpdate(id, userId, newKind) =>
      if newKind.Some? && id < |s.reactions| {
        TakenIff(s, userId, s.reactions[id].content, newKind.value);
      }
    case _ =>
  }

  lemma TakenIff(s: State, userId: string, content: Content, kind: string)
    ensures Taken(s.reactions, content, userId, kind) <==> !Free(s, userId, content, kind)
  {
    if Taken(s.reactions, content, userId, kind) {
      var i :| 0 <= i < |s.reactions| && s.reactions[i].content == content && s.reactions[i].creatorId == userId
               && s.reactions[i].kind == kind;
      assert s.reactions[i] in s.reactions;
    }
  }

  function Run(calls: seq<Call>): State {
    if calls == [] then State([], map[]) else Step(Run(calls[..|calls| - 1]), calls[|calls| - 1])
  }

  /** In any run whose updates carry no empty type, whatever is cached agrees with recounting. */
  lemma {:induction false} RunAgrees(calls: seq<Call>)
    requires forall i :: 0 <= i < |calls| && calls[i].CallUpdate? ==> calls[i].newKind != Some("")
    ensures Agrees(Run(calls))
  {
    if calls != [] {
      RunAgrees(calls[..|calls| - 1]);
      var s := Run(calls[..|calls| - 1]);
      match calls[|calls| - 1] {
        case CallCreate(userId, content, kind) =>
          if Create(s, userId, content, kind).Ok? { CreateAgrees(s, userId, content, kind); }
        case CallUpdate(id, userId, newKind) =>
          if Update(s, id, userId, newKind).Ok? { UpdateAgreesIff(s, id, userId, newKind); }
        case CallRemove(id, userId) =>
          if Remove(s, id, userId).Ok? { RemoveAgrees(s, id, userId); }
        case CallMetrics(content) => FillAgrees(s, content);
        case Expire(content) =>
      }
    }
  }

  // ---------------------------------------------------------------- the two services

  class Reactions {
    var reactions: seq<Reaction>
    var cache: map<Content, Counts>

    ghost function Value(): State
      reads this
    {
      State(reactions, cache)
    }

    method CreateReaction(userId: string, content: Content, kind: string) returns (r: Result<nat, ReactionError>)
      modifies this
      ensures Value() == Step(old(Value()), CallCreate(userId, content, kind))
      ensures r == if Allowed(old(Value()), CallCreate(userId, content, kind)) then Ok(|old(reactions)|)
                   else Err(AlreadyExists)
      ensures r.Ok? ==> RowEffect(old(reactions), CallCreate(userId, content, kind), reactions)
      ensures r.Err? ==> Value() == old(Value())
      ensures old(Agrees(Value())) ==> Agrees(Value())
    {
      CallRule(Value(), CallCreate(userId, content, kind));
      if old(Agrees(Value())) && Create(Value(), userId, content, kind).Ok? {
        CreateAgrees(Value(), userId, content, kind);
      }
      for i := 0 to |reactions|
        invariant Value() == old(Value())
        invariant forall j :: 0 <= j < i ==>
                    !(reactions[j].content == content && reactions[j].creatorId == userId && reactions[j].kind == kind)
      {
        if reactions[i].content == content && reactions[i].creatorId == userId && reactions[i].kind == kind {
          return Err(AlreadyExists);
        }
      }
      r := Ok(|reactions|);
      reactions := reactions + [Reaction(content, userId, kind, false)];
      IncrementReactionCount(content, kind);
    }

    method UpdateReaction(id: nat, userId: string, kind: Option<string>) returns (r: Result<(), ReactionError>)
      modifies this
      ensures Value() == Step(old(Value()), CallUpdate(id, userId, kind))
      ensures r.Ok? <==> Allowed(old(Value()), CallUpdate(id, userId, kind))
      ensures if r.Ok? then RowEffect(old(reactions), CallUpdate(id, userId, kind), reactions)
              else Value() == old(Value())
      ensures old(Agrees(Value())) && kind != Some("") ==> Agrees(Value())
    {
      CallRule(Value(), CallUpdate(id, userId, kind));
      if old(Agrees(Value())) && Update(Value(), id, userId, kind).Ok? {
        UpdateAgreesIff(Value(), id, userId, kind);
      }
      if !(id < |reactions| && reactions[id].creatorId == userId && !reactions[id].isDeleted) {
        return Err(NotFoundOrNotYours);
      }
      var reaction := reactions[id];
      if kind.Some? {
        if kind.value != reaction.kind && Taken(reactions, reaction.content, userId, kind.value) {
          return Err(UniqueViolation);
        }
        reactions := reactions[id := reaction.(kind := kind.value)];
        if reaction.kind != kind.value && kind.value != "" {
          DecrementReactionCount(reaction.content, reaction.kind);
          IncrementReactionCount(reaction.content, kind.value);
        }
      }
      return Ok(());
    }

    method RemoveReaction(id: nat, userId: string) returns (r: Result<(), ReactionError>)
      modifies this
      ensures Value() == Step(old(Value()), CallRemove(id, userId))
      ensures r.Ok? <==> Allowed(old(Value()), CallRemove(id, userId))
      ensures if r.Ok? then RowEffect(old(reactions), CallRemove(id, userId), reactions) else Value() == old(Value())
      ensures old(Agrees(Value())) ==> Agrees(Value())
    {
      CallRule(Value(), CallRemove(id, userId));
      if old(Agrees(Value())) && Owned(Value(), id, userId) {
        RemoveAgrees(Value(), id, userId);
      }
      if !(id < |reactions| && reactions[id].creatorId == userId && !reactions[id].isDeleted) {
        return Err(NotFoundOrNotYours);
      }
      var reaction := reactions[id];
      reactions := reactions[id := reaction.(isDeleted := true)];
      DecrementReactionCount(reaction.content, reaction.kind);
      return Ok(());
    }

    /** The reaction part of getMetrics: every type, cached or not yet, gets the count of the table. */
    method GetMetrics(content: Content) returns (counts: Counts)
      modifies this`cache
      ensures Value() == Fill(old(Value()), content)
      ensures counts == cache[content]
      ensures old(Agrees(Value())) ==> forall kind :: Get(counts, kind) == Recount(reactions, content, kind)
    {
      if old(Agrees(Value())) {
        FillAgrees(Value(), content);
      }
      if content in cache {
        counts := cache[content];
      } else {
        counts := GetReactionCounts(content);
        cache := cache[content := counts];
      }
    }

    method GetReactionCounts(content: Content) returns (result: Counts)
      ensures result == GroupedCounts(reactions, content)
    {
      var kinds := set r | r in reactions && r.content == content && !r.isDeleted :: r.kind;
      var groups := kinds;
      result := map[];
      while groups != {}
        invariant groups <= kinds
        invariant result == map kind | kind in kinds - groups :: Recount(reactions, content, kind)
        decreases |groups|
      {
        var kind :| kind in groups;
        result := result[kind := Recount(reactions, content, kind)];
        groups := groups - {kind};
      }
    }

    method IncrementReactionCount(content: Content, kind: string)
      modifies this`cache
      ensures cache == Increment(old(cache), content, kind)
      ensures cache.Keys == old(cache.Keys)
      ensures forall c, k :: c in cache ==>
                Get(cache[c], k) == Get(old(cache)[c], k) + if c == content && k == kind then 1 else 0
    {
      if content in cache {
        var metrics := cache[content];
        if kind !in metrics || metrics[kind] == 0 {
          metrics := metrics[kind := 0];
        }
        metrics := metrics[kind := metrics[kind] + 1];
        assert metrics == cache[content][kind := Get(cache[content], kind) + 1];
        cache := cache[content := metrics];
      }
    }

    method DecrementReactionCount(content: Content, kind: string)
      modifies this`cache
      ensures cache == Decrement(old(cache), content, kind)
      ensures cache.Keys == old(cache.Keys)
      ensures forall c, k :: c in cache ==>
                Get(cache[c], k) == if c == content && k == kind && Get(old(cache)[c], k) > 0
                                    then Get(old(cache)[c], k) - 1 else Get(old(cache)[c], k)
    {
      if content in cache {
        var metrics := cache[content];
        if kind in metrics && metrics[kind] > 0 {
          metrics := metrics[kind := metrics[kind] - 1];
        }
        cache := cache[content := metrics];
      }
    }
  }
}
