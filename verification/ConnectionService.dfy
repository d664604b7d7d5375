/** The connection service itself: each call reads and writes the tables and the cache step by step. */
module ConnectionService {
  import opened Sequences
  import opened Connections
  import opened ConnectionSafety
  import opened ConnectionAnswers
  import opened ConnectionCoherence
  import opened ConnectionRules

  /** The eight key patterns an invalidation goes through. */
  datatype Family = FConnections | FRequests | FFriends | FFollowers | FFollowing | FBlocked | FMutual | FStats

  function FamilyOf(key: Key): Family {
    match key
    case KConnections(_, _) => FConnections
    case KRequests(_) => FRequests
    case KFriends(_) => FFriends
    case KFollowers(_) => FFollowers
    case KFollowing(_) => FFollowing
    case KBlocked(_) => FBlocked
    case KStats(_) => FStats
    case KMutual(_, _) => FMutual
  }

  class Service {
    const users: map<User, Profile>
    var connections: seq<Connection>
    var blocks: seq<Block>
    var cache: map<Key, Value>
    var nextId: nat

    ghost function Current(): State
      reads this
    {
      State(users, connections, blocks, cache, nextId)
    }

    /** What every call keeps. */
    ghost predicate Valid()
      reads this
    {
      Safe(Current()) && Coherent(Current())
    }

    constructor (users: map<User, Profile>)
      ensures Current() == Run(users, []) && Valid()
    {
      this.users := users;
      connections, blocks, cache, nextId := [], [], map[], 0;
    }

    twostate lemma Keeps(call: Call)
      requires old(Valid()) && Current() == Step(old(Current()), call)
      ensures Valid()
    {
      StepSafe(old(Current()), call);
      StepCoherent(old(Current()), call);
    }

    method InvalidateConnectionCache(u: User)
      modifies this`cache
      ensures cache == Invalidate(old(cache), u)
      ensures forall key :: key in cache <==> key in old(cache) && key.user != u
      ensures forall key :: key in cache ==> cache[key] == old(cache)[key]
    {
      var keys := [FConnections, FRequests, FFriends, FFollowers, FFollowing, FBlocked, FMutual, FStats];
      for i := 0 to |keys|
        invariant cache == map key | key in old(cache) && !(key.user == u && FamilyOf(key) in keys[..i]) ::
                    old(cache)[key]
      {
        var matchingKeys := set key | key in cache && key.user == u && FamilyOf(key) == keys[i];
        assert forall f :: f in keys[..i + 1] <==> f in keys[..i] || f == keys[i];
        ghost var rest := cache - matchingKeys;
        assert forall key :: key in rest <==> key in old(cache) && !(key.user == u && FamilyOf(key) in keys[..i + 1]);
        if |matchingKeys| > 0 {
          cache := cache - matchingKeys;
        }
        assert cache == rest;
      }
      assert keys[..|keys|] == keys;
      assert forall key: Key :: FamilyOf(key) in keys;
    }

    method CreateConnection(u: User, v: User, kind: Kind, now: int) returns (r: Result<Connection, Error>)
      requires Valid()
      modifies this
      ensures Current() == Step(old(Current()), CallCreate(u, v, kind, now)) && Valid()
      ensures Outcome(old(Current()), CallCreate(u, v, kind, now), Current(), r)
      ensures r.Ok? ==> r.value in connections && Between(r.value, u, v)
      ensures r.Ok? && Strangers(old(Current()), u, v) ==>
                r.value.kind == kind && r.value.requesterId == u && (r.value.status == Pending <==> kind == Friendship)
      ensures r.Ok? && !Strangers(old(Current()), u, v) ==>
                r.value.status == Accepted && r.value.requesterId == v && Asked(old(Current()), v, u)
    {
      CreateRule(Current(), u, v, kind, now);
      CreateRefused(Current(), u, v, kind, now);
      if u !in users || v !in users {
        return Err(UserNotFound);
      }
      if u == v {
        return Err(SelfConnection);
      }
      var blocked := IsBlocked(blocks, u, v);
      if blocked {
        return Err(BlockedPair);
      }
      var existing := FindBetween(connections, u, v);
      if existing.Some? {
        var c := connections[existing.value];
        if c.status == Accepted {
          return Err(AlreadyConnected);
        }
        AutoAcceptSucceeds(Current(), u, v, kind, now);
        if c.requesterId == v && c.status == Pending && kind == Friendship {
          FoundById(connections, existing.value);
          r := AcceptConnection(c.id, u);
          return;
        }
        return Err(AlreadyPending);
      }
      var created := Connection(nextId, u, v, kind, if kind == Follow then Accepted else Pending, 0.0, false, now);
      connections := connections + [created];
      nextId := nextId + 1;
      InvalidateConnectionCache(u);
      InvalidateConnectionCache(v);
      Keeps(CallCreate(u, v, kind, now));
      return Ok(created);
    }

    method AcceptConnection(id: nat, u: User) returns (r: Result<Connection, Error>)
      requires Valid()
      modifies this
      ensures Current() == Step(old(Current()), CallAccept(id, u)) && Valid()
      ensures Outcome(old(Current()), CallAccept(id, u), Current(), r)
      ensures r.Ok? ==> r.value in connections && r.value.id == id
      ensures r.Ok? ==> r.value.addresseeId == u && r.value.status == Accepted
      ensures r.Ok? ==> exists c :: c in old(connections) && c.id == id && r.value == c.(status := Accepted)
    {
      Verdict(Current(), CallAccept(id, u));
      var found := FindById(connections, id);
      if found.None? {
        return Err(ConnectionNotFound);
      }
      var connection := connections[found.value];
      if connection.addresseeId != u {
        return Err(NotRecipient);
      }
      if connection.status != Pending {
        return Err(NotPending);
      }
      assert connection in connections;
      var updated := connection.(status := Accepted);
      connections := connections[found.value := updated];
      InvalidateConnectionCache(connection.requesterId);
      InvalidateConnectionCache(connection.addresseeId);
      Keeps(CallAccept(id, u));
      assert connections[found.value] == updated;
      return Ok(updated);
    }

    method RejectConnection(id: nat, u: User) returns (r: Result<Connection, Error>)
      requires Valid()
      modifies this
      ensures Current() == Step(old(Current()), CallReject(id, u)) && Valid()
      ensures Outcome(old(Current()), CallReject(id, u), Current(), r)
      ensures r.Ok? ==> r.value in connections && r.value.id == id && r.value.status == Rejected
      ensures r.Ok? ==> exists c :: c in old(connections) && c.id == id && r.value == c.(status := Rejected)
    {
      Verdict(Current(), CallReject(id, u));
      var found := FindById(connections, id);
      if found.None? {
        return Err(ConnectionNotFound);
      }
      var connection := connections[found.value];
      if connection.addresseeId != u {
        return Err(NotRecipient);
      }
      if connection.status != Pending {
        return Err(NotPending);
      }
      var updated := connection.(status := Rejected);
      connections := connections[found.value := updated];
      InvalidateConnectionCache(connection.requesterId);
      InvalidateConnectionCache(connection.addresseeId);
      Keeps(CallReject(id, u));
      assert connections[found.value] == updated;
      return Ok(updated);
    }

    method UpdateConnection(id: nat, u: User, status: Option<Status>, isFavorite: Option<bool>)
      returns (r: Result<Connection, Error>)
      requires Valid()
      modifies this
      ensures Current() == Step(old(Current()), CallUpdate(id, u, status, isFavorite)) && Valid()
      ensures Outcome(old(Current()), CallUpdate(id, u, status, isFavorite), Current(), r)
      ensures r.Ok? ==> r.value in connections && r.value.id == id
      ensures r.Ok? ==> exists c :: c in old(connections) && c.id == id
                                    && r.value == Changed(c, CallUpdate(id, u, status, isFavorite))
    {
      UpdateRule(Current(), id, u, status, isFavorite);
      UpdateRefused(Current(), id, u, status, isFavorite);
      var found := FindById(connections, id);
      if found.None? {
        return Err(ConnectionNotFound);
      }
      var connection := connections[found.value];
      if !Touches(connection, u) {
        return Err(AccessDenied);
      }
      var updated := connection;
      if status.Some? {
        if connection.addresseeId != u {
          return Err(NotRecipient);
        }
        if connection.status != Pending {
          return Err(NotPending);
        }
        updated := updated.(status := status.value);
        connections := connections[found.value := updated];
      }
      if isFavorite.Some? {
        updated := updated.(isFavorite := isFavorite.value);
        connections := connections[found.value := updated];
      }
      assert connections == old(connections)[found.value := updated];
      InvalidateConnectionCache(connection.requesterId);
      InvalidateConnectionCache(connection.addresseeId);
      Keeps(CallUpdate(id, u, status, isFavorite));
      assert connections[found.value] == updated;
      return Ok(updated);
    }

    method RemoveConnection(id: nat, u: User) returns (r: Result<(), Error>)
      requires Valid()
      modifies this
      ensures Current() == Step(old(Current()), CallRemove(id, u)) && Valid()
      ensures Outcome(old(Current()), CallRemove(id, u), Current(), r)
    {
      Verdict(Current(), CallRemove(id, u));
      var found := FindById(connections, id);
      if found.None? {
        return Err(ConnectionNotFound);
      }
      var connection := connections[found.value];
      if !Touches(connection, u) {
        return Err(AccessDenied);
      }
      connections := Without(connections, found.value);
      InvalidateConnectionCache(connection.requesterId);
      InvalidateConnectionCache(connection.addresseeId);
      Keeps(CallRemove(id, u));
      return Ok(());
    }

    method BlockUser(u: User, v: User, reason: string) returns (r: Result<Block, Error>)
      requires Valid()
      modifies this
      ensures Current() == Step(old(Current()), CallBlock(u, v, reason)) && Valid()
      ensures Outcome(old(Current()), CallBlock(u, v, reason), Current(), r)
      ensures r.Ok? ==> r.value == Block(u, v, reason) && r.value in blocks
      ensures r.Ok? ==> forall c :: c in connections ==> !Between(c, u, v)
    {
      Verdict(Current(), CallBlock(u, v, reason));
      if u == v {
        return Err(SelfBlock);
      }
      if u !in users || v !in users {
        return Err(UserNotFound);
      }
      var existing := FindBlock(blocks, u, v);
      if existing.Some? {
        return Err(AlreadyBlocked);
      }
      var created := Block(u, v, reason);
      blocks := blocks + [created];
      var between := FindBetween(connections, u, v);
      if between.Some? {
        connections := Without(connections, between.value);
      }
      InvalidateConnectionCache(u);
      InvalidateConnectionCache(v);
      Keeps(CallBlock(u, v, reason));
      assert created in blocks;
      BlockedApart(Current(), created);
      return Ok(created);
    }

    method UnblockUser(u: User, v: User) returns (r: Result<(), Error>)
      requires Valid()
      modifies this
      ensures Current() == Step(old(Current()), CallUnblock(u, v)) && Valid()
      ensures Outcome(old(Current()), CallUnblock(u, v), Current(), r)
    {
      Verdict(Current(), CallUnblock(u, v));
      var existing := FindBlock(blocks, u, v);
      if existing.None? {
        return Err(BlockNotFound);
      }
      assert blocks[existing.value] in blocks;
      blocks := Filter(blocks, (b: Block) => !(b.userId == u && b.blockedId == v));
      InvalidateConnectionCache(u);
      InvalidateConnectionCache(v);
      Keeps(CallUnblock(u, v));
      return Ok(());
    }

    method UpdateConnectionStrength(id: nat, interactions: real) returns (r: Result<Connection, Error>)
      requires Valid()
      modifies this
      ensures Current() == Step(old(Current()), CallStrength(id, interactions)) && Valid()
      ensures Outcome(old(Current()), CallStrength(id, interactions), Current(), r)
      ensures r.Ok? ==> r.value in connections && r.value.id == id && r.value.strength <= 100.0
      ensures r.Ok? ==> exists c :: c in old(connections) && c.id == id && r.value == Strengthened(c, interactions)
    {
      Verdict(Current(), CallStrength(id, interactions));
      var found := FindById(connections, id);
      if found.None? {
        return Err(ConnectionNotFound);
      }
      var connection := connections[found.value];
      var updated := Strengthened(connection, interactions);
      connections := connections[found.value := updated];
      InvalidateConnectionCache(connection.requesterId);
      InvalidateConnectionCache(connection.addresseeId);
      Keeps(CallStrength(id, interactions));
      assert connections[found.value] == updated;
      return Ok(updated);
    }

    method CalculateConnectionStrength(u: User, v: User, interactions: real) returns (strength: real)
      requires Valid()
      modifies this
      ensures Current() == Step(old(Current()), CallCalculate(u, v, interactions)) && Valid()
      ensures Outcome<()>(old(Current()), CallCalculate(u, v, interactions), Current(), Ok(()))
      ensures strength <= 100.0
      ensures var between := FindBetween(old(connections), u, v);
              strength == if between.None? then 0.0
                          else Strengthened(old(connections)[between.value], interactions).strength
    {
      Verdict(Current(), CallCalculate(u, v, interactions));
      var between := FindBetween(connections, u, v);
      if between.None? {
        return 0.0;
      }
      var updated := Strengthened(connections[between.value], interactions);
      connections := connections[between.value := updated];
      InvalidateConnectionCache(u);
      InvalidateConnectionCache(v);
      Keeps(CallCalculate(u, v, interactions));
      return updated.strength;
    }

    // ------------------------------------------------------------ cached getters

    /** The shared shape of every getter: what the cache holds, else the query's answer, remembered. */
    method Cached(key: Key) returns (value: Value)
      requires Valid()
      modifies this`cache
      ensures Current() == Step(old(Current()), CallRead(key)) && Valid()
      ensures value == cache[key]
      ensures !key.KMutual? ==> value == Answer(Current(), key) && Means(Current(), key, value)
    {
      AnswerMeans(Current(), key);
      if key in cache {
        value := cache[key];
        return;
      }
      value := RunQuery(key);
      cache := cache[key := value];
      Keeps(CallRead(key));
      AnswerMeans(Current(), key);
    }

    /** Which repository query each key stands for. */
    method RunQuery(key: Key) returns (value: Value)
      requires Safe(Current())
      ensures value == Answer(Current(), key)
      ensures Means(Current(), key, value)
    {
      AnswerMeans(Current(), key);
      match key {
        case KConnections(u, q) =>
          var found := Filter(connections, (c: Connection) => Selected(users, q, u, c));
          var sorted := SortBy(found, (a: Connection, b: Connection) => SortKey(q, a) < SortKey(q, b));
          value := VPage(Window(sorted, q.offset, q.limit), |found|);
        case KRequests(u) => value := VRows(Filter(connections, (c: Connection) => IsRequestFor(c, u)));
        case KFriends(u) => value := VRows(Friends(connections, u));
        case KFollowers(u) => value := VRows(Filter(connections, (c: Connection) => IsFollower(c, u)));
        case KFollowing(u) => value := VRows(Filter(connections, (c: Connection) => IsFollowing(c, u)));
        case KBlocked(u) => value := VBlocks(Filter(blocks, (b: Block) => b.userId == u));
        case KStats(u) =>
          var friends := CountConnections(connections, u, Friendship, Accepted);
          var followers := CountConnections(connections, u, Follow, Accepted);
          var following := CountConnections(connections, u, Follow, Accepted);
          var pending := CountConnections(connections, u, Friendship, Pending);
          value := VStats(friends, followers, following, pending);
        case KMutual(u, o) =>
          var rows := MutualConnections(u, o);
          value := VRows(rows);
      }
    }

    /** Both users' friend lists, the ids they share, and `u`'s connections that lead to one of those. */
    method MutualConnections(u: User, o: User) returns (rows: seq<Connection>)
      ensures rows == Common(Friends(connections, u), u, FriendIds(connections, o))
    {
      ghost var cs := connections;
      var userConnections := Friends(connections, u);
      var userIds := Map(userConnections, (c: Connection) => OtherEnd(c, u));
      var otherConnections := Friends(connections, o);
      var otherIds := Map(otherConnections, (c: Connection) => OtherEnd(c, o));
      var mutualIds := Filter(userIds, (id: User) => id in otherIds);
      rows := Filter(userConnections, (c: Connection) => OtherEnd(c, u) in mutualIds);
      FilterMembers(userIds, (id: User) => id in otherIds);
      forall c | c in userConnections
        ensures OtherEnd(c, u) in mutualIds <==> OtherEnd(c, u) in FriendIds(connections, o)
      {
        var i :| 0 <= i < |userConnections| && userConnections[i] == c;
        assert userIds[i] == OtherEnd(c, u);
        IdsAreSet(otherConnections, o, OtherEnd(c, u));
      }
      FilterExtensional(userConnections, (c: Connection) => OtherEnd(c, u) in mutualIds,
                        (c: Connection) => OtherEnd(c, u) in FriendIds(cs, o));
    }
  }

  lemma BlockedApart(s: State, b: Block)
    requires Safe(s) && b in s.blocks
    ensures forall c :: c in s.connections ==> !Between(c, b.userId, b.blockedId)
  {
    forall c | c in s.connections
      ensures !Between(c, b.userId, b.blockedId)
    {
      assert RowSafe(c, s.blocks, s.nextId);
    }
  }

  lemma IdsAreSet(cs: seq<Connection>, u: User, x: User)
    ensures x in Map(cs, (c: Connection) => OtherEnd(c, u)) <==> x in (set c | c in cs :: OtherEnd(c, u))
  {
    var ids := Map(cs, (c: Connection) => OtherEnd(c, u));
    if x in ids {
      var i :| 0 <= i < |ids| && ids[i] == x;
      assert cs[i] in cs;
    }
    if c :| c in cs && OtherEnd(c, u) == x {
      var i :| 0 <= i < |cs| && cs[i] == c;
      assert ids[i] == x;
    }
  }
}
