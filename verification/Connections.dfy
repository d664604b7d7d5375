/** Social connections: the tables of connections and blocks, the queries over them, the cache of
    query answers, and every call of the connection service as one step on that state. */
module Connections {
  import opened Sequences

  type User = string

  datatype Kind = Friendship | Follow
  datatype Status = Pending | Accepted | Rejected

  datatype Connection = Connection(
    id: nat, requesterId: User, addresseeId: User, kind: Kind, status: Status,
    strength: real, isFavorite: bool, createdAt: int)

  datatype Block = Block(userId: User, blockedId: User, reason: string)

  datatype Profile = Profile(username: string, displayName: string)

  datatype SortField = ByCreatedAt | ByStrength

  datatype Query = Query(
    kind: Option<Kind>, status: Option<Status>, search: string,
    sortBy: SortField, ascending: bool, limit: nat, offset: nat)

  datatype Error =
    | UserNotFound | SelfConnection | BlockedPair | AlreadyConnected | AlreadyPending
    | ConnectionNotFound | NotRecipient | NotPending | AccessDenied
    | SelfBlock | AlreadyBlocked | BlockNotFound

  /** Cache keys; the first user is the one whose invalidation removes the entry. */
  datatype Key =
    | KConnections(user: User, query: Query)
    | KRequests(user: User)
    | KFriends(user: User)
    | KFollowers(user: User)
    | KFollowing(user: User)
    | KBlocked(user: User)
    | KStats(user: User)
    | KMutual(user: User, other: User)

  datatype Value =
    | VRows(rows: seq<Connection>)
    | VPage(rows: seq<Connection>, count: nat)
    | VBlocks(blocks: seq<Block>)
    | VStats(totalFriends: nat, totalFollowers: nat, totalFollowing: nat, pendingRequests: nat)

  datatype State = State(
    users: map<User, Profile>, connections: seq<Connection>, blocks: seq<Block>, cache: map<Key, Value>, nextId: nat)

  // ---------------------------------------------------------------- queries

  predicate Touches(c: Connection, u: User) {
    c.requesterId == u || c.addresseeId == u
  }

  predicate Between(c: Connection, u: User, v: User) {
    (c.requesterId == u && c.addresseeId == v) || (c.requesterId == v && c.addresseeId == u)
  }

  function OtherEnd(c: Connection, u: User): User {
    if c.requesterId == u then c.addresseeId else c.requesterId
  }

  predicate IsRequestFor(c: Connection, u: User) {
    c.addresseeId == u && c.status == Pending && c.kind == Friendship
  }

  predicate IsFriendship(c: Connection, u: User) {
    Touches(c, u) && c.kind == Friendship && c.status == Accepted
  }

  predicate IsFollower(c: Connection, u: User) {
    c.addresseeId == u && c.kind == Follow && c.status == Accepted
  }

  predicate IsFollowing(c: Connection, u: User) {
    c.requesterId == u && c.kind == Follow && c.status == Accepted
  }

  function Friends(cs: seq<Connection>, u: User): seq<Connection> {
    Filter(cs, (c: Connection) => IsFriendship(c, u))
  }

  function FriendIds(cs: seq<Connection>, u: User): set<User> {
    set c | c in Friends(cs, u) :: OtherEnd(c, u)
  }

  /** The friendships of `u` with people among `ids`. */
  function Common(friends: seq<Connection>, u: User, ids: set<User>): seq<Connection> {
    Filter(friends, (c: Connection) => OtherEnd(c, u) in ids)
  }

  function CountConnections(cs: seq<Connection>, u: User, kind: Kind, status: Status): nat {
    |Filter(cs, (c: Connection) => Touches(c, u) && c.kind == kind && c.status == status)|
  }

  /** ILIKE '%search%' on the two names. */
  predicate NameMatches(users: map<User, Profile>, u: User, search: string) {
    u in users && (IncludesIgnoreCase(users[u].username, search) || IncludesIgnoreCase(users[u].displayName, search))
  }

  predicate Selected(users: map<User, Profile>, q: Query, u: User, c: Connection) {
    && Touches(c, u)
    && (q.kind.Some? ==> c.kind == q.kind.value)
    && (q.status.Some? ==> c.status == q.status.value)
    && (q.search != "" ==> NameMatches(users, c.requesterId, q.search) || NameMatches(users, c.addresseeId, q.search))
  }

  function SortKey(q: Query, c: Connection): real {
    var k := if q.sortBy == ByCreatedAt then c.createdAt as real else c.strength;
    if q.ascending then k else -k
  }

  function Window<T>(s: seq<T>, offset: nat, limit: nat): seq<T> {
    if offset >= |s| then [] else if offset + limit >= |s| then s[offset..] else s[offset..offset + limit]
  }

  /** What the database answers to the query a key stands for. */
  function Answer(s: State, key: Key): Value {
    var cs := s.connections;
    match key
    case KConnections(u, q) =>
      var found := Filter(cs, (c: Connection) => Selected(s.users, q, u, c));
      VPage(Window(SortBy(found, (a: Connection, b: Connection) => SortKey(q, a) < SortKey(q, b)), q.offset, q.limit),
            |found|)
    case KRequests(u) => VRows(Filter(cs, (c: Connection) => IsRequestFor(c, u)))
    case KFriends(u) => VRows(Friends(cs, u))
    case KFollowers(u) => VRows(Filter(cs, (c: Connection) => IsFollower(c, u)))
    case KFollowing(u) => VRows(Filter(cs, (c: Connection) => IsFollowing(c, u)))
    case KBlocked(u) => VBlocks(Filter(s.blocks, (b: Block) => b.userId == u))
    case KStats(u) =>
      VStats(CountConnections(cs, u, Friendship, Accepted), CountConnections(cs, u, Follow, Accepted),
             CountConnections(cs, u, Follow, Accepted), CountConnections(cs, u, Friendship, Pending))
    case KMutual(u, o) => VRows(Common(Friends(cs, u), u, FriendIds(cs, o)))
  }

  /** Index of the first row that satisfies a condition. */
  function IndexOf<T>(s: seq<T>, p: T -> bool): (r: Option<nat>)
    ensures r.Some? ==> r.value < |s| && p(s[r.value])
    ensures r.None? ==> forall x :: x in s ==> !p(x)
  {
    if s == [] then None
    else if p(s[0]) then Some(0)
    else
      var r := IndexOf(s[1..], p);
      if r.None? then
        assert s == [s[0]] + s[1..];
        None
      else Some(r.value + 1)
  }

  function FindById(cs: seq<Connection>, id: nat): (r: Option<nat>)
    ensures r.Some? ==> r.value < |cs| && cs[r.value].id == id
  {
    IndexOf(cs, (c: Connection) => c.id == id)
  }

  function FindBetween(cs: seq<Connection>, u: User, v: User): (r: Option<nat>)
    ensures r.Some? ==> r.value < |cs| && Between(cs[r.value], u, v)
  {
    IndexOf(cs, (c: Connection) => Between(c, u, v))
  }

  function FindBlock(bs: seq<Block>, u: User, v: User): (r: Option<nat>)
    ensures r.Some? ==> r.value < |bs| && bs[r.value].userId == u && bs[r.value].blockedId == v
  {
    IndexOf(bs, (b: Block) => b.userId == u && b.blockedId == v)
  }

  predicate IsBlocked(bs: seq<Block>, u: User, v: User) {
    exists b :: b in bs && ((b.userId == u && b.blockedId == v) || (b.userId == v && b.blockedId == u))
  }

  // ---------------------------------------------------------------- writing

  /** Deleting every key that starts with the user's name in one of the eight key families. */
  function Invalidate(cache: map<Key, Value>, u: User): map<Key, Value> {
    map key | key in cache && key.user != u :: cache[key]
  }

  function InvalidateBoth(s: State, u: User, v: User): State {
    s.(cache := Invalidate(Invalidate(s.cache, u), v))
  }

  function Without<T>(s: seq<T>, i: nat): seq<T>
    requires i < |s|
  {
    s[..i] + s[i + 1..]
  }

  /** One row rewritten in place, then both its ends invalidated. */
  function Rewrite(s: State, i: nat, c: Connection): State
    requires i < |s.connections|
  {
    InvalidateBoth(s.(connections := s.connections[i := c]), c.requesterId, c.addresseeId)
  }

  function Accept(s: State, id: nat, u: User): Result<State, Error> {
    var i := FindById(s.connections, id);
    if i.None? then Err(ConnectionNotFound)
    else
      var c := s.connections[i.value];
      if c.addresseeId != u then Err(NotRecipient)
      else if c.status != Pending then Err(NotPending)
      else Ok(Rewrite(s, i.value, c.(status := Accepted)))
  }

  function Reject(s: State, id: nat, u: User): Result<State, Error> {
    var i := FindById(s.connections, id);
    if i.None? then Err(ConnectionNotFound)
    else
      var c := s.connections[i.value];
      if c.addresseeId != u then Err(NotRecipient)
      else if c.status != Pending then Err(NotPending)
      else Ok(Rewrite(s, i.value, c.(status := Rejected)))
  }

  function Create(s: State, u: User, v: User, kind: Kind, now: int): Result<State, Error> {
    if u !in s.users || v !in s.users then Err(UserNotFound)
    else if u == v then Err(SelfConnection)
    else if IsBlocked(s.blocks, u, v) then Err(BlockedPair)
    else
      var i := FindBetween(s.connections, u, v);
      if i.Some? then
        var c := s.connections[i.value];
        if c.status == Accepted then Err(AlreadyConnected)
        else if c.requesterId == v && c.status == Pending && kind == Friendship then Accept(s, c.id, u)
        else Err(AlreadyPending)
      else
        var c := Connection(s.nextId, u, v, kind, if kind == Follow then Accepted else Pending, 0.0, false, now);
        Ok(InvalidateBoth(s.(connections := s.connections + [c], nextId := s.nextId + 1), u, v))
  }

  function UpdateConnection(s: State, id: nat, u: User, status: Option<Status>,
                            isFavorite: Option<bool>): Result<State, Error> {
    var i := FindById(s.connections, id);
    if i.None? then Err(ConnectionNotFound)
    else
      var c := s.connections[i.value];
      if !Touches(c, u) then Err(AccessDenied)
      else if status.Some? && c.addresseeId != u then Err(NotRecipient)
      else if status.Some? && c.status != Pending then Err(NotPending)
      else
        Ok(Rewrite(s, i.value,
          c.(status := if status.Some? then status.value else c.status,
             isFavorite := if isFavorite.Some? then isFavorite.value else c.isFavorite)))
  }

  function RemoveConnection(s: State, id: nat, u: User): Result<State, Error> {
    var i := FindById(s.connections, id);
    if i.None? then Err(ConnectionNotFound)
    else
      var c := s.connections[i.value];
      if !Touches(c, u) then Err(AccessDenied)
      else Ok(InvalidateBoth(s.(connections := Without(s.connections, i.value)), c.requesterId, c.addresseeId))
  }

  function BlockUser(s: State, u: User, v: User, reason: string): Result<State, Error> {
    if u == v then Err(SelfBlock)
    else if u !in s.users || v !in s.users then Err(UserNotFound)
    else if FindBlock(s.blocks, u, v).Some? then Err(AlreadyBlocked)
    else
      var i := FindBetween(s.connections, u, v);
      Ok(InvalidateBoth(
        s.(blocks := s.blocks + [Block(u, v, reason)],
           connections := if i.Some? then Without(s.connections, i.value) else s.connections), u, v))
  }

  function UnblockUser(s: State, u: User, v: User): Result<State, Error> {
    if FindBlock(s.blocks, u, v).None? then Err(BlockNotFound)
    else
      Ok(InvalidateBoth(s.(blocks := Filter(s.blocks, (b: Block) => !(b.userId == u && b.blockedId == v))), u, v))
  }

  function Strengthened(c: Connection, interactions: real): Connection {
    var raised := c.strength + interactions * 0.1;
    c.(strength := if raised < 100.0 then raised else 100.0)
  }

  function UpdateStrength(s: State, id: nat, interactions: real): Result<State, Error> {
    var i := FindById(s.connections, id);
    if i.None? then Err(ConnectionNotFound)
    else Ok(Rewrite(s, i.value, Strengthened(s.connections[i.value], interactions)))
  }

  function CalculateStrength(s: State, u: User, v: User, interactions: real): State {
    var i := FindBetween(s.connections, u, v);
    if i.None? then s
    else
      var c := Strengthened(s.connections[i.value], interactions);
      InvalidateBoth(s.(connections := s.connections[i.value := c]), u, v)
  }

  /** Every getter: answer from the cache, or query and remember. */
  function Read(s: State, key: Key): State {
    if key in s.cache then s else s.(cache := s.cache[key := Answer(s, key)])
  }

  // ---------------------------------------------------------------- runs

  datatype Call =
    | CallCreate(u: User, v: User, kind: Kind, now: int)
    | CallAccept(id: nat, u: User)
    | CallReject(id: nat, u: User)
    | CallUpdate(id: nat, u: User, status: Option<Status>, isFavorite: Option<bool>)
    | CallRemove(id: nat, u: User)
    | CallBlock(u: User, v: User, reason: string)
    | CallUnblock(u: User, v: User)
    | CallStrength(id: nat, interactions: real)
    | CallCalculate(u: User, v: User, interactions: real)
    | CallRead(key: Key)
    | Expire(key: Key)

  function Attempt(s: State, call: Call): Result<State, Error> {
    match call
    case CallCreate(u, v, kind, now) => Create(s, u, v, kind, now)
    case CallAccept(id, u) => Accept(s, id, u)
    case CallReject(id, u) => Reject(s, id, u)
    case CallUpdate(id, u, status, isFavorite) => UpdateConnection(s, id, u, status, isFavorite)
    case CallRemove(id, u) => RemoveConnection(s, id, u)
    case CallBlock(u, v, reason) => BlockUser(s, u, v, reason)
    case CallUnblock(u, v) => UnblockUser(s, u, v)
    case CallStrength(id, interactions) => UpdateStrength(s, id, interactions)
    case CallCalculate(u, v, interactions) => Ok(CalculateStrength(s, u, v, interactions))
    case CallRead(key) => Ok(Read(s, key))
    case Expire(key) => Ok(s.(cache := s.cache - {key}))
  }

  /** A failing call throws before it has written anything. */
  function Step(s: State, call: Call): State {
    var r := Attempt(s, call);
    if r.Ok? then r.value else s
  }

  function Run(users: map<User, Profile>, calls: seq<Call>): State {
    if calls == [] then State(users, [], [], map[], 0)
    else Step(Run(users, calls[..|calls| - 1]), calls[|calls| - 1])
  }
}
