/** What the answers of the connection queries mean, said without the queries: which rows they hold, in which order,
    and what the numbers count. */
module ConnectionAnswers {
  import opened Connections
  import opened ConnectionSafety
  import opened ConnectionCoherence
  import opened Sequences

  /** The rows of the table that satisfy p, each as often as the table holds it, and no others. */
  ghost predicate Exactly<T(!new)>(rows: seq<T>, table: seq<T>, p: T -> bool) {
    forall x :: multiset(rows)[x] == if p(x) then multiset(table)[x] else 0
  }

  lemma {:induction false} FilterExactly<T(!new)>(s: seq<T>, p: T -> bool)
    ensures Exactly(Filter(s, p), s, p)
  {
    if s != [] {
      FilterExactly(s[..|s| - 1], p);
      assert s == s[..|s| - 1] + [s[|s| - 1]];
    }
  }

  lemma SameBagExactly<T(!new)>(a: seq<T>, b: seq<T>, table: seq<T>, p: T -> bool)
    requires Exactly(a, table, p) && multiset(a) == multiset(b)
    ensures Exactly(b, table, p)
  {
  }

  ghost predicate NameHas(s: State, u: User, part: string) {
    u in s.users && (Occurs(s.users[u].username, part) || Occurs(s.users[u].displayName, part))
  }

  /** The user's own rows of the kind and status asked for, at one end of which stands a name with the text searched. */
  ghost predicate Wanted(s: State, u: User, q: Query, c: Connection) {
    && (c.requesterId == u || c.addresseeId == u)
    && (q.kind == None || q.kind == Some(c.kind))
    && (q.status == None || q.status == Some(c.status))
    && (q.search == "" || NameHas(s, c.requesterId, q.search) || NameHas(s, c.addresseeId, q.search))
  }

  /** Row a may be listed before row b. */
  predicate InOrder(q: Query, a: Connection, b: Connection) {
    match (q.sortBy, q.ascending)
    case (ByCreatedAt, true) => a.createdAt <= b.createdAt
    case (ByCreatedAt, false) => a.createdAt >= b.createdAt
    case (ByStrength, true) => a.strength <= b.strength
    case (ByStrength, false) => a.strength >= b.strength
  }

  lemma SelectedIff(s: State, u: User, q: Query, c: Connection)
    ensures Selected(s.users, q, u, c) <==> Wanted(s, u, q, c)
  {
    forall x | x in s.users
      ensures NameMatches(s.users, x, q.search) <==> NameHas(s, x, q.search)
    {
      IncludesIff(s.users[x].username, q.search);
      IncludesIff(s.users[x].displayName, q.search);
    }
  }

  /** A page: all that was selected, in order, of which `limit` rows from `offset` on are shown and all counted. */
  ghost predicate IsPage(s: State, u: User, q: Query, rows: seq<Connection>, count: nat, all: seq<Connection>) {
    && Exactly(all, s.connections, (c: Connection) => Wanted(s, u, q, c))
    && (forall i, j :: 0 <= i < j < |all| ==> InOrder(q, all[i], all[j]))
    && count == |all|
    && (forall i :: 0 <= i < |rows| ==> q.offset + i < |all| && rows[i] == all[q.offset + i])
    && |rows| == (if q.offset >= |all| then 0 else if |all| - q.offset <= q.limit then |all| - q.offset else q.limit)
  }

  ghost predicate Means(s: State, key: Key, value: Value) {
    match key
    case KConnections(u, q) => value.VPage? && exists all :: IsPage(s, u, q, value.rows, value.count, all)
    case KRequests(u) =>
      value.VRows? && Exactly(value.rows, s.connections, (c: Connection) =>
        c.kind == Friendship && c.status == Pending && c.addresseeId == u)
    case KFriends(u) =>
      value.VRows? && Exactly(value.rows, s.connections, (c: Connection) =>
        c.kind == Friendship && c.status == Accepted && (c.requesterId == u || c.addresseeId == u))
    case KFollowers(u) =>
      value.VRows? && Exactly(value.rows, s.connections, (c: Connection) =>
        c.kind == Follow && c.status == Accepted && c.addresseeId == u)
    case KFollowing(u) =>
      value.VRows? && Exactly(value.rows, s.connections, (c: Connection) =>
        c.kind == Follow && c.status == Accepted && c.requesterId == u)
    case KBlocked(u) => value.VBlocks? && Exactly(value.blocks, s.blocks, (b: Block) => b.userId == u)
    case KStats(u) => value.VStats? && StatsMean(s, u, value)
    case KMutual(u, o) =>
      value.VRows? && Exactly(value.rows, s.connections, (c: Connection) => LeadsToFriend(s, u, o, c))
  }

  /** A friendship of `u` with a friend of `o`. */
  ghost predicate LeadsToFriend(s: State, u: User, o: User, c: Connection) {
    && c.kind == Friendship && c.status == Accepted
    && ((c.requesterId == u && AreFriends(s, o, c.addresseeId))
        || (c.addresseeId == u && AreFriends(s, o, c.requesterId)))
  }

  ghost predicate AreFriends(s: State, u: User, v: User) {
    exists c :: c in s.connections && c.kind == Friendship && c.status == Accepted
                && (c.requesterId == u || c.addresseeId == u) && (c.requesterId == v || c.addresseeId == v) && u != v
  }

  function Followers(s: State, u: User): seq<Connection> {
    Filter(s.connections, (c: Connection) => IsFollower(c, u))
  }

  function Following(s: State, u: User): seq<Connection> {
    Filter(s.connections, (c: Connection) => IsFollowing(c, u))
  }

  /** Friends are counted as people. Both follow numbers count follows in either direction, and pending requests
      those in either direction too. */
  ghost predicate StatsMean(s: State, u: User, value: Value)
    requires value.VStats?
  {
    && (exists people: set<User> :: value.totalFriends == |people| && forall v :: v in people <==> AreFriends(s, u, v))
    && value.totalFollowers == |Followers(s, u)| + |Following(s, u)|
    && value.totalFollowing == |Followers(s, u)| + |Following(s, u)|
    && value.pendingRequests == |Filter(s.connections, (c: Connection) => IsRequestFor(c, u))|
                              + |Filter(s.connections, (c: Connection) => IsRequestBy(c, u))|
  }

  predicate IsRequestBy(c: Connection, u: User) {
    c.requesterId == u && c.status == Pending && c.kind == Friendship
  }

  lemma {:induction false} FilterPartition<T>(s: seq<T>, whole: T -> bool, a: T -> bool, b: T -> bool)
    requires forall x :: x in s ==> (whole(x) <==> a(x) || b(x)) && !(a(x) && b(x))
    ensures |Filter(s, whole)| == |Filter(s, a)| + |Filter(s, b)|
  {
    if s != [] {
      FilterPartition(s[..|s| - 1], whole, a, b);
      assert s[|s| - 1] in s;
    }
  }

  lemma PeopleSnoc(init: seq<Connection>, last: Connection, u: User)
    ensures People(init + [last], u) == People(init, u) + {OtherEnd(last, u)}
  {
    forall c | c in init
      ensures OtherEnd(c, u) in People(init + [last], u)
    {
      assert c in init + [last];
    }
    assert last in init + [last];
  }

  ghost predicate DistinctEnds(cs: seq<Connection>, u: User) {
    forall i, j :: 0 <= i < j < |cs| ==> OtherEnd(cs[i], u) != OtherEnd(cs[j], u)
  }

  lemma NewPerson(cs: seq<Connection>, u: User)
    requires cs != [] && DistinctEnds(cs, u)
    ensures OtherEnd(cs[|cs| - 1], u) !in People(cs[..|cs| - 1], u)
  {
    forall c | c in cs[..|cs| - 1]
      ensures OtherEnd(c, u) != OtherEnd(cs[|cs| - 1], u)
    {
      var i :| 0 <= i < |cs| - 1 && cs[i] == c;
    }
  }

  lemma OneMore(people: set<User>, w: User)
    requires w !in people
    ensures |people + {w}| == |people| + 1
  {
  }

  /** People, collected row by row. */
  function Ends(cs: seq<Connection>, u: User): set<User> {
    if cs == [] then {} else Ends(cs[..|cs| - 1], u) + {OtherEnd(cs[|cs| - 1], u)}
  }

  lemma {:induction false} EndsArePeople(cs: seq<Connection>, u: User)
    ensures Ends(cs, u) == People(cs, u)
  {
    if cs != [] {
      EndsArePeople(cs[..|cs| - 1], u);
      PeopleSnoc(cs[..|cs| - 1], cs[|cs| - 1], u);
      assert cs == cs[..|cs| - 1] + [cs[|cs| - 1]];
    }
  }

  lemma DistinctEndsPrefix(cs: seq<Connection>, u: User)
    requires cs != [] && DistinctEnds(cs, u)
    ensures DistinctEnds(cs[..|cs| - 1], u)
  {
  }

  lemma {:induction false} EndsDistinct(cs: seq<Connection>, u: User)
    requires DistinctEnds(cs, u)
    ensures |Ends(cs, u)| == |cs|
  {
    if cs != [] {
      DistinctEndsPrefix(cs, u);
      EndsDistinct(cs[..|cs| - 1], u);
      NewPerson(cs, u);
      EndsArePeople(cs[..|cs| - 1], u);
      OneMore(Ends(cs[..|cs| - 1], u), OtherEnd(cs[|cs| - 1], u));
    }
  }

  lemma SetOfDistinct(cs: seq<Connection>, u: User)
    requires DistinctEnds(cs, u)
    ensures |People(cs, u)| == |cs|
  {
    EndsDistinct(cs, u);
    EndsArePeople(cs, u);
  }

  /** One row per pair means one row per friend. */
  lemma FriendsDistinct(s: State, u: User)
    requires Safe(s)
    ensures DistinctEnds(Friends(s.connections, u), u)
  {
    var cs, fs := s.connections, Friends(s.connections, u);
    var byId := (c: Connection) => c.id;
    DistinctFilter(cs, byId, (c: Connection) => IsFriendship(c, u));
    FilterMembers(cs, (c: Connection) => IsFriendship(c, u));
    forall i, j | 0 <= i < j < |fs|
      ensures OtherEnd(fs[i], u) != OtherEnd(fs[j], u)
    {
      assert fs[i] in fs && fs[j] in fs && byId(fs[i]) != byId(fs[j]);
      SamePairSameRow(s, fs[i], fs[j]);
    }
  }

  lemma SamePairSameRow(s: State, a: Connection, b: Connection)
    requires Safe(s) && a in s.connections && b in s.connections && a != b
    ensures !Between(b, a.requesterId, a.addresseeId)
  {
    var i :| 0 <= i < |s.connections| && s.connections[i] == a;
    var j :| 0 <= j < |s.connections| && s.connections[j] == b;
    assert i < j || j < i;
  }

  lemma StatsAnswer(s: State, u: User)
    requires Safe(s)
    ensures StatsMean(s, u, Answer(s, KStats(u)))
  {
    FriendsDistinct(s, u);
    SetOfDistinct(Friends(s.connections, u), u);
    var people := FriendIds(s.connections, u);
    assert People(Friends(s.connections, u), u) == people;
    forall v
      ensures v in people <==> AreFriends(s, u, v)
    {
      FriendIdsIff(s, u, v);
    }
    FilterExtensional(s.connections, (c: Connection) => IsFriendship(c, u),
                      (c: Connection) => Touches(c, u) && c.kind == Friendship && c.status == Accepted);
    FilterPartition(s.connections, (c: Connection) => Touches(c, u) && c.kind == Follow && c.status == Accepted,
                    (c: Connection) => IsFollower(c, u), (c: Connection) => IsFollowing(c, u));
    FilterPartition(s.connections, (c: Connection) => Touches(c, u) && c.kind == Friendship && c.status == Pending,
                    (c: Connection) => IsRequestFor(c, u), (c: Connection) => IsRequestBy(c, u));
  }

  /** The number called followers is that exactly for users who follow nobody, and the number called following is
      that exactly for users whom nobody follows. */
  lemma FollowNumbersIff(s: State, u: User)
    requires Safe(s)
    ensures Answer(s, KStats(u)).totalFollowers == |Followers(s, u)| <==> Following(s, u) == []
    ensures Answer(s, KStats(u)).totalFollowing == |Following(s, u)| <==> Followers(s, u) == []
  {
    StatsAnswer(s, u);
  }

  lemma SortedSelection(s: State, u: User, q: Query) returns (all: seq<Connection>)
    ensures all == SortBy(Filter(s.connections, (c: Connection) => Selected(s.users, q, u, c)),
                          (a: Connection, b: Connection) => SortKey(q, a) < SortKey(q, b))
    ensures Exactly(all, s.connections, (c: Connection) => Wanted(s, u, q, c))
    ensures forall i, j :: 0 <= i < j < |all| ==> InOrder(q, all[i], all[j])
  {
    var selected := (c: Connection) => Selected(s.users, q, u, c);
    var before := (a: Connection, b: Connection) => SortKey(q, a) < SortKey(q, b);
    var found := Filter(s.connections, selected);
    all := SortBy(found, before);
    forall c
      ensures selected(c) <==> Wanted(s, u, q, c)
    {
      SelectedIff(s, u, q, c);
    }
    ListAnswer(s, selected, (c: Connection) => Wanted(s, u, q, c));
    SortMultiset(found, before);
    SameBagExactly(found, all, s.connections, (c: Connection) => Wanted(s, u, q, c));
    SortSorted(found, before);
    forall i, j | 0 <= i < j < |all|
      ensures InOrder(q, all[i], all[j])
    {
      assert !before(all[j], all[i]);
    }
  }

  lemma WindowShows<T>(all: seq<T>, offset: nat, limit: nat)
    ensures var rows := Window(all, offset, limit);
            && |rows| == (if offset >= |all| then 0 else if |all| - offset <= limit then |all| - offset else limit)
            && forall i :: 0 <= i < |rows| ==> offset + i < |all| && rows[i] == all[offset + i]
  {
  }

  lemma ShowsPage(s: State, u: User, q: Query, all: seq<Connection>)
    requires Exactly(all, s.connections, (c: Connection) => Wanted(s, u, q, c))
    requires forall i, j :: 0 <= i < j < |all| ==> InOrder(q, all[i], all[j])
    ensures IsPage(s, u, q, Window(all, q.offset, q.limit), |all|, all)
  {
    WindowShows(all, q.offset, q.limit);
  }

  lemma PageAnswer(s: State, u: User, q: Query)
    ensures Means(s, KConnections(u, q), Answer(s, KConnections(u, q)))
  {
    var all := SortedSelection(s, u, q);
    ShowsPage(s, u, q, all);
    assert Answer(s, KConnections(u, q)) == VPage(Window(all, q.offset, q.limit), |all|);
  }

  /** Every query answers with exactly what its name says, but for the follow numbers and the pending number. */
  lemma AnswerMeans(s: State, key: Key)
    requires Safe(s)
    ensures Means(s, key, Answer(s, key))
  {
    match key
    case KConnections(u, q) => PageAnswer(s, u, q);
    case KRequests(u) => ListAnswer(s, (c: Connection) => IsRequestFor(c, u), (c: Connection) =>
        c.kind == Friendship && c.status == Pending && c.addresseeId == u);
    case KFriends(u) => ListAnswer(s, (c: Connection) => IsFriendship(c, u), (c: Connection) =>
        c.kind == Friendship && c.status == Accepted && (c.requesterId == u || c.addresseeId == u));
    case KFollowers(u) => ListAnswer(s, (c: Connection) => IsFollower(c, u), (c: Connection) =>
        c.kind == Follow && c.status == Accepted && c.addresseeId == u);
    case KFollowing(u) => ListAnswer(s, (c: Connection) => IsFollowing(c, u), (c: Connection) =>
        c.kind == Follow && c.status == Accepted && c.requesterId == u);
    case KBlocked(u) => FilterExactly(s.blocks, (b: Block) => b.userId == u);
    case KStats(u) => StatsAnswer(s, u);
    case KMutual(u, o) => CommonExactly(s, u, o);
  }

  lemma FriendIdsIff(s: State, u: User, v: User)
    requires Safe(s)
    ensures v in FriendIds(s.connections, u) <==> AreFriends(s, u, v)
  {
    FilterMembers(s.connections, (c: Connection) => IsFriendship(c, u));
    if v in FriendIds(s.connections, u) {
      var c :| c in Friends(s.connections, u) && OtherEnd(c, u) == v;
      assert RowSafe(c, s.blocks, s.nextId);
    }
    if AreFriends(s, u, v) {
      var c :| c in s.connections && c.kind == Friendship && c.status == Accepted
               && (c.requesterId == u || c.addresseeId == u) && (c.requesterId == v || c.addresseeId == v);
      assert c in Friends(s.connections, u) && OtherEnd(c, u) == v;
    }
  }

  lemma CommonIsShared(s: State, u: User, o: User, c: Connection)
    requires Safe(s)
    ensures IsFriendship(c, u) && OtherEnd(c, u) in FriendIds(s.connections, o) <==> LeadsToFriend(s, u, o, c)
  {
    FriendIdsIff(s, o, OtherEnd(c, u));
  }

  lemma CommonExactly(s: State, u: User, o: User)
    requires Safe(s)
    ensures Exactly(Common(Friends(s.connections, u), u, FriendIds(s.connections, o)), s.connections,
                    (c: Connection) => LeadsToFriend(s, u, o, c))
  {
    var friends, ids := Friends(s.connections, u), FriendIds(s.connections, o);
    FilterExactly(s.connections, (c: Connection) => IsFriendship(c, u));
    FilterExactly(friends, (c: Connection) => OtherEnd(c, u) in ids);
    forall c
      ensures multiset(Common(friends, u, ids))[c]
           == if LeadsToFriend(s, u, o, c) then multiset(s.connections)[c] else 0
    {
      CommonIsShared(s, u, o, c);
    }
  }

  lemma ListAnswer(s: State, p: Connection -> bool, q: Connection -> bool)
    requires forall c :: p(c) <==> q(c)
    ensures Exactly(Filter(s.connections, p), s.connections, q)
  {
    FilterExactly(s.connections, p);
  }
}
