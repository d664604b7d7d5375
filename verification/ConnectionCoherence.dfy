/** Why the connection cache can be trusted: a call rewrites rows that touch two users only, and it
    invalidates both; and what remains true of the one key family that depends on a third. */
module ConnectionCoherence {
  import opened Sequences
  import opened Connections
  import opened ConnectionSafety

  // ---------------------------------------------------------------- a user's view of the tables

  /** Two states look the same to `u`. */
  ghost predicate SameFor(s: State, t: State, u: User) {
    && s.users == t.users
    && Filter(s.connections, (c: Connection) => Touches(c, u))
    == Filter(t.connections, (c: Connection) => Touches(c, u))
    && Filter(s.blocks, (b: Block) => b.userId == u) == Filter(t.blocks, (b: Block) => b.userId == u)
  }

  lemma Narrow(cs: seq<Connection>, ds: seq<Connection>, wide: Connection -> bool, narrow: Connection -> bool)
    requires Filter(cs, wide) == Filter(ds, wide) && forall c :: narrow(c) ==> wide(c)
    ensures Filter(cs, narrow) == Filter(ds, narrow)
  {
    FilterImplied(cs, wide, narrow);
    FilterImplied(ds, wide, narrow);
  }

  lemma FriendsFrame(s: State, t: State, u: User)
    requires SameFor(s, t, u)
    ensures Friends(s.connections, u) == Friends(t.connections, u)
  {
    Narrow(s.connections, t.connections, (c: Connection) => Touches(c, u), (c: Connection) => IsFriendship(c, u));
  }

  lemma CountFrame(s: State, t: State, u: User, kind: Kind, status: Status)
    requires SameFor(s, t, u)
    ensures CountConnections(s.connections, u, kind, status) == CountConnections(t.connections, u, kind, status)
  {
    Narrow(s.connections, t.connections, (c: Connection) => Touches(c, u),
           (c: Connection) => Touches(c, u) && c.kind == kind && c.status == status);
  }

  /** Every query but the mutual one depends on its user's view alone. */
  lemma AnswerFrame(s: State, t: State, key: Key)
    requires SameFor(s, t, key.user) && !key.KMutual?
    ensures Answer(s, key) == Answer(t, key)
  {
    var u := key.user;
    var mine := (c: Connection) => Touches(c, u);
    match key {
      case KConnections(_, q) =>
        SelectedFrame(s, t, q, u);
      case KRequests(_) => Narrow(s.connections, t.connections, mine, (c: Connection) => IsRequestFor(c, u));
      case KFriends(_) => FriendsFrame(s, t, u);
      case KFollowers(_) => Narrow(s.connections, t.connections, mine, (c: Connection) => IsFollower(c, u));
      case KFollowing(_) => Narrow(s.connections, t.connections, mine, (c: Connection) => IsFollowing(c, u));
      case KBlocked(_) =>
      case KStats(_) =>
        CountFrame(s, t, u, Friendship, Accepted);
        CountFrame(s, t, u, Follow, Accepted);
        CountFrame(s, t, u, Friendship, Pending);
    }
  }

  lemma SelectedFrame(s: State, t: State, q: Query, u: User)
    requires SameFor(s, t, u)
    ensures Filter(s.connections, (c: Connection) => Selected(s.users, q, u, c))
         == Filter(t.connections, (c: Connection) => Selected(t.users, q, u, c))
  {
    Narrow(s.connections, t.connections, (c: Connection) => Touches(c, u),
           (c: Connection) => Selected(s.users, q, u, c));
    FilterExtensional(t.connections, (c: Connection) => Selected(s.users, q, u, c),
                      (c: Connection) => Selected(t.users, q, u, c));
  }

  // ---------------------------------------------------------------- what one call touches

  lemma FilterReplace<T>(s: seq<T>, i: nat, x: T, keep: T -> bool)
    requires i < |s| && !keep(s[i]) && !keep(x)
    ensures Filter(s[i := x], keep) == Filter(s, keep) == Filter(Without(s, i), keep)
  {
    assert s == s[..i] + [s[i]] + s[i + 1..];
    assert s[i := x] == s[..i] + [x] + s[i + 1..];
    FilterConcat(s[..i] + [s[i]], s[i + 1..], keep);
    FilterConcat(s[..i] + [x], s[i + 1..], keep);
    FilterConcat(s[..i], s[i + 1..], keep);
    FilterSnoc(s[..i], s[i], keep);
    FilterSnoc(s[..i], x, keep);
  }

  /** `t` differs from `s` for at most the users `a` and `b`, and has forgotten what was cached for them and no more. */
  ghost predicate Touched(s: State, t: State, a: User, b: User) {
    && (forall key :: key in t.cache <==> key in s.cache && key.user != a && key.user != b)
    && (forall key :: key in t.cache ==> t.cache[key] == s.cache[key])
    && forall u :: u != a && u != b ==> SameFor(s, t, u)
  }

  lemma RewriteTouches(s: State, i: nat, c: Connection, a: User, b: User)
    requires i < |s.connections| && Between(s.connections[i], a, b) && Between(c, a, b)
    ensures Touched(s, InvalidateBoth(s.(connections := s.connections[i := c]), a, b), a, b)
    ensures Touched(s, InvalidateBoth(s.(connections := Without(s.connections, i)), a, b), a, b)
  {
    var changed := InvalidateBoth(s.(connections := s.connections[i := c]), a, b);
    var removed := InvalidateBoth(s.(connections := Without(s.connections, i)), a, b);
    forall u | u != a && u != b
      ensures SameFor(s, changed, u) && SameFor(s, removed, u)
    {
      FilterReplace(s.connections, i, c, (c: Connection) => Touches(c, u));
    }
  }

  lemma AppendTouches(s: State, c: Connection, nextId: nat)
    ensures var t := s.(connections := s.connections + [c], nextId := nextId);
            Touched(s, InvalidateBoth(t, c.requesterId, c.addresseeId), c.requesterId, c.addresseeId)
  {
    var t := InvalidateBoth(s.(connections := s.connections + [c], nextId := nextId), c.requesterId, c.addresseeId);
    forall u | u != c.requesterId && u != c.addresseeId
      ensures SameFor(s, t, u)
    {
      FilterSnoc(s.connections, c, (c: Connection) => Touches(c, u));
    }
  }

  lemma BlockTouches(s: State, u: User, v: User, reason: string)
    requires BlockUser(s, u, v, reason).Ok?
    ensures Touched(s, BlockUser(s, u, v, reason).value, u, v)
  {
    var i := FindBetween(s.connections, u, v);
    if i.Some? {
      RewriteTouches(s, i.value, s.connections[i.value], u, v);
    }
    var t := BlockUser(s, u, v, reason).value;
    forall w | w != u && w != v
      ensures SameFor(s, t, w)
    {
      FilterSnoc(s.blocks, Block(u, v, reason), (b: Block) => b.userId == w);
      if i.Some? {
        assert SameFor(s, InvalidateBoth(s.(connections := Without(s.connections, i.value)), u, v), w);
      }
    }
  }

  lemma UnblockTouches(s: State, u: User, v: User)
    requires UnblockUser(s, u, v).Ok?
    ensures Touched(s, UnblockUser(s, u, v).value, u, v)
  {
    forall w | w != u && w != v
      ensures SameFor(s, UnblockUser(s, u, v).value, w)
    {
      OthersBlocks(s.blocks, u, v, w);
    }
  }

  lemma OthersBlocks(bs: seq<Block>, u: User, v: User, w: User)
    requires w != u
    ensures Filter(Filter(bs, (b: Block) => !(b.userId == u && b.blockedId == v)), (b: Block) => b.userId == w)
         == Filter(bs, (b: Block) => b.userId == w)
  {
    FilterImplied(bs, (b: Block) => !(b.userId == u && b.blockedId == v), (b: Block) => b.userId == w);
  }

  predicate Writes(call: Call) {
    !call.CallRead? && !call.Expire?
  }

  /** Every writing call either changes nothing or touches two users and invalidates both. */
  lemma StepTouches(s: State, call: Call) returns (a: User, b: User)
    requires Writes(call)
    ensures Step(s, call) == s || Touched(s, Step(s, call), a, b)
  {
    a, b := "", "";
    if Attempt(s, call).Ok? {
      match call {
        case CallCreate(u, v, kind, now) =>
          a, b := u, v;
          var i := FindBetween(s.connections, u, v);
          if i.Some? {
            a, b := AcceptTouches(s, s.connections[i.value].id, u);
          } else {
            AppendTouches(s, Step(s, call).connections[|s.connections|], s.nextId + 1);
          }
        case CallAccept(id, u) => a, b := AcceptTouches(s, id, u);
        case CallReject(id, u) =>
          var i := FindById(s.connections, id).value;
          var c := s.connections[i];
          a, b := c.requesterId, c.addresseeId;
          RewriteTouches(s, i, c.(status := Rejected), a, b);
        case CallUpdate(id, u, status, isFavorite) =>
          var i := FindById(s.connections, id).value;
          a, b := s.connections[i].requesterId, s.connections[i].addresseeId;
          RewriteTouches(s, i, Step(s, call).connections[i], a, b);
        case CallRemove(id, u) =>
          var i := FindById(s.connections, id).value;
          a, b := s.connections[i].requesterId, s.connections[i].addresseeId;
          RewriteTouches(s, i, s.connections[i], a, b);
        case CallBlock(u, v, reason) => a, b := u, v; BlockTouches(s, u, v, reason);
        case CallUnblock(u, v) => a, b := u, v; UnblockTouches(s, u, v);
        case CallStrength(id, interactions) =>
          var i := FindById(s.connections, id).value;
          a, b := s.connections[i].requesterId, s.connections[i].addresseeId;
          RewriteTouches(s, i, Strengthened(s.connections[i], interactions), a, b);
        case CallCalculate(u, v, interactions) =>
          a, b := u, v;
          var i := FindBetween(s.connections, u, v);
          if i.Some? {
            RewriteTouches(s, i.value, Strengthened(s.connections[i.value], interactions), u, v);
          }
      }
    }
  }

  lemma AcceptTouches(s: State, id: nat, u: User) returns (a: User, b: User)
    requires Accept(s, id, u).Ok?
    ensures Touched(s, Accept(s, id, u).value, a, b)
  {
    var i := FindById(s.connections, id).value;
    var c := s.connections[i];
    a, b := c.requesterId, c.addresseeId;
    RewriteTouches(s, i, c.(status := Accepted), a, b);
  }

  // ---------------------------------------------------------------- coherence

  /** Every cached answer outside the mutual family is what the query would return now. */
  ghost predicate Coherent(s: State) {
    forall key :: key in s.cache && !key.KMutual? ==> s.cache[key] == Answer(s, key)
  }

  lemma StepCoherent(s: State, call: Call)
    requires Coherent(s)
    ensures Coherent(Step(s, call))
  {
    var t := Step(s, call);
    if Writes(call) {
      var a, b := StepTouches(s, call);
      if t != s {
        TouchedCoherent(s, t, a, b);
      }
    } else {
      forall key
        ensures Answer(t, key) == Answer(s, key)
      {
        SameTablesSameAnswer(s, t, key);
      }
    }
  }

  /** What is still cached after a write belongs to users who cannot see the change. */
  lemma TouchedCoherent(s: State, t: State, a: User, b: User)
    requires Coherent(s) && Touched(s, t, a, b)
    ensures Coherent(t)
  {
    forall key | key in t.cache && !key.KMutual?
      ensures t.cache[key] == Answer(t, key)
    {
      assert SameFor(s, t, key.user);
      AnswerFrame(s, t, key);
    }
  }

  lemma SameTablesSameAnswer(s: State, t: State, key: Key)
    requires s.users == t.users && s.connections == t.connections && s.blocks == t.blocks
    ensures Answer(s, key) == Answer(t, key)
  {
    if !key.KMutual? {
      AnswerFrame(s, t, key);
    }
  }

  /** After any run, every cached list, count and page equals its query re-run on the current tables. */
  lemma {:induction false} RunCoherent(users: map<User, Profile>, calls: seq<Call>)
    ensures Coherent(Run(users, calls))
  {
    if calls != [] {
      RunCoherent(users, calls[..|calls| - 1]);
      StepCoherent(Run(users, calls[..|calls| - 1]), calls[|calls| - 1]);
    }
  }

  // ---------------------------------------------------------------- mutual connections

  /** The people a list of `u`'s connections names. */
  function People(rows: seq<Connection>, u: User): set<User> {
    set c | c in rows :: OtherEnd(c, u)
  }

  /** A fresh answer names exactly the common friends, so it names the same people either way round. */
  lemma MutualSymmetric(cs: seq<Connection>, u: User, o: User)
    ensures People(Common(Friends(cs, u), u, FriendIds(cs, o)), u) == FriendIds(cs, u) * FriendIds(cs, o)
    ensures People(Common(Friends(cs, u), u, FriendIds(cs, o)), u)
         == People(Common(Friends(cs, o), o, FriendIds(cs, u)), o)
  {
    MutualPeople(cs, u, FriendIds(cs, o));
    MutualPeople(cs, o, FriendIds(cs, u));
  }

  lemma MutualPeople(cs: seq<Connection>, u: User, ids: set<User>)
    ensures People(Common(Friends(cs, u), u, ids), u) == FriendIds(cs, u) * ids
  {
    FilterMembers(Friends(cs, u), (c: Connection) => OtherEnd(c, u) in ids);
  }

  /** Where a cached mutual list comes from: some earlier read filled it, and it still is the current
      friendships of `u`, with their current fields, restricted to the friends `o` had at that read. */
  lemma {:induction false} MutualProvenance(users: map<User, Profile>, calls: seq<Call>, u: User, o: User)
    returns (n: nat)
    requires KMutual(u, o) in Run(users, calls).cache
    ensures n < |calls| && calls[n] == CallRead(KMutual(u, o)) && KMutual(u, o) !in Run(users, calls[..n]).cache
    ensures forall k :: n < k <= |calls| ==> KMutual(u, o) in Run(users, calls[..k]).cache
    ensures Run(users, calls).cache[KMutual(u, o)]
         == MutualAsOf(Run(users, calls), Run(users, calls[..n]), u, o)
  {
    var init, call := calls[..|calls| - 1], calls[|calls| - 1];
    var s := Run(users, init);
    if KMutual(u, o) !in s.cache {
      n := |calls| - 1;
      FilledByRead(s, call, u, o);
    } else {
      n := MutualProvenance(users, init, u, o);
      CachedInPrefixes(users, init, calls, KMutual(u, o), n);
      MutualSurvives(s, call, u, o);
      assert init[..n] == calls[..n] && init[n] == calls[n];
    }
    assert calls[..|calls|] == calls;
  }

  lemma CachedInPrefixes(users: map<User, Profile>, init: seq<Call>, calls: seq<Call>, key: Key, n: nat)
    requires init <= calls && forall k :: n < k <= |init| ==> key in Run(users, init[..k]).cache
    ensures forall k :: n < k <= |init| ==> key in Run(users, calls[..k]).cache
  {
    forall k | n < k <= |init|
      ensures key in Run(users, calls[..k]).cache
    {
      assert init[..k] == calls[..k];
    }
  }

  lemma FilledByRead(s: State, call: Call, u: User, o: User)
    requires KMutual(u, o) !in s.cache && KMutual(u, o) in Step(s, call).cache
    ensures call == CallRead(KMutual(u, o))
    ensures Step(s, call).cache[KMutual(u, o)] == MutualAsOf(Step(s, call), s, u, o)
  {
    if Writes(call) {
      var a, b := StepTouches(s, call);
      assert false;
    }
  }

  /** The current friendships of `u`, restricted to the friends `o` had at the fill. */
  function MutualAsOf(now: State, fill: State, u: User, o: User): Value {
    VRows(Common(Friends(now.connections, u), u, FriendIds(fill.connections, o)))
  }

  /** A call that leaves the entry in place leaves `u`'s friendships alone. */
  lemma MutualSurvives(s: State, call: Call, u: User, o: User)
    requires KMutual(u, o) in s.cache && KMutual(u, o) in Step(s, call).cache
    ensures Step(s, call).cache[KMutual(u, o)] == s.cache[KMutual(u, o)]
    ensures Friends(Step(s, call).connections, u) == Friends(s.connections, u)
  {
    var t := Step(s, call);
    if Writes(call) {
      var a, b := StepTouches(s, call);
      if t != s {
        assert SameFor(s, t, u);
        FriendsFrame(s, t, u);
      }
    }
  }

  /** Restricting friendships to two sets of people gives the same list exactly if the sets agree on the friends. */
  lemma CommonIff(cs: seq<Connection>, u: User, some: set<User>, others: set<User>)
    ensures Common(Friends(cs, u), u, some) == Common(Friends(cs, u), u, others)
       <==> FriendIds(cs, u) * some == FriendIds(cs, u) * others
  {
    MutualPeople(cs, u, some);
    MutualPeople(cs, u, others);
    if FriendIds(cs, u) * some == FriendIds(cs, u) * others {
      forall c | c in Friends(cs, u)
        ensures OtherEnd(c, u) in some <==> OtherEnd(c, u) in others
      {
        assert OtherEnd(c, u) in FriendIds(cs, u);
        assert OtherEnd(c, u) in FriendIds(cs, u) * some <==> OtherEnd(c, u) in FriendIds(cs, u) * others;
      }
      FilterExtensional(Friends(cs, u), (c: Connection) => OtherEnd(c, u) in some,
                        (c: Connection) => OtherEnd(c, u) in others);
    }
  }

  /** Over any run a cached list holds current friendships of `u` only, and it is what the query would return
      now if and only if `o` has since the fill neither gained nor lost a friend who is a friend of `u` now. */
  lemma MutualExactIff(users: map<User, Profile>, calls: seq<Call>, u: User, o: User) returns (n: nat)
    requires KMutual(u, o) in Run(users, calls).cache
    ensures n < |calls| && calls[n] == CallRead(KMutual(u, o)) && KMutual(u, o) !in Run(users, calls[..n]).cache
    ensures forall k :: n < k <= |calls| ==> KMutual(u, o) in Run(users, calls[..k]).cache
    ensures var now, cached := Run(users, calls), Run(users, calls).cache[KMutual(u, o)];
            cached.VRows? && forall c :: c in cached.rows ==> c in now.connections && IsFriendship(c, u)
    ensures var now, fill := Run(users, calls).connections, Run(users, calls[..n]).connections;
            && (Run(users, calls).cache[KMutual(u, o)] == Answer(Run(users, calls), KMutual(u, o))
                <==> FriendIds(now, u) * FriendIds(now, o) == FriendIds(now, u) * FriendIds(fill, o))
  {
    n := MutualProvenance(users, calls, u, o);
    var now, fill := Run(users, calls), Run(users, calls[..n]);
    FilterMembers(Friends(now.connections, u), (c: Connection) => OtherEnd(c, u) in FriendIds(fill.connections, o));
    FilterMembers(now.connections, (c: Connection) => IsFriendship(c, u));
    CommonIff(now.connections, u, FriendIds(now.connections, o), FriendIds(fill.connections, o));
  }

  /** The unbounded case does happen: when `o` loses a friend `x` by removal, an exact entry of an
      uninvolved `u` stays exact if and only if `x` is no friend of `u`. */
  lemma MutualAfterRemoval(s: State, id: nat, actor: User, u: User, o: User, x: User)
    requires Safe(s) && RemoveConnection(s, id, actor).Ok?
    requires var i := FindById(s.connections, id).value;
             IsFriendship(s.connections[i], o) && OtherEnd(s.connections[i], o) == x
    requires u != o && u != x
    requires KMutual(u, o) in s.cache && s.cache[KMutual(u, o)] == Answer(s, KMutual(u, o))
    ensures var t := RemoveConnection(s, id, actor).value;
            && KMutual(u, o) in t.cache
            && (t.cache[KMutual(u, o)] == Answer(t, KMutual(u, o)) <==> x !in FriendIds(s.connections, u))
  {
    var t := RemoveConnection(s, id, actor).value;
    var i := FindById(s.connections, id).value;
    RewriteTouches(s, i, s.connections[i], s.connections[i].requesterId, s.connections[i].addresseeId);
    assert SameFor(s, t, u);
    FriendsFrame(s, t, u);
    FriendLost(s, i, o, x);
    var mine := Friends(s.connections, u);
    var before, after := FriendIds(s.connections, o), FriendIds(t.connections, o);
    if x in FriendIds(s.connections, u) {
      var c :| c in mine && OtherEnd(c, u) == x;
      FilterMembers(mine, (c: Connection) => OtherEnd(c, u) in before);
      FilterMembers(mine, (c: Connection) => OtherEnd(c, u) in after);
      assert c in Common(mine, u, before) && c !in Common(mine, u, after);
    } else {
      FilterExtensional(mine, (c: Connection) => OtherEnd(c, u) in before, (c: Connection) => OtherEnd(c, u) in after);
    }
  }

  lemma FriendIdsMember(cs: seq<Connection>, o: User, y: User)
    ensures y in FriendIds(cs, o) <==> exists c :: c in cs && IsFriendship(c, o) && OtherEnd(c, o) == y
  {
    FilterMembers(cs, (c: Connection) => IsFriendship(c, o));
    if y in FriendIds(cs, o) {
      var c :| c in Friends(cs, o) && OtherEnd(c, o) == y;
      assert c in cs && IsFriendship(c, o);
    }
  }

  lemma FriendLost(s: State, i: nat, o: User, x: User)
    requires Safe(s) && i < |s.connections| && IsFriendship(s.connections[i], o) && OtherEnd(s.connections[i], o) == x
    ensures x in FriendIds(s.connections, o)
    ensures FriendIds(Without(s.connections, i), o) == FriendIds(s.connections, o) - {x}
  {
    var cs, ds := s.connections, Without(s.connections, i);
    SafeWithout(s, i);
    assert cs[i] in cs;
    FriendIdsMember(cs, o, x);
    forall y
      ensures y in FriendIds(ds, o) <==> y in FriendIds(cs, o) && y != x
    {
      FriendIdsMember(cs, o, y);
      FriendIdsMember(ds, o, y);
      if y in FriendIds(ds, o) {
        var c :| c in ds && IsFriendship(c, o) && OtherEnd(c, o) == y;
        assert c in cs && !SamePair(cs[i], c);
      }
      if y in FriendIds(cs, o) && y != x {
        var c :| c in cs && IsFriendship(c, o) && OtherEnd(c, o) == y;
        InWithout(cs, i, c);
      }
    }
  }

  lemma InWithout(cs: seq<Connection>, i: nat, c: Connection)
    requires i < |cs| && c in cs && c != cs[i]
    ensures c in Without(cs, i)
  {
    assert cs == cs[..i] + [cs[i]] + cs[i + 1..];
  }
}
