/** What the connection tables keep over every run of the service. */
module ConnectionSafety {
  import opened Sequences
  import opened Connections

  predicate SamePair(a: Connection, b: Connection) {
    Between(b, a.requesterId, a.addresseeId)
  }

  /** No two rows share an id or an unordered pair of users. */
  ghost predicate OnePerPair(cs: seq<Connection>) {
    forall i, j :: 0 <= i < j < |cs| ==> cs[i].id != cs[j].id && !SamePair(cs[i], cs[j])
  }

  ghost predicate RowSafe(c: Connection, blocks: seq<Block>, nextId: nat) {
    && c.id < nextId
    && c.requesterId != c.addresseeId
    && !IsBlocked(blocks, c.requesterId, c.addresseeId)
    && (c.status != Accepted ==> c.kind == Friendship)
  }

  ghost predicate Safe(s: State) {
    && OnePerPair(s.connections)
    && forall c :: c in s.connections ==> RowSafe(c, s.blocks, s.nextId)
  }

  // ---------------------------------------------------------------- the kinds of change

  lemma SafeRewrite(s: State, i: nat, c: Connection)
    requires Safe(s) && i < |s.connections|
    requires c.id == s.connections[i].id && c.requesterId == s.connections[i].requesterId
    requires c.addresseeId == s.connections[i].addresseeId && c.kind == s.connections[i].kind
    requires c.status != Accepted ==> c.kind == Friendship
    ensures Safe(s.(connections := s.connections[i := c]))
  {
    var cs := s.connections[i := c];
    assert s.connections[i] in s.connections;
    forall k, j | 0 <= k < j < |cs|
      ensures cs[k].id != cs[j].id && !SamePair(cs[k], cs[j])
    {
      assert s.connections[k].id != s.connections[j].id && !SamePair(s.connections[k], s.connections[j]);
    }
    forall d | d in cs
      ensures RowSafe(d, s.blocks, s.nextId)
    {
      assert d == c || d in s.connections;
    }
  }

  lemma SafeWithout(s: State, i: nat)
    requires Safe(s) && i < |s.connections|
    ensures Safe(s.(connections := Without(s.connections, i)))
    ensures forall d :: d in Without(s.connections, i) ==> !SamePair(s.connections[i], d)
  {
    var before, cs := s.connections, Without(s.connections, i);
    forall k, j | 0 <= k < j < |cs|
      ensures cs[k].id != cs[j].id && !SamePair(cs[k], cs[j])
    {
      var k0, j0 := if k < i then k else k + 1, if j < i then j else j + 1;
      assert cs[k] == before[k0] && cs[j] == before[j0];
    }
    forall d | d in cs
      ensures d in before && !SamePair(before[i], d)
    {
      var k :| 0 <= k < |cs| && cs[k] == d;
      var k0 := if k < i then k else k + 1;
      assert before[k0] == d;
      assert if k0 < i then !SamePair(before[k0], before[i]) else !SamePair(before[i], before[k0]);
    }
  }

  lemma CreateSafe(s: State, u: User, v: User, kind: Kind, now: int)
    requires Safe(s) && Create(s, u, v, kind, now).Ok?
    ensures Safe(Create(s, u, v, kind, now).value)
  {
    var i := FindBetween(s.connections, u, v);
    if i.Some? {
      AutoAcceptSucceeds(s, u, v, kind, now);
      var c := s.connections[i.value];
      SafeRewrite(s, i.value, c.(status := Accepted));
    } else {
      var cs := Create(s, u, v, kind, now).value.connections;
      forall k, j | 0 <= k < j < |cs|
        ensures cs[k].id != cs[j].id && !SamePair(cs[k], cs[j])
      {
        assert cs[k] in s.connections;
        if j == |s.connections| {
          assert RowSafe(cs[k], s.blocks, s.nextId) && !Between(cs[k], u, v);
        }
      }
      forall c | c in cs
        ensures RowSafe(c, s.blocks, s.nextId + 1)
      {
        assert c in s.connections || c == cs[|cs| - 1];
      }
    }
  }

  /** A request from the other side is accepted without fail: none of the checks of accepting can refuse. */
  lemma AutoAcceptSucceeds(s: State, u: User, v: User, kind: Kind, now: int)
    requires Safe(s) && u in s.users && v in s.users && u != v && !IsBlocked(s.blocks, u, v)
    requires FindBetween(s.connections, u, v).Some?
    ensures var i := FindBetween(s.connections, u, v).value;
            var c := s.connections[i];
            if c.requesterId == v && c.status == Pending && kind == Friendship
            then Create(s, u, v, kind, now) == Ok(Rewrite(s, i, c.(status := Accepted)))
            else Create(s, u, v, kind, now).Err?
  {
    var i := FindBetween(s.connections, u, v).value;
    var c := s.connections[i];
    FoundById(s.connections, i);
  }

  lemma FoundById(cs: seq<Connection>, i: nat)
    requires OnePerPair(cs) && i < |cs|
    ensures FindById(cs, cs[i].id) == Some(i)
  {
    assert cs[i] in cs;
    assert forall k :: 0 <= k < |cs| && k != i ==> cs[k].id != cs[i].id;
  }

  lemma BlockSafe(s: State, u: User, v: User, reason: string)
    requires Safe(s) && BlockUser(s, u, v, reason).Ok?
    ensures Safe(BlockUser(s, u, v, reason).value)
  {
    var i := FindBetween(s.connections, u, v);
    var t := if i.Some? then s.(connections := Without(s.connections, i.value)) else s;
    if i.Some? {
      SafeWithout(s, i.value);
    }
    var blocks := s.blocks + [Block(u, v, reason)];
    forall c | c in t.connections
      ensures RowSafe(c, blocks, s.nextId)
    {
      assert !Between(c, u, v) by {
        if i.Some? {
          assert !SamePair(s.connections[i.value], c);
        }
      }
      assert RowSafe(c, s.blocks, s.nextId);
    }
  }

  lemma UnblockSafe(s: State, u: User, v: User)
    requires Safe(s) && UnblockUser(s, u, v).Ok?
    ensures Safe(UnblockUser(s, u, v).value)
  {
    FilterMembers(s.blocks, (b: Block) => !(b.userId == u && b.blockedId == v));
    var blocks := UnblockUser(s, u, v).value.blocks;
    forall c | c in s.connections
      ensures RowSafe(c, blocks, s.nextId)
    {
      assert RowSafe(c, s.blocks, s.nextId);
    }
  }

  lemma StepSafe(s: State, call: Call)
    requires Safe(s)
    ensures Safe(Step(s, call))
  {
    if Attempt(s, call).Ok? {
      match call {
        case CallCreate(u, v, kind, now) => CreateSafe(s, u, v, kind, now);
        case CallAccept(id, u) =>
          var i := FindById(s.connections, id).value;
          SafeRewrite(s, i, s.connections[i].(status := Accepted));
        case CallReject(id, u) =>
          var i := FindById(s.connections, id).value;
          assert s.connections[i] in s.connections;
          SafeRewrite(s, i, s.connections[i].(status := Rejected));
        case CallUpdate(id, u, status, isFavorite) =>
          var i := FindById(s.connections, id).value;
          var c := s.connections[i];
          assert c in s.connections;
          SafeRewrite(s, i,
            c.(status := if status.Some? then status.value else c.status,
               isFavorite := if isFavorite.Some? then isFavorite.value else c.isFavorite));
        case CallRemove(id, u) => SafeWithout(s, FindById(s.connections, id).value);
        case CallBlock(u, v, reason) => BlockSafe(s, u, v, reason);
        case CallUnblock(u, v) => UnblockSafe(s, u, v);
        case CallStrength(id, interactions) =>
          var i := FindById(s.connections, id).value;
          assert s.connections[i] in s.connections;
          SafeRewrite(s, i, Strengthened(s.connections[i], interactions));
        case CallCalculate(u, v, interactions) =>
          var i := FindBetween(s.connections, u, v);
          if i.Some? {
            assert s.connections[i.value] in s.connections;
            SafeRewrite(s, i.value, Strengthened(s.connections[i.value], interactions));
          }
        case CallRead(key) =>
        case Expire(key) =>
      }
    }
  }

  /** Over any run: one connection per unordered pair, none with oneself, none between a blocked pair,
      and a pending or rejected row is a friendship request. */
  lemma {:induction false} RunSafe(users: map<User, Profile>, calls: seq<Call>)
    ensures Safe(Run(users, calls))
  {
    if calls != [] {
      RunSafe(users, calls[..|calls| - 1]);
      StepSafe(Run(users, calls[..|calls| - 1]), calls[|calls| - 1]);
    }
  }

  // ---------------------------------------------------------------- decided rows

  /** `d` may be a later value of row `c`: a status that was decided stays. */
  predicate LaterValue(c: Connection, d: Connection) {
    d.id == c.id && d.requesterId == c.requesterId && d.addresseeId == c.addresseeId && d.kind == c.kind
    && (c.status != Pending ==> d.status == c.status)
  }

  /** Every row after a call is a new one or a later value of one from before. */
  ghost predicate Evolves(s: State, t: State) {
    s.nextId <= t.nextId
    && forall d {:trigger HasOrigin(s, d)} :: d in t.connections ==> d.id >= s.nextId || HasOrigin(s, d)
  }

  ghost predicate HasOrigin(s: State, d: Connection) {
    exists c :: c in s.connections && LaterValue(c, d)
  }

  lemma RewriteEvolves(s: State, i: nat, c: Connection, cs: seq<Connection>)
    requires i < |s.connections| && LaterValue(s.connections[i], c) && cs == s.connections[i := c]
    ensures forall d :: d in cs ==> HasOrigin(s, d)
  {
    forall d | d in cs
      ensures HasOrigin(s, d)
    {
      var b := if d == c then s.connections[i] else d;
      assert b in s.connections && LaterValue(b, d);
    }
  }

  lemma SubsetEvolves(s: State, t: State)
    requires s.nextId <= t.nextId && forall d :: d in t.connections ==> d in s.connections || d.id >= s.nextId
    ensures Evolves(s, t)
  {
    forall d | d in t.connections && d.id < s.nextId
      ensures HasOrigin(s, d)
    {
      assert d in s.connections && LaterValue(d, d);
    }
  }

  /** One row rewritten to a later value of itself. */
  lemma OneRowEvolves(s: State, t: State, i: nat)
    requires i < |s.connections| == |t.connections| && s.nextId <= t.nextId
    requires t.connections == s.connections[i := t.connections[i]] && LaterValue(s.connections[i], t.connections[i])
    ensures Evolves(s, t)
  {
    RewriteEvolves(s, i, t.connections[i], t.connections);
  }

  lemma CreateEvolves(s: State, u: User, v: User, kind: Kind, now: int)
    requires Safe(s) && Create(s, u, v, kind, now).Ok?
    ensures Evolves(s, Create(s, u, v, kind, now).value)
  {
    var t := Create(s, u, v, kind, now).value;
    var i := FindBetween(s.connections, u, v);
    if i.Some? {
      AutoAcceptSucceeds(s, u, v, kind, now);
      OneRowEvolves(s, t, i.value);
    } else {
      SubsetEvolves(s, t);
    }
  }

  lemma DecideEvolves(s: State, id: nat, u: User)
    ensures Accept(s, id, u).Ok? ==> Evolves(s, Accept(s, id, u).value)
    ensures Reject(s, id, u).Ok? ==> Evolves(s, Reject(s, id, u).value)
  {
    var i := FindById(s.connections, id);
    if Accept(s, id, u).Ok? {
      OneRowEvolves(s, Accept(s, id, u).value, i.value);
    }
    if Reject(s, id, u).Ok? {
      OneRowEvolves(s, Reject(s, id, u).value, i.value);
    }
  }

  lemma UpdateEvolves(s: State, id: nat, u: User, status: Option<Status>, isFavorite: Option<bool>)
    requires UpdateConnection(s, id, u, status, isFavorite).Ok?
    ensures Evolves(s, UpdateConnection(s, id, u, status, isFavorite).value)
  {
    var t := UpdateConnection(s, id, u, status, isFavorite).value;
    if t.connections == s.connections {
      SubsetEvolves(s, t);
    } else {
      OneRowEvolves(s, t, FindById(s.connections, id).value);
    }
  }

  lemma StrengthEvolves(s: State, id: nat, u: User, v: User, interactions: real)
    ensures UpdateStrength(s, id, interactions).Ok? ==> Evolves(s, UpdateStrength(s, id, interactions).value)
    ensures Evolves(s, CalculateStrength(s, u, v, interactions))
  {
    if UpdateStrength(s, id, interactions).Ok? {
      OneRowEvolves(s, UpdateStrength(s, id, interactions).value, FindById(s.connections, id).value);
    }
    var t := CalculateStrength(s, u, v, interactions);
    if FindBetween(s.connections, u, v).Some? {
      OneRowEvolves(s, t, FindBetween(s.connections, u, v).value);
    } else {
      SubsetEvolves(s, t);
    }
  }

  lemma RemoveEvolves(s: State, id: nat, u: User)
    requires RemoveConnection(s, id, u).Ok?
    ensures Evolves(s, RemoveConnection(s, id, u).value)
  {
    SubsetEvolves(s, RemoveConnection(s, id, u).value);
  }

  lemma BlockEvolves(s: State, u: User, v: User, reason: string)
    requires BlockUser(s, u, v, reason).Ok?
    ensures Evolves(s, BlockUser(s, u, v, reason).value)
  {
    SubsetEvolves(s, BlockUser(s, u, v, reason).value);
  }

  lemma StepEvolves(s: State, call: Call)
    requires Safe(s)
    ensures Evolves(s, Step(s, call))
  {
    SubsetEvolves(s, s);
    if Attempt(s, call).Ok? {
      match call
      case CallCreate(u, v, kind, now) => CreateEvolves(s, u, v, kind, now);
      case CallAccept(id, u) => DecideEvolves(s, id, u);
      case CallReject(id, u) => DecideEvolves(s, id, u);
      case CallUpdate(id, u, status, isFavorite) => UpdateEvolves(s, id, u, status, isFavorite);
      case CallStrength(id, interactions) => StrengthEvolves(s, id, "", "", interactions);
      case CallCalculate(u, v, interactions) => StrengthEvolves(s, 0, u, v, interactions);
      case CallRemove(id, u) => RemoveEvolves(s, id, u);
      case CallBlock(u, v, reason) => BlockEvolves(s, u, v, reason);
      case CallUnblock(u, v) => SubsetEvolves(s, UnblockUser(s, u, v).value);
      case CallRead(key) => SubsetEvolves(s, Read(s, key));
      case Expire(key) => SubsetEvolves(s, s.(cache := s.cache - {key}));
    }
  }

  lemma SameId(s: State, a: Connection, b: Connection)
    requires Safe(s) && a in s.connections && b in s.connections && a.id == b.id
    ensures a == b
  {
    var i :| 0 <= i < |s.connections| && s.connections[i] == a;
    var j :| 0 <= j < |s.connections| && s.connections[j] == b;
    assert !(i < j) && !(j < i);
  }

  /** What later values there can be after any number of calls. */
  lemma {:induction false} RunEvolves(users: map<User, Profile>, calls: seq<Call>, n: nat)
    requires n <= |calls|
    ensures Evolves(Run(users, calls[..n]), Run(users, calls))
    decreases |calls| - n
  {
    if n == |calls| {
      assert calls[..n] == calls;
      SubsetEvolves(Run(users, calls), Run(users, calls));
    } else {
      assert calls[..n + 1][..n] == calls[..n];
      RunSafe(users, calls[..n]);
      StepEvolves(Run(users, calls[..n]), calls[n]);
      RunEvolves(users, calls, n + 1);
      EvolvesChain(Run(users, calls[..n]), Run(users, calls[..n + 1]), Run(users, calls));
    }
  }

  lemma EvolvesChain(s: State, m: State, t: State)
    requires Evolves(s, m) && Evolves(m, t)
    ensures Evolves(s, t)
  {
    forall d | d in t.connections && d.id < s.nextId
      ensures HasOrigin(s, d)
    {
      assert HasOrigin(m, d);
      var b :| b in m.connections && LaterValue(b, d);
      assert HasOrigin(s, b);
      var c :| c in s.connections && LaterValue(c, b);
      assert LaterValue(c, d);
    }
  }

  /** A row that is accepted or rejected at some moment of a run has, whenever it exists later,
      the same ends, type and status. */
  lemma DecidedForever(users: map<User, Profile>, calls: seq<Call>, n: nat, c: Connection, d: Connection)
    requires n <= |calls| && c in Run(users, calls[..n]).connections && c.status != Pending
    requires d in Run(users, calls).connections && d.id == c.id
    ensures LaterValue(c, d)
  {
    var s := Run(users, calls[..n]);
    RunEvolves(users, calls, n);
    RunSafe(users, calls[..n]);
    assert RowSafe(c, s.blocks, s.nextId);
    assert HasOrigin(s, d);
    var b :| b in s.connections && LaterValue(b, d);
    SameId(s, b, c);
  }
}
