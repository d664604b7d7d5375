/** Who may do what to connections and blocks, and what each call leaves behind, said about the rows themselves; and
    that nobody is made a friend without having agreed. */
module ConnectionRules {
  import opened Connections
  import opened ConnectionSafety
  import opened Sequences

  // ---------------------------------------------------------------- when a call succeeds

  /** The row a call names, and who calls. */
  function RowOf(call: Call): Option<(nat, User)> {
    match call
    case CallAccept(id, u) => Some((id, u))
    case CallReject(id, u) => Some((id, u))
    case CallUpdate(id, u, _, _) => Some((id, u))
    case CallRemove(id, u) => Some((id, u))
    case CallStrength(id, _) => Some((id, ""))
    case _ => None
  }

  /** The one who was asked decides, once; either end may mark or remove; strength is raised by the system. */
  predicate MayChange(c: Connection, call: Call) {
    match call
    case CallAccept(_, u) => c.addresseeId == u && c.status == Pending
    case CallReject(_, u) => c.addresseeId == u && c.status == Pending
    case CallUpdate(_, u, Some(_), _) => c.addresseeId == u && c.status == Pending
    case CallUpdate(_, u, None, _) => c.addresseeId == u || c.requesterId == u
    case CallRemove(_, u) => c.addresseeId == u || c.requesterId == u
    case CallStrength(_, _) => true
    case _ => false
  }

  /** Neither has blocked the other. */
  ghost predicate Unblocked(s: State, u: User, v: User) {
    forall b :: b in s.blocks ==>
      !(b.userId == u && b.blockedId == v) && !(b.userId == v && b.blockedId == u)
  }

  ghost predicate Strangers(s: State, u: User, v: User) {
    forall c :: c in s.connections ==>
      !(c.requesterId == u && c.addresseeId == v) && !(c.requesterId == v && c.addresseeId == u)
  }

  /** `v` has asked `u` and waits for the answer. */
  ghost predicate Asked(s: State, v: User, u: User) {
    exists c :: c in s.connections && c.requesterId == v && c.addresseeId == u && c.status == Pending
  }

  ghost predicate MayConnect(s: State, u: User, v: User) {
    u in s.users && v in s.users && u != v && Unblocked(s, u, v)
  }

  ghost predicate MayCall(s: State, call: Call, id: nat) {
    exists c :: c in s.connections && c.id == id && MayChange(c, call)
  }

  ghost predicate Allowed(s: State, call: Call) {
    match call
    case CallCreate(u, v, kind, now) =>
      MayConnect(s, u, v) && (Strangers(s, u, v) || (Asked(s, v, u) && kind == Friendship))
    case CallBlock(u, v, reason) =>
      u in s.users && v in s.users && u != v && forall b :: b in s.blocks ==> !(b.userId == u && b.blockedId == v)
    case CallUnblock(u, v) => exists b :: b in s.blocks && b.userId == u && b.blockedId == v
    case _ => RowOf(call).Some? ==> MayCall(s, call, RowOf(call).value.0)
  }

  // ---------------------------------------------------------------- what it leaves behind

  /** The rows are those from before, but for row c, which became d. */
  ghost predicate Became(s: State, t: State, c: Connection, d: Connection) {
    forall x :: x in t.connections <==> x == d || (x in s.connections && x != c)
  }

  /** At most a hundred. */
  function Capped(x: real): real {
    if x > 100.0 then 100.0 else x
  }

  /** What a call makes of a row. */
  function Changed(c: Connection, call: Call): Connection {
    match call
    case CallAccept(_, _) => c.(status := Accepted)
    case CallReject(_, _) => c.(status := Rejected)
    case CallUpdate(_, _, Some(status), Some(isFavorite)) => c.(status := status, isFavorite := isFavorite)
    case CallUpdate(_, _, Some(status), None) => c.(status := status)
    case CallUpdate(_, _, None, Some(isFavorite)) => c.(isFavorite := isFavorite)
    case CallCreate(_, _, _, _) => c.(status := Accepted)
    case CallStrength(_, interactions) => c.(strength := Capped(c.strength + interactions / 10.0))
    case CallCalculate(_, _, interactions) => c.(strength := Capped(c.strength + interactions / 10.0))
    case _ => c
  }

  /** A new friendship request waits for its answer, a follow needs none. */
  ghost predicate IsNewRow(s: State, c: Connection, u: User, v: User, kind: Kind, now: int) {
    && c.id == s.nextId && c.requesterId == u && c.addresseeId == v && c.kind == kind
    && (c.status == Pending <==> kind == Friendship) && (c.status == Accepted <==> kind == Follow)
    && c.strength == 0.0 && !c.isFavorite && c.createdAt == now
  }

  /** One row between two users changed. */
  ghost predicate PairChanged(s: State, call: Call, t: State, u: User, v: User) {
    && t.blocks == s.blocks && t.nextId == s.nextId
    && exists c :: c in s.connections && Between(c, u, v) && Became(s, t, c, Changed(c, call))
  }

  /** The row with this id changed. */
  ghost predicate RowChanged(s: State, call: Call, t: State, id: nat) {
    exists c :: c in s.connections && c.id == id && Became(s, t, c, Changed(c, call))
  }

  ghost predicate RowAdded(s: State, t: State, u: User, v: User, kind: Kind, now: int) {
    && t.blocks == s.blocks && t.nextId == s.nextId + 1
    && exists c :: IsNewRow(s, c, u, v, kind, now) && t.connections == s.connections + [c]
  }

  ghost predicate Effect(s: State, call: Call, t: State) {
    match call
    case CallCreate(u, v, kind, now) =>
      if Strangers(s, u, v) then RowAdded(s, t, u, v, kind, now) else PairChanged(s, call, t, u, v)
    case CallRemove(id, u) =>
      && t.blocks == s.blocks && t.nextId == s.nextId
      && forall x :: x in t.connections <==> x in s.connections && x.id != id
    case CallBlock(u, v, reason) =>
      && t.blocks == s.blocks + [Block(u, v, reason)] && t.nextId == s.nextId
      && forall x :: x in t.connections <==> x in s.connections && !(x.requesterId in {u, v} && x.addresseeId in {u, v})
    case CallUnblock(u, v) =>
      && t.connections == s.connections && t.nextId == s.nextId
      && forall b :: b in t.blocks <==> b in s.blocks && !(b.userId == u && b.blockedId == v)
    case CallCalculate(u, v, interactions) =>
      if Strangers(s, u, v) then t == s else PairChanged(s, call, t, u, v)
    case _ =>
      && t.blocks == s.blocks && t.nextId == s.nextId
      && if RowOf(call).None? then t.connections == s.connections
         else RowChanged(s, call, t, RowOf(call).value.0)
  }

  predicate Stops(c: Connection, u: User, error: Error) {
    match error
    case NotRecipient => c.addresseeId != u
    case NotPending => c.status != Pending
    case _ => c.addresseeId != u && c.requesterId != u
  }

  /** The row a call names is not for the caller to decide, was decided before, or is none of the caller's. */
  ghost predicate Stopped(s: State, row: Option<(nat, User)>, error: Error) {
    row.Some? && exists c :: c in s.connections && c.id == row.value.0 && Stops(c, row.value.1, error)
  }

  /** What each refusal says is true. */
  ghost predicate Because(s: State, call: Call, error: Error) {
    match error
    case UserNotFound => Parties(call).Some? && (Parties(call).value.0 !in s.users || Parties(call).value.1 !in s.users)
    case SelfConnection => call.CallCreate? && call.u == call.v
    case BlockedPair => call.CallCreate? && !Unblocked(s, call.u, call.v)
    case AlreadyConnected =>
      call.CallCreate? && exists c :: c in s.connections && Between(c, call.u, call.v) && c.status == Accepted
    case AlreadyPending =>
      call.CallCreate? && exists c :: c in s.connections && Between(c, call.u, call.v) && c.status != Accepted
    case ConnectionNotFound => RowOf(call).Some? && forall c :: c in s.connections ==> c.id != RowOf(call).value.0
    case NotRecipient => Stopped(s, RowOf(call), error)
    case NotPending => Stopped(s, RowOf(call), error)
    case AccessDenied => Stopped(s, RowOf(call), error)
    case SelfBlock => call.CallBlock? && call.u == call.v
    case AlreadyBlocked => call.CallBlock? && exists b :: b in s.blocks && b.userId == call.u && b.blockedId == call.v
    case BlockNotFound =>
      call.CallUnblock? && forall b :: b in s.blocks ==> !(b.userId == call.u && b.blockedId == call.v)
  }

  /** The two users a call names. */
  function Parties(call: Call): Option<(User, User)> {
    match call
    case CallCreate(u, v, _, _) => Some((u, v))
    case CallBlock(u, v, _) => Some((u, v))
    case _ => None
  }

  /** All that can be said of a finished call: it succeeded exactly if it is allowed, and then left its effect;
      refused, it changed nothing and named a reason that holds. */
  ghost predicate Outcome<T>(s: State, call: Call, t: State, r: Result<T, Error>) {
    && (r.Ok? <==> Allowed(s, call))
    && (r.Ok? ==> t.users == s.users && Effect(s, call, t))
    && (r.Err? ==> t == s && Because(s, call, r.error))
  }

  // ---------------------------------------------------------------- finding rows

  lemma FindByIdIff(s: State, id: nat, c: Connection)
    requires Safe(s)
    ensures c in s.connections && c.id == id <==>
              FindById(s.connections, id).Some? && s.connections[FindById(s.connections, id).value] == c
  {
    if c in s.connections && c.id == id {
      var i :| 0 <= i < |s.connections| && s.connections[i] == c;
      FoundById(s.connections, i);
    }
  }

  lemma NoRow(s: State, id: nat)
    requires FindById(s.connections, id).None?
    ensures forall c :: c in s.connections ==> c.id != id
  {
  }

  lemma FindBetweenIff(s: State, u: User, v: User)
    ensures FindBetween(s.connections, u, v).None? <==> Strangers(s, u, v)
  {
    var i := FindBetween(s.connections, u, v);
    if i.Some? {
      assert s.connections[i.value] in s.connections;
    }
  }

  lemma OneBetween(s: State, u: User, v: User, c: Connection)
    requires Safe(s) && c in s.connections && Between(c, u, v)
    ensures FindBetween(s.connections, u, v).Some?
    ensures s.connections[FindBetween(s.connections, u, v).value] == c
  {
    var i := FindBetween(s.connections, u, v).value;
    var j :| 0 <= j < |s.connections| && s.connections[j] == c;
    assert !(i < j) && !(j < i);
  }

  lemma BlockedIff(s: State, u: User, v: User)
    ensures IsBlocked(s.blocks, u, v) <==> !Unblocked(s, u, v)
  {
  }

  lemma FindBlockIff(s: State, u: User, v: User)
    ensures FindBlock(s.blocks, u, v).Some? <==> exists b :: b in s.blocks && b.userId == u && b.blockedId == v
  {
    var i := FindBlock(s.blocks, u, v);
    if i.Some? {
      assert s.blocks[i.value] in s.blocks;
    }
  }

  lemma PutBecomes(s: State, t: State, i: nat, d: Connection)
    requires Safe(s) && i < |s.connections| && t.connections == s.connections[i := d]
    ensures Became(s, t, s.connections[i], d)
  {
    var c := s.connections[i];
    forall x
      ensures x in t.connections <==> x == d || (x in s.connections && x != c)
    {
      if x in s.connections && x != c {
        var j :| 0 <= j < |s.connections| && s.connections[j] == x;
        assert t.connections[j] == x;
      }
      assert t.connections[i] == d;
      if x in t.connections {
        var j :| 0 <= j < |t.connections| && t.connections[j] == x;
        if j != i {
          assert s.connections[j] == x && s.connections[j].id != c.id;
        }
      }
    }
  }

  lemma TakenAway(s: State, i: nat)
    requires Safe(s) && i < |s.connections|
    ensures forall x :: x in Without(s.connections, i) <==> x in s.connections && x.id != s.connections[i].id
  {
    var cs := s.connections;
    forall x
      ensures x in Without(cs, i) <==> x in cs && x.id != cs[i].id
    {
      if x in cs && x.id != cs[i].id {
        var j :| 0 <= j < |cs| && cs[j] == x;
        assert Without(cs, i)[if j < i then j else j - 1] == x;
      }
      if x in Without(cs, i) {
        var k :| 0 <= k < |Without(cs, i)| && Without(cs, i)[k] == x;
        var j := if k < i then k else k + 1;
        assert cs[j] == x && j != i;
      }
    }
  }

  // ---------------------------------------------------------------- the rules hold

  lemma DecideRule(s: State, id: nat, u: User)
    requires Safe(s)
    ensures Accept(s, id, u).Ok? <==> Allowed(s, CallAccept(id, u))
    ensures Reject(s, id, u).Ok? <==> Allowed(s, CallReject(id, u))
    ensures Accept(s, id, u).Ok? ==> Effect(s, CallAccept(id, u), Accept(s, id, u).value)
    ensures Reject(s, id, u).Ok? ==> Effect(s, CallReject(id, u), Reject(s, id, u).value)
  {
    var i := FindById(s.connections, id);
    if i.Some? {
      var c := s.connections[i.value];
      FindByIdIff(s, id, c);
      forall d | d in s.connections && d.id == id
        ensures d == c
      {
        FindByIdIff(s, id, d);
      }
      if Accept(s, id, u).Ok? {
        PutBecomes(s, Accept(s, id, u).value, i.value, c.(status := Accepted));
      }
      if Reject(s, id, u).Ok? {
        PutBecomes(s, Reject(s, id, u).value, i.value, c.(status := Rejected));
      }
    } else {
      NoRow(s, id);
    }
  }

  lemma CreateRule(s: State, u: User, v: User, kind: Kind, now: int)
    requires Safe(s)
    ensures Create(s, u, v, kind, now).Ok? <==> Allowed(s, CallCreate(u, v, kind, now))
    ensures Create(s, u, v, kind, now).Ok? ==> Effect(s, CallCreate(u, v, kind, now), Create(s, u, v, kind, now).value)
  {
    FindBetweenIff(s, u, v);
    BlockedIff(s, u, v);
    if MayConnect(s, u, v) {
      var i := FindBetween(s.connections, u, v);
      if i.Some? {
        AnswerRule(s, u, v, kind, now, s.connections[i.value]);
      } else if Create(s, u, v, kind, now).Ok? {
        var t := Create(s, u, v, kind, now).value;
        assert IsNewRow(s, t.connections[|s.connections|], u, v, kind, now);
      }
    }
  }

  lemma AnswerRule(s: State, u: User, v: User, kind: Kind, now: int, c: Connection)
    requires Safe(s) && MayConnect(s, u, v) && !IsBlocked(s.blocks, u, v)
    requires c in s.connections && Between(c, u, v) && !Strangers(s, u, v)
    ensures Create(s, u, v, kind, now).Ok? <==> Asked(s, v, u) && kind == Friendship
    ensures Create(s, u, v, kind, now).Ok? ==> Effect(s, CallCreate(u, v, kind, now), Create(s, u, v, kind, now).value)
  {
    OneBetween(s, u, v, c);
    forall d | d in s.connections && Between(d, u, v)
      ensures d == c
    {
      OneBetween(s, u, v, d);
    }
    AutoAcceptSucceeds(s, u, v, kind, now);
    var i := FindBetween(s.connections, u, v).value;
    FoundById(s.connections, i);
    if Create(s, u, v, kind, now).Ok? {
      PutBecomes(s, Create(s, u, v, kind, now).value, i, c.(status := Accepted));
    }
  }

  lemma UpdateRule(s: State, id: nat, u: User, status: Option<Status>, isFavorite: Option<bool>)
    requires Safe(s)
    ensures UpdateConnection(s, id, u, status, isFavorite).Ok? <==> Allowed(s, CallUpdate(id, u, status, isFavorite))
    ensures UpdateConnection(s, id, u, status, isFavorite).Ok? ==>
              Effect(s, CallUpdate(id, u, status, isFavorite), UpdateConnection(s, id, u, status, isFavorite).value)
  {
    var i := FindById(s.connections, id);
    if i.Some? {
      var c := s.connections[i.value];
      FindByIdIff(s, id, c);
      forall d | d in s.connections && d.id == id
        ensures d == c
      {
        FindByIdIff(s, id, d);
      }
      if UpdateConnection(s, id, u, status, isFavorite).Ok? {
        var t := UpdateConnection(s, id, u, status, isFavorite).value;
        PutBecomes(s, t, i.value, t.connections[i.value]);
        if status.None? && isFavorite.None? {
          assert s.connections[i.value := c] == s.connections;
        }
      }
    } else {
      NoRow(s, id);
    }
  }

  lemma RemoveRule(s: State, id: nat, u: User)
    requires Safe(s)
    ensures RemoveConnection(s, id, u).Ok? <==> Allowed(s, CallRemove(id, u))
    ensures RemoveConnection(s, id, u).Ok? ==> Effect(s, CallRemove(id, u), RemoveConnection(s, id, u).value)
  {
    var i := FindById(s.connections, id);
    if i.Some? {
      var c := s.connections[i.value];
      FindByIdIff(s, id, c);
      forall d | d in s.connections && d.id == id
        ensures d == c
      {
        FindByIdIff(s, id, d);
      }
      TakenAway(s, i.value);
    } else {
      NoRow(s, id);
    }
  }

  lemma BlockRule(s: State, u: User, v: User, reason: string)
    requires Safe(s)
    ensures BlockUser(s, u, v, reason).Ok? <==> Allowed(s, CallBlock(u, v, reason))
    ensures BlockUser(s, u, v, reason).Ok? ==> Effect(s, CallBlock(u, v, reason), BlockUser(s, u, v, reason).value)
  {
    FindBlockIff(s, u, v);
    FindBetweenIff(s, u, v);
    if BlockUser(s, u, v, reason).Ok? {
      var i := FindBetween(s.connections, u, v);
      if i.Some? {
        TakenAway(s, i.value);
        forall x | x in s.connections
          ensures x.id == s.connections[i.value].id <==> Between(x, u, v)
        {
          FindByIdIff(s, s.connections[i.value].id, x);
          FoundById(s.connections, i.value);
          if Between(x, u, v) {
            OneBetween(s, u, v, x);
          }
        }
      }
      forall x | x in s.connections
        ensures Between(x, u, v) <==> x.requesterId in {u, v} && x.addresseeId in {u, v}
      {
        assert RowSafe(x, s.blocks, s.nextId);
      }
    }
  }

  lemma UnblockRule(s: State, u: User, v: User)
    ensures UnblockUser(s, u, v).Ok? <==> Allowed(s, CallUnblock(u, v))
    ensures UnblockUser(s, u, v).Ok? ==> Effect(s, CallUnblock(u, v), UnblockUser(s, u, v).value)
  {
    FindBlockIff(s, u, v);
    FilterMembers(s.blocks, (b: Block) => !(b.userId == u && b.blockedId == v));
  }

  lemma StrengthRule(s: State, id: nat, interactions: real)
    requires Safe(s)
    ensures UpdateStrength(s, id, interactions).Ok? <==> Allowed(s, CallStrength(id, interactions))
    ensures UpdateStrength(s, id, interactions).Ok? ==>
              Effect(s, CallStrength(id, interactions), UpdateStrength(s, id, interactions).value)
  {
    var i := FindById(s.connections, id);
    if i.Some? {
      var c := s.connections[i.value];
      FindByIdIff(s, id, c);
      PutBecomes(s, UpdateStrength(s, id, interactions).value, i.value,
                 c.(strength := Capped(c.strength + interactions / 10.0)));
    } else {
      NoRow(s, id);
    }
  }

  lemma CalculateRule(s: State, u: User, v: User, interactions: real)
    requires Safe(s)
    ensures Effect(s, CallCalculate(u, v, interactions), CalculateStrength(s, u, v, interactions))
  {
    FindBetweenIff(s, u, v);
    var i := FindBetween(s.connections, u, v);
    if i.Some? {
      var c := s.connections[i.value];
      assert c in s.connections;
      PutBecomes(s, CalculateStrength(s, u, v, interactions), i.value,
                 c.(strength := Capped(c.strength + interactions / 10.0)));
    }
  }

  lemma RefusalRule(s: State, call: Call)
    requires Safe(s) && Attempt(s, call).Err?
    ensures Because(s, call, Attempt(s, call).error)
  {
    if call.CallCreate? {
      BlockedIff(s, call.u, call.v);
      var i := FindBetween(s.connections, call.u, call.v);
      if i.Some? {
        assert s.connections[i.value] in s.connections;
        FoundById(s.connections, i.value);
      }
    } else if call.CallBlock? || call.CallUnblock? {
      FindBlockIff(s, call.u, call.v);
    } else {
      var i := FindById(s.connections, call.id);
      if i.Some? {
        assert s.connections[i.value] in s.connections;
      }
    }
  }

  lemma CreateRefused(s: State, u: User, v: User, kind: Kind, now: int)
    requires Safe(s)
    ensures Create(s, u, v, kind, now).Err? ==>
              Because(s, CallCreate(u, v, kind, now), Create(s, u, v, kind, now).error)
  {
    if Create(s, u, v, kind, now).Err? {
      RefusalRule(s, CallCreate(u, v, kind, now));
    }
  }

  lemma UpdateRefused(s: State, id: nat, u: User, status: Option<Status>, isFavorite: Option<bool>)
    requires Safe(s)
    ensures UpdateConnection(s, id, u, status, isFavorite).Err? ==>
              Because(s, CallUpdate(id, u, status, isFavorite), UpdateConnection(s, id, u, status, isFavorite).error)
  {
    if UpdateConnection(s, id, u, status, isFavorite).Err? {
      RefusalRule(s, CallUpdate(id, u, status, isFavorite));
    }
  }

  lemma EffectRule(s: State, call: Call)
    requires Safe(s)
    ensures Attempt(s, call).Ok? <==> Allowed(s, call)
    ensures Allowed(s, call) ==> Effect(s, call, Step(s, call))
  {
    match call
    case CallCreate(u, v, kind, now) => CreateRule(s, u, v, kind, now);
    case CallAccept(id, u) => DecideRule(s, id, u);
    case CallReject(id, u) => DecideRule(s, id, u);
    case CallUpdate(id, u, status, isFavorite) => UpdateRule(s, id, u, status, isFavorite);
    case CallRemove(id, u) => RemoveRule(s, id, u);
    case CallBlock(u, v, reason) => BlockRule(s, u, v, reason);
    case CallUnblock(u, v) => UnblockRule(s, u, v);
    case CallStrength(id, interactions) => StrengthRule(s, id, interactions);
    case CallCalculate(u, v, interactions) => CalculateRule(s, u, v, interactions);
    case _ =>
  }

  /** Every call succeeds exactly when it is allowed, and then has exactly its effect; a refusal names a reason. */
  lemma Verdict(s: State, call: Call)
    requires Safe(s)
    ensures Attempt(s, call).Ok? <==> Allowed(s, call)
    ensures Allowed(s, call) ==> Effect(s, call, Step(s, call))
    ensures Attempt(s, call).Err? ==> Because(s, call, Attempt(s, call).error)
    ensures Step(s, call).users == s.users
  {
    EffectRule(s, call);
    if Attempt(s, call).Err? {
      RefusalRule(s, call);
    }
    StepKeepsUsers(s, call);
  }

  lemma StepKeepsUsers(s: State, call: Call)
    ensures Step(s, call).users == s.users
  {
  }

  // ---------------------------------------------------------------- consent

  predicate IsFriends(c: Connection) {
    c.kind == Friendship && c.status == Accepted
  }

  /** A call by which the addressee of row d agrees to it. */
  predicate Agrees(call: Call, d: Connection) {
    match call
    case CallAccept(id, u) => id == d.id && u == d.addresseeId
    case CallUpdate(id, u, status, isFavorite) => id == d.id && u == d.addresseeId && status == Some(Accepted)
    case CallCreate(u, v, kind, now) => u == d.addresseeId && v == d.requesterId && kind == Friendship
    case _ => false
  }

  ghost predicate WasFriends(s: State, d: Connection) {
    exists c :: c in s.connections && SameEnds(c, d) && IsFriends(c)
  }

  predicate SameEnds(c: Connection, d: Connection) {
    c.id == d.id && c.requesterId == d.requesterId && c.addresseeId == d.addresseeId
  }

  lemma BecameConsent(s: State, t: State, c: Connection, e: Connection, d: Connection)
    requires Became(s, t, c, e) && c in s.connections && SameEnds(c, e) && e.kind == c.kind && e.status == c.status
    requires d in t.connections && IsFriends(d)
    ensures WasFriends(s, d)
  {
    if d == e {
      assert SameEnds(c, d) && IsFriends(c);
    } else {
      assert SameEnds(d, d);
    }
  }

  /** A friendship that stands after a call stood before it, or the call is its addressee's agreement. */
  lemma StepConsent(s: State, call: Call, d: Connection)
    requires Safe(s) && d in Step(s, call).connections && IsFriends(d)
    ensures WasFriends(s, d) || Agrees(call, d)
  {
    EffectRule(s, call);
    assert SameEnds(d, d);
    if Allowed(s, call) && d !in s.connections {
      ChangedConsent(s, call, Step(s, call), d);
    }
  }

  lemma ChangedConsent(s: State, call: Call, t: State, d: Connection)
    requires Safe(s) && Allowed(s, call) && Effect(s, call, t)
    requires d in t.connections && d !in s.connections && IsFriends(d)
    ensures WasFriends(s, d) || Agrees(call, d)
  {
    if call.CallCalculate? {
      var c :| c in s.connections && Between(c, call.u, call.v) && Became(s, t, c, Changed(c, call));
      BecameConsent(s, t, c, Changed(c, call), d);
    } else if RowOf(call).Some? && !call.CallRemove? {
      OnlyRow(s, call.id);
      var c :| c in s.connections && c.id == call.id && Became(s, t, c, Changed(c, call));
      if Changed(c, call).status == c.status {
        BecameConsent(s, t, c, Changed(c, call), d);
      }
    }
  }

  lemma OnlyRow(s: State, id: nat)
    requires Safe(s)
    ensures forall c, d :: c in s.connections && d in s.connections && c.id == id && d.id == id ==> c == d
  {
    forall c, d | c in s.connections && d in s.connections && c.id == id && d.id == id
      ensures c == d
    {
      SameId(s, c, d);
    }
  }

  /** Over any run: behind every friendship there is a call by which its addressee agreed. */
  lemma {:induction false} RunConsent(users: map<User, Profile>, calls: seq<Call>, d: Connection)
    requires d in Run(users, calls).connections && IsFriends(d)
    ensures exists call :: call in calls && Agrees(call, d)
  {
    var init, call := calls[..|calls| - 1], calls[|calls| - 1];
    RunSafe(users, init);
    StepConsent(Run(users, init), call, d);
    assert call in calls;
    if !Agrees(call, d) {
      var c :| c in Run(users, init).connections && SameEnds(c, d) && IsFriends(c);
      RunConsent(users, init, c);
      var agreed :| agreed in init && Agrees(agreed, c);
      assert agreed in calls && Agrees(agreed, d);
    }
  }
}
