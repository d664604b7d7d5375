/** Encrypted conversations: a session row per pair of users fixes the order in which their public keys
    are hashed, and either of them reads with the key so derived. */
module Conversations {
  import opened Sequences
  import opened Crypto

  type User = string

  datatype Session = Session(userIdA: User, userIdB: User, keyIdentifier: Bytes)

  /** A stored row; rows are kept in the order they were created. */
  datatype Stored = Stored(envelope: Envelope, senderId: User, recipientId: User)

  datatype View = View(content: string, fromMe: bool)

  datatype Error = UserNotFound | DecryptionFailed

  datatype State = State(publicKeys: map<User, string>, sessions: seq<Session>, messages: seq<Stored>)

  datatype Opened = Opened(state: State, key: Bytes)

  predicate BetweenUsers(m: Stored, u: User, o: User) {
    (m.senderId == u && m.recipientId == o) || (m.senderId == o && m.recipientId == u)
  }

  function FindSession(sessions: seq<Session>, id: Bytes): (r: Option<Session>)
    ensures r.Some? ==> r.value in sessions && r.value.keyIdentifier == id
    ensures r.None? ==> forall s :: s in sessions ==> s.keyIdentifier != id
  {
    if sessions == [] then None
    else if sessions[0].keyIdentifier == id then Some(sessions[0])
    else
      var r := FindSession(sessions[1..], id);
      assert sessions == [sessions[0]] + sessions[1..];
      r
  }

  function DeriveFor(c: Primitives, s: State, a: User, b: User): Result<Bytes, Error> {
    if a in s.publicKeys && b in s.publicKeys then Ok(c.DeriveSharedKey(s.publicKeys[a], s.publicKeys[b]))
    else Err(UserNotFound)
  }

  /** The session of the pair, made in the order of the arguments when there is none yet. */
  function GetOrCreateSession(c: Primitives, s: State, a: User, b: User): Result<Opened, Error> {
    var id := c.CreateSessionKeyIdentifier(a, b);
    var found := FindSession(s.sessions, id);
    if found.Some? then
      var key := DeriveFor(c, s, found.value.userIdA, found.value.userIdB);
      if key.Ok? then Ok(Opened(s, key.value)) else Err(key.error)
    else
      var key := DeriveFor(c, s, a, b);
      if key.Ok? then Ok(Opened(s.(sessions := s.sessions + [Session(a, b, id)]), key.value)) else Err(key.error)
  }

  function SendResult(c: Primitives, s: State, sender: User, recipient: User, content: string,
                      iv: Bytes): Result<State, Error> {
    var opening := GetOrCreateSession(c, s, sender, recipient);
    if opening.Err? then Err(opening.error)
    else
      var t := opening.value.state;
      Ok(t.(messages := t.messages + [Stored(c.Seal(content, opening.value.key, iv), sender, recipient)]))
  }

  /** Decrypts row after row; one that fails to open fails the whole call. */
  function DecryptAll(c: Primitives, rows: seq<Stored>, key: Bytes, u: User): Result<seq<View>, Error> {
    if rows == [] then Ok([])
    else
      var init := DecryptAll(c, rows[..|rows| - 1], key, u);
      var last := rows[|rows| - 1];
      var text := c.Decrypt(last.envelope, key);
      if init.Ok? && text.Some? then Ok(init.value + [View(text.value, last.senderId == u)]) else Err(DecryptionFailed)
  }

  function ReadResult(c: Primitives, s: State, u: User, o: User): Result<seq<View>, Error> {
    var rows := Filter(s.messages, (m: Stored) => BetweenUsers(m, u, o));
    if rows == [] then Ok([])
    else
      var opening := GetOrCreateSession(c, s, u, o);
      if opening.Err? then Err(opening.error) else DecryptAll(c, rows, opening.value.key, u)
  }

  /** Reading may have to make the session first. */
  function AfterReading(c: Primitives, s: State, u: User, o: User): State {
    var opening := GetOrCreateSession(c, s, u, o);
    if Filter(s.messages, (m: Stored) => BetweenUsers(m, u, o)) == [] || opening.Err? then s else opening.value.state
  }

  // ---------------------------------------------------------------- runs

  datatype Call =
    | Register(user: User, publicKey: string)
    | UpdatePublicKey(user: User, publicKey: string)
    | Send(sender: User, recipient: User, content: string, iv: Bytes)
    | Read(reader: User, other: User)

  function Step(c: Primitives, s: State, call: Call): State {
    match call
    case Register(u, k) => if u in s.publicKeys then s else s.(publicKeys := s.publicKeys[u := k])
    case UpdatePublicKey(u, k) => if u !in s.publicKeys then s else s.(publicKeys := s.publicKeys[u := k])
    case Send(a, b, content, iv) => var r := SendResult(c, s, a, b, content, iv); if r.Ok? then r.value else s
    case Read(u, o) => AfterReading(c, s, u, o)
  }

  function Run(c: Primitives, calls: seq<Call>): State {
    if calls == [] then State(map[], [], []) else Step(c, Run(c, calls[..|calls| - 1]), calls[|calls| - 1])
  }

  /** What was sent, in order: sender, recipient, plaintext, the key it was sealed with, and the public keys
      of both at that moment. */
  datatype Sent = Sent(
    sender: User, recipient: User, content: string, key: Bytes, senderKey: string, recipientKey: string)

  function PublicKeyOf(s: State, u: User): string {
    if u in s.publicKeys then s.publicKeys[u] else ""
  }

  function Entry(c: Primitives, s: State, a: User, b: User, content: string): Sent
    requires GetOrCreateSession(c, s, a, b).Ok?
  {
    Sent(a, b, content, GetOrCreateSession(c, s, a, b).value.key, PublicKeyOf(s, a), PublicKeyOf(s, b))
  }

  function Log(c: Primitives, calls: seq<Call>): seq<Sent> {
    if calls == [] then []
    else LogStep(c, Run(c, calls[..|calls| - 1]), Log(c, calls[..|calls| - 1]), calls[|calls| - 1])
  }

  /** A message that is sent joins the log with the key its session had. */
  function LogStep(c: Primitives, s: State, log: seq<Sent>, call: Call): seq<Sent> {
    if call.Send? && GetOrCreateSession(c, s, call.sender, call.recipient).Ok? then
      log + [Entry(c, s, call.sender, call.recipient, call.content)]
    else log
  }

  predicate Exchanged(e: Sent, u: User, o: User) {
    (e.sender == u && e.recipient == o) || (e.sender == o && e.recipient == u)
  }

  /** The pair's plaintexts as `u` should see them. */
  function Transcript(log: seq<Sent>, u: User, o: User): seq<View> {
    Map(Filter(log, (e: Sent) => Exchanged(e, u, o)), (e: Sent) => View(e.content, e.sender == u))
  }

  // ---------------------------------------------------------------- what every run keeps

  ghost predicate CleanIds(calls: seq<Call>) {
    forall call :: call in calls && call.Register? ==> '_' !in call.user
  }

  ghost predicate OpensOnlyWith(c: Primitives, envelope: Envelope, key: Bytes, content: string) {
    forall other :: c.Decrypt(envelope, other) == if other == key then Some(content) else None
  }

  /** Row i holds entry i of the log. */
  ghost predicate Holds(c: Primitives, m: Stored, e: Sent) {
    m.senderId == e.sender && m.recipientId == e.recipient && OpensOnlyWith(c, m.envelope, e.key, e.content)
  }

  /** Each session row belongs to two registered users, and no two rows to the same two. */
  ghost predicate SessionsSound(c: Primitives, s: State) {
    && (forall u :: u in s.publicKeys ==> '_' !in u)
    && (forall x :: x in s.sessions ==>
          x.userIdA in s.publicKeys && x.userIdB in s.publicKeys
          && x.keyIdentifier == c.CreateSessionKeyIdentifier(x.userIdA, x.userIdB))
    && (forall i, j :: 0 <= i < j < |s.sessions| ==> s.sessions[i].keyIdentifier != s.sessions[j].keyIdentifier)
  }

  ghost predicate Invariant(c: Primitives, s: State, log: seq<Sent>) {
    && SessionsSound(c, s)
    && |log| == |s.messages|
    && (forall i :: 0 <= i < |log| ==> Holds(c, s.messages[i], log[i]))
    && (forall e :: e in log ==> FindSession(s.sessions, c.CreateSessionKeyIdentifier(e.sender, e.recipient)).Some?)
  }

  lemma {:induction false} FindSessionAppend(sessions: seq<Session>, x: Session, id: Bytes)
    ensures FindSession(sessions + [x], id)
         == if FindSession(sessions, id).Some? then FindSession(sessions, id)
            else if x.keyIdentifier == id then Some(x) else None
  {
    if sessions != [] {
      assert (sessions + [x])[1..] == sessions[1..] + [x];
      FindSessionAppend(sessions[1..], x, id);
    } else {
      assert sessions + [x] == [x];
    }
  }

  /** Opening a session twice, or from the other side, finds the row made the first time. */
  lemma SessionStays(c: Primitives, s: State, a: User, b: User)
    requires GetOrCreateSession(c, s, a, b).Ok?
    ensures var t := GetOrCreateSession(c, s, a, b).value.state;
            && GetOrCreateSession(c, t, a, b) == Ok(Opened(t, GetOrCreateSession(c, s, a, b).value.key))
            && GetOrCreateSession(c, t, b, a) == GetOrCreateSession(c, t, a, b)
            && FindSession(t.sessions, c.CreateSessionKeyIdentifier(a, b)).Some?
  {
    var id := c.CreateSessionKeyIdentifier(a, b);
    c.IdentifierSymmetric(a, b);
    FindSessionAppend(s.sessions, Session(a, b, id), id);
  }

  lemma OpenSound(c: Primitives, s: State, a: User, b: User)
    requires SessionsSound(c, s) && GetOrCreateSession(c, s, a, b).Ok?
    ensures SessionsSound(c, GetOrCreateSession(c, s, a, b).value.state)
  {
  }

  lemma KeysKeep(c: Primitives, s: State, log: seq<Sent>, u: User, publicKey: string)
    requires Invariant(c, s, log) && '_' !in u
    ensures Invariant(c, s.(publicKeys := s.publicKeys[u := publicKey]), log)
  {
  }

  lemma StepInvariant(c: Primitives, s: State, log: seq<Sent>, call: Call)
    requires c.Lawful() && Invariant(c, s, log) && (call.Register? ==> '_' !in call.user)
    ensures Invariant(c, Step(c, s, call), LogStep(c, s, log, call))
  {
    match call
    case Register(u, k) => KeysKeep(c, s, log, u, k);
    case UpdatePublicKey(u, k) =>
      if u in s.publicKeys {
        KeysKeep(c, s, log, u, k);
      }
    case Send(a, b, content, iv) =>
      if GetOrCreateSession(c, s, a, b).Ok? {
        SendKeeps(c, s, log, a, b, content, iv);
      }
    case Read(u, o) =>
      if GetOrCreateSession(c, s, u, o).Ok? {
        OpenKeeps(c, s, log, u, o);
      }
  }

  lemma {:induction false} RunInvariant(c: Primitives, calls: seq<Call>)
    requires c.Lawful() && CleanIds(calls)
    ensures Invariant(c, Run(c, calls), Log(c, calls))
  {
    if calls != [] {
      var init, call := calls[..|calls| - 1], calls[|calls| - 1];
      assert CleanIds(init) && call in calls;
      RunInvariant(c, init);
      StepInvariant(c, Run(c, init), Log(c, init), call);
    }
  }

  lemma OpenKeeps(c: Primitives, s: State, log: seq<Sent>, a: User, b: User)
    requires Invariant(c, s, log) && GetOrCreateSession(c, s, a, b).Ok?
    ensures Invariant(c, GetOrCreateSession(c, s, a, b).value.state, log)
  {
    var id := c.CreateSessionKeyIdentifier(a, b);
    OpenSound(c, s, a, b);
    forall e | e in log
      ensures FindSession(GetOrCreateSession(c, s, a, b).value.state.sessions,
                          c.CreateSessionKeyIdentifier(e.sender, e.recipient)).Some?
    {
      FindSessionAppend(s.sessions, Session(a, b, id), c.CreateSessionKeyIdentifier(e.sender, e.recipient));
    }
  }

  lemma SealedHolds(c: Primitives, m: Stored, e: Sent, iv: Bytes)
    requires c.Lawful() && m == Stored(c.Seal(e.content, e.key, iv), e.sender, e.recipient)
    ensures Holds(c, m, e)
  {
    forall other
      ensures c.Decrypt(m.envelope, other) == if other == e.key then Some(e.content) else None
    {
      c.DecryptSeal(e.content, e.key, iv, other);
    }
  }

  lemma AppendKeeps(c: Primitives, s: State, log: seq<Sent>, m: Stored, e: Sent)
    requires Invariant(c, s, log) && Holds(c, m, e)
    requires FindSession(s.sessions, c.CreateSessionKeyIdentifier(e.sender, e.recipient)).Some?
    ensures Invariant(c, s.(messages := s.messages + [m]), log + [e])
  {
  }

  lemma SendKeeps(c: Primitives, s: State, log: seq<Sent>, a: User, b: User, content: string, iv: Bytes)
    requires c.Lawful() && Invariant(c, s, log) && GetOrCreateSession(c, s, a, b).Ok?
    ensures Invariant(c, SendResult(c, s, a, b, content, iv).value, log + [Entry(c, s, a, b, content)])
  {
    var opening := GetOrCreateSession(c, s, a, b).value;
    OpenKeeps(c, s, log, a, b);
    SessionStays(c, s, a, b);
    var m := Stored(c.Seal(content, opening.key, iv), a, b);
    SealedHolds(c, m, Entry(c, s, a, b, content), iv);
    AppendKeeps(c, opening.state, log, m, Entry(c, s, a, b, content));
  }

  // ---------------------------------------------------------------- reading

  /** Stored rows and log entries of a pair correspond one to one. */
  lemma {:induction false} PairRows(c: Primitives, rows: seq<Stored>, log: seq<Sent>, u: User, o: User)
    requires |rows| == |log| && forall i :: 0 <= i < |log| ==> Holds(c, rows[i], log[i])
    ensures var mine := Filter(rows, (m: Stored) => BetweenUsers(m, u, o));
            var sent := Filter(log, (e: Sent) => Exchanged(e, u, o));
            |mine| == |sent| && forall i :: 0 <= i < |sent| ==> Holds(c, mine[i], sent[i])
  {
    if rows != [] {
      PairRows(c, rows[..|rows| - 1], log[..|log| - 1], u, o);
      assert Holds(c, rows[|rows| - 1], log[|log| - 1]);
    }
  }

  ghost predicate AllUnder(log: seq<Sent>, key: Bytes) {
    forall i :: 0 <= i < |log| ==> log[i].key == key
  }

  lemma {:induction false} DecryptAllExact(c: Primitives, rows: seq<Stored>, sent: seq<Sent>, key: Bytes, u: User)
    requires |rows| == |sent| && forall i :: 0 <= i < |sent| ==> Holds(c, rows[i], sent[i])
    ensures DecryptAll(c, rows, key, u)
         == if AllUnder(sent, key) then Ok(Map(sent, (e: Sent) => View(e.content, e.sender == u)))
            else Err(DecryptionFailed)
  {
    if rows != [] {
      var n := |rows| - 1;
      DecryptAllExact(c, rows[..n], sent[..n], key, u);
      assert Holds(c, rows[n], sent[n]);
      assert AllUnder(sent, key) <==> AllUnder(sent[..n], key) && sent[n].key == key;
      var view := (e: Sent) => View(e.content, e.sender == u);
      assert Map(sent, view) == Map(sent[..n], view) + [view(sent[n])];
    }
  }

  /** Exactly what reading returns, with or without key changes: the pair's plaintexts in order if every
      one was sealed with the key the session derives now, and a failure as soon as one was not. */
  lemma ReadExact(c: Primitives, s: State, log: seq<Sent>, u: User, o: User)
    requires Invariant(c, s, log)
    ensures var sent := Filter(log, (e: Sent) => Exchanged(e, u, o));
            if sent == [] then ReadResult(c, s, u, o) == Ok([])
            else
              && GetOrCreateSession(c, s, u, o).Ok?
              && ReadResult(c, s, u, o)
                 == if AllUnder(sent, GetOrCreateSession(c, s, u, o).value.key) then Ok(Transcript(log, u, o))
                    else Err(DecryptionFailed)
  {
    PairRows(c, s.messages, log, u, o);
    var sent := Filter(log, (e: Sent) => Exchanged(e, u, o));
    var rows := Filter(s.messages, (m: Stored) => BetweenUsers(m, u, o));
    if sent != [] {
      FilterMembers(log, (e: Sent) => Exchanged(e, u, o));
      assert sent[0] in sent;
      c.IdentifierSymmetric(u, o);
      DecryptAllExact(c, rows, sent, GetOrCreateSession(c, s, u, o).value.key, u);
    }
  }

  // ---------------------------------------------------------------- the key stays

  /** Everything the pair exchanged was sealed with the key its session derives now. */
  ghost predicate KeyStable(c: Primitives, s: State, log: seq<Sent>, u: User, o: User) {
    forall e :: e in log && Exchanged(e, u, o) ==>
      GetOrCreateSession(c, s, u, o).Ok? && GetOrCreateSession(c, s, u, o).value.key == e.key
  }

  /** A pair's session row names that pair, so its key depends on the two public keys only. */
  lemma SessionOfPair(c: Primitives, s: State, u: User, o: User)
    requires c.Lawful() && SessionsSound(c, s)
    ensures var found := FindSession(s.sessions, c.CreateSessionKeyIdentifier(u, o));
            found.Some? ==>
              (found.value.userIdA == u && found.value.userIdB == o) ||
                (found.value.userIdA == o && found.value.userIdB == u)
  {
    var found := FindSession(s.sessions, c.CreateSessionKeyIdentifier(u, o));
    if found.Some? {
      c.IdentifierInjective(found.value.userIdA, found.value.userIdB, u, o);
    }
  }

  /** Other users' keys, new users and new sessions leave the pair's key alone. */
  lemma KeyFrame(c: Primitives, s: State, t: State, log: seq<Sent>, u: User, o: User)
    requires c.Lawful() && Invariant(c, s, log)
    requires FindSession(s.sessions, c.CreateSessionKeyIdentifier(u, o)).Some?
    requires FindSession(t.sessions, c.CreateSessionKeyIdentifier(u, o))
          == FindSession(s.sessions, c.CreateSessionKeyIdentifier(u, o))
    requires forall w :: w == u || w == o ==> w in s.publicKeys ==>
               w in t.publicKeys && t.publicKeys[w] == s.publicKeys[w]
    ensures GetOrCreateSession(c, s, u, o).Ok? && GetOrCreateSession(c, t, u, o).Ok?
    ensures GetOrCreateSession(c, t, u, o).value.key == GetOrCreateSession(c, s, u, o).value.key
  {
    SessionOfPair(c, s, u, o);
    var found := FindSession(s.sessions, c.CreateSessionKeyIdentifier(u, o)).value;
    assert found in s.sessions;
  }

  /** A session once made is found by every later call. */
  lemma StepKeepsSession(c: Primitives, s: State, call: Call, id: Bytes)
    requires FindSession(s.sessions, id).Some?
    ensures FindSession(Step(c, s, call).sessions, id) == FindSession(s.sessions, id)
  {
    if call.Send? {
      FindSessionAppend(s.sessions, Session(call.sender, call.recipient,
                                            c.CreateSessionKeyIdentifier(call.sender, call.recipient)), id);
    }
    if call.Read? {
      FindSessionAppend(s.sessions, Session(call.reader, call.other,
                                            c.CreateSessionKeyIdentifier(call.reader, call.other)), id);
    }
  }

  lemma StepKeepsPublicKey(c: Primitives, s: State, call: Call, w: User)
    requires w in s.publicKeys && (call.UpdatePublicKey? ==> call.user != w)
    ensures w in Step(c, s, call).publicKeys && Step(c, s, call).publicKeys[w] == s.publicKeys[w]
  {
  }

  lemma StepKeyStable(c: Primitives, s: State, log: seq<Sent>, call: Call, u: User, o: User)
    requires c.Lawful() && Invariant(c, s, log) && KeyStable(c, s, log, u, o)
    requires call.UpdatePublicKey? ==> call.user != u && call.user != o
    ensures KeyStable(c, Step(c, s, call), log, u, o)
  {
    var t := Step(c, s, call);
    var id := c.CreateSessionKeyIdentifier(u, o);
    c.IdentifierSymmetric(u, o);
    if FindSession(s.sessions, id).Some? {
      StepKeepsSession(c, s, call, id);
      forall w | w == u || w == o
        ensures w in s.publicKeys ==> w in t.publicKeys && t.publicKeys[w] == s.publicKeys[w]
      {
        if w in s.publicKeys {
          StepKeepsPublicKey(c, s, call, w);
        }
      }
      KeyFrame(c, s, t, log, u, o);
    }
  }

  /** A message just sent was sealed with the key its session derives now. */
  lemma SentKeyStable(c: Primitives, s: State, log: seq<Sent>, a: User, b: User, content: string, u: User, o: User)
    requires GetOrCreateSession(c, s, a, b).Ok?
    requires KeyStable(c, GetOrCreateSession(c, s, a, b).value.state, log, u, o)
    ensures KeyStable(c, GetOrCreateSession(c, s, a, b).value.state,
                      log + [Entry(c, s, a, b, content)], u, o)
  {
    SessionStays(c, s, a, b);
  }

  /** Keys depend on users and sessions, not on messages. */
  lemma KeyIgnoresMessages(c: Primitives, s: State, t: State, log: seq<Sent>, u: User, o: User)
    requires t.publicKeys == s.publicKeys && t.sessions == s.sessions && KeyStable(c, s, log, u, o)
    ensures KeyStable(c, t, log, u, o)
  {
  }

  lemma {:induction false} RunKeyStable(c: Primitives, calls: seq<Call>, u: User, o: User)
    requires c.Lawful() && CleanIds(calls)
    requires forall call :: call in calls && call.UpdatePublicKey? ==> call.user != u && call.user != o
    ensures KeyStable(c, Run(c, calls), Log(c, calls), u, o)
  {
    if calls != [] {
      var init, call := calls[..|calls| - 1], calls[|calls| - 1];
      assert call in calls && forall x :: x in init ==> x in calls;
      RunKeyStable(c, init, u, o);
      RunInvariant(c, init);
      var s, log := Run(c, init), Log(c, init);
      StepKeyStable(c, s, log, call, u, o);
      if call.Send? && GetOrCreateSession(c, s, call.sender, call.recipient).Ok? {
        var opening := GetOrCreateSession(c, s, call.sender, call.recipient).value;
        KeyIgnoresMessages(c, Step(c, s, call), opening.state, log, u, o);
        SentKeyStable(c, s, log, call.sender, call.recipient, call.content, u, o);
        KeyIgnoresMessages(c, opening.state, Step(c, s, call), Log(c, calls), u, o);
      }
    }
  }

  // ---------------------------------------------------------------- what can be sent

  ghost predicate Registered(calls: seq<Call>, u: User) {
    exists call :: call in calls && call.Register? && call.user == u
  }

  lemma {:induction false} RegisteredIff(c: Primitives, calls: seq<Call>, u: User)
    ensures u in Run(c, calls).publicKeys <==> Registered(calls, u)
  {
    if calls != [] {
      var init, call := calls[..|calls| - 1], calls[|calls| - 1];
      RegisteredIff(c, init, u);
      assert calls == init + [call];
      assert call in calls;
    }
  }

  /** A session can be opened exactly for two known users. */
  lemma OpenIff(c: Primitives, s: State, a: User, b: User)
    requires c.Lawful() && SessionsSound(c, s)
    ensures GetOrCreateSession(c, s, a, b).Ok? <==> a in s.publicKeys && b in s.publicKeys
  {
    SessionOfPair(c, s, a, b);
  }

  /** In any run a message can be sent exactly when both users have registered. */
  lemma SendIff(c: Primitives, calls: seq<Call>, a: User, b: User, content: string, iv: Bytes)
    requires c.Lawful() && CleanIds(calls)
    ensures SendResult(c, Run(c, calls), a, b, content, iv).Ok? <==> Registered(calls, a) && Registered(calls, b)
  {
    RunInvariant(c, calls);
    OpenIff(c, Run(c, calls), a, b);
    RegisteredIff(c, calls, a);
    RegisteredIff(c, calls, b);
  }

  datatype Post = Post(sender: User, recipient: User, content: string)

  /** What was posted, told from the calls alone: the sends between users who had registered by then. */
  ghost function Posted(calls: seq<Call>): seq<Post> {
    if calls == [] then []
    else
      var init, call := calls[..|calls| - 1], calls[|calls| - 1];
      if call.Send? && Registered(init, call.sender) && Registered(init, call.recipient) then
        Posted(init) + [Post(call.sender, call.recipient, call.content)]
      else Posted(init)
  }

  ghost function PostedBetween(calls: seq<Call>, u: User, o: User): seq<Post> {
    Filter(Posted(calls), (p: Post) => (p.sender == u && p.recipient == o) || (p.sender == o && p.recipient == u))
  }

  function PostOf(e: Sent): Post {
    Post(e.sender, e.recipient, e.content)
  }

  /** The log holds exactly what was posted. */
  lemma {:induction false} LogIsPosted(c: Primitives, calls: seq<Call>)
    requires c.Lawful() && CleanIds(calls)
    ensures Map(Log(c, calls), PostOf) == Posted(calls)
  {
    if calls != [] {
      var init, call := calls[..|calls| - 1], calls[|calls| - 1];
      assert CleanIds(init);
      LogIsPosted(c, init);
      if call.Send? {
        SendIff(c, init, call.sender, call.recipient, call.content, call.iv);
      }
    }
  }

  lemma {:induction false} PairPosts(log: seq<Sent>, u: User, o: User)
    ensures Map(Filter(log, (e: Sent) => Exchanged(e, u, o)), PostOf)
         == Filter(Map(log, PostOf),
                   (p: Post) => (p.sender == u && p.recipient == o) || (p.sender == o && p.recipient == u))
  {
    if log != [] {
      var n := |log| - 1;
      PairPosts(log[..n], u, o);
      assert Map(log, PostOf)[..n] == Map(log[..n], PostOf);
    }
  }

  /** The reader sees exactly these texts, in this order, marked as own where the reader sent them. */
  ghost predicate Shows(views: seq<View>, posts: seq<Post>, reader: User) {
    && |views| == |posts|
    && forall i :: 0 <= i < |posts| ==>
         views[i].content == posts[i].content && (views[i].fromMe <==> posts[i].sender == reader)
  }

  lemma TranscriptShows(c: Primitives, calls: seq<Call>, u: User, o: User)
    requires c.Lawful() && CleanIds(calls)
    ensures Shows(Transcript(Log(c, calls), u, o), PostedBetween(calls, u, o), u)
  {
    LogIsPosted(c, calls);
    PairPosts(Log(c, calls), u, o);
    var sent := Filter(Log(c, calls), (e: Sent) => Exchanged(e, u, o));
    forall i | 0 <= i < |sent|
      ensures PostedBetween(calls, u, o)[i] == PostOf(sent[i])
    {
    }
  }

  /** In any run without a change of either user's public key, both read exactly what was posted between them, in
      order and marked by who sent it, whoever opened the session. */
  lemma BothRead(c: Primitives, calls: seq<Call>, u: User, o: User)
    requires c.Lawful() && CleanIds(calls)
    requires forall call :: call in calls && call.UpdatePublicKey? ==> call.user != u && call.user != o
    ensures ReadResult(c, Run(c, calls), u, o).Ok? && ReadResult(c, Run(c, calls), o, u).Ok?
    ensures Shows(ReadResult(c, Run(c, calls), u, o).value, PostedBetween(calls, u, o), u)
    ensures Shows(ReadResult(c, Run(c, calls), o, u).value, PostedBetween(calls, o, u), o)
    ensures PostedBetween(calls, o, u) == PostedBetween(calls, u, o)
  {
    ReadsTranscript(c, calls, u, o);
    ReadsTranscript(c, calls, o, u);
    TranscriptShows(c, calls, u, o);
    TranscriptShows(c, calls, o, u);
    FilterExtensional(
      Posted(calls),
      (p: Post) => (p.sender == u && p.recipient == o) || (p.sender == o && p.recipient == u),
      (p: Post) => (p.sender == o && p.recipient == u) || (p.sender == u && p.recipient == o));
  }

  lemma ReadsTranscript(c: Primitives, calls: seq<Call>, u: User, o: User)
    requires c.Lawful() && CleanIds(calls)
    requires forall call :: call in calls && call.UpdatePublicKey? ==> call.user != u && call.user != o
    ensures ReadResult(c, Run(c, calls), u, o) == Ok(Transcript(Log(c, calls), u, o))
  {
    RunInvariant(c, calls);
    RunKeyStable(c, calls, u, o);
    var s, log := Run(c, calls), Log(c, calls);
    ReadExact(c, s, log, u, o);
    var sent := Filter(log, (e: Sent) => Exchanged(e, u, o));
    FilterMembers(log, (e: Sent) => Exchanged(e, u, o));
    forall i | 0 <= i < |sent|
      ensures GetOrCreateSession(c, s, u, o).Ok? && sent[i].key == GetOrCreateSession(c, s, u, o).value.key
    {
      assert sent[i] in sent;
    }
  }

  /** Both see the same texts; a message of one to the other is `fromMe` for exactly one of them. */
  lemma TwoSides(log: seq<Sent>, u: User, o: User)
    requires u != o
    ensures |Transcript(log, u, o)| == |Transcript(log, o, u)|
    ensures forall i :: 0 <= i < |Transcript(log, u, o)| ==>
              && Transcript(log, u, o)[i].content == Transcript(log, o, u)[i].content
              && Transcript(log, u, o)[i].fromMe == !Transcript(log, o, u)[i].fromMe
  {
    FilterExtensional(log, (e: Sent) => Exchanged(e, u, o), (e: Sent) => Exchanged(e, o, u));
    FilterMembers(log, (e: Sent) => Exchanged(e, u, o));
    var sent := Filter(log, (e: Sent) => Exchanged(e, u, o));
    forall i | 0 <= i < |sent|
      ensures Exchanged(sent[i], u, o)
    {
      assert sent[i] in sent;
    }
  }

  // ---------------------------------------------------------------- the services

  class Messenger {
    const crypto: Primitives
    var publicKeys: map<User, string>
    var sessions: seq<Session>
    var messages: seq<Stored>

    ghost function Value(): State
      reads this
    {
      State(publicKeys, sessions, messages)
    }

    ghost predicate Valid()
      reads this
    {
      crypto.Lawful() && SessionsSound(crypto, Value())
    }

    /** The key of the two, whichever of them opened their session. */
    ghost predicate IsSessionKey(key: Bytes, a: User, b: User)
      reads this
    {
      exists x :: x in sessions && Joins(x, a, b) && x.userIdA in publicKeys && x.userIdB in publicKeys
                  && key == crypto.sha256(publicKeys[x.userIdA] + publicKeys[x.userIdB])
    }

    /** Only the key of the two opens the message, to this text. */
    ghost predicate SealedForPair(m: Stored, content: string)
      reads this
    {
      exists key :: IsSessionKey(key, m.senderId, m.recipientId) && OpensOnlyWith(crypto, m.envelope, key, content)
    }

    constructor (crypto: Primitives)
      requires crypto.Lawful()
      ensures this.crypto == crypto && Value() == Run(crypto, []) && Valid()
    {
      this.crypto := crypto;
      publicKeys, sessions, messages := map[], [], [];
    }

    /** A new user gets a generated id. */
    method CreateUser(user: User, publicKey: string)
      requires Valid() && user !in publicKeys && '_' !in user
      modifies this`publicKeys
      ensures Value() == Step(crypto, old(Value()), Call.Register(user, publicKey)) && Valid()
      ensures publicKeys == old(publicKeys)[user := publicKey]
    {
      publicKeys := publicKeys[user := publicKey];
    }

    method UpdatePublicKey(user: User, publicKey: string) returns (r: Result<(), Error>)
      requires Valid()
      modifies this`publicKeys
      ensures Value() == Step(crypto, old(Value()), Call.UpdatePublicKey(user, publicKey)) && Valid()
      ensures r.Ok? <==> user in old(publicKeys)
      ensures publicKeys == if r.Ok? then old(publicKeys)[user := publicKey] else old(publicKeys)
    {
      if user !in publicKeys {
        return Err(UserNotFound);
      }
      publicKeys := publicKeys[user := publicKey];
      return Ok(());
    }

    /** Looks the session up by the order-free identifier; the stored order decides the key. */
    method OpenSession(userIdA: User, userIdB: User) returns (r: Result<Bytes, Error>)
      requires Valid()
      modifies this`sessions
      ensures var opening := GetOrCreateSession(crypto, old(Value()), userIdA, userIdB);
              && r == (if opening.Ok? then Ok(opening.value.key) else Err(opening.error))
              && Value() == (if opening.Ok? then opening.value.state else old(Value()))
      ensures Valid() && (r.Ok? <==> userIdA in publicKeys && userIdB in publicKeys)
      ensures r.Ok? ==> IsSessionKey(r.value, userIdA, userIdB)
      ensures r.Err? || (exists x :: x in old(sessions) && Joins(x, userIdA, userIdB)) ==> sessions == old(sessions)
      ensures r.Ok? && (forall x :: x in old(sessions) ==> !Joins(x, userIdA, userIdB)) ==>
                |sessions| == |old(sessions)| + 1 && sessions[..|old(sessions)|] == old(sessions)
                && sessions[|old(sessions)|].userIdA == userIdA && sessions[|old(sessions)|].userIdB == userIdB
    {
      OpenIff(crypto, Value(), userIdA, userIdB);
      SessionOfPair(crypto, Value(), userIdA, userIdB);
      JoinedFound(crypto, Value(), userIdA, userIdB);
      var keyIdentifier := crypto.CreateSessionKeyIdentifier(userIdA, userIdB);
      var session := FindSession(sessions, keyIdentifier);
      if session.None? {
        if userIdA !in publicKeys || userIdB !in publicKeys {
          return Err(UserNotFound);
        }
        OpenSound(crypto, Value(), userIdA, userIdB);
        var sharedKey := crypto.DeriveSharedKey(publicKeys[userIdA], publicKeys[userIdB]);
        sessions := sessions + [Session(userIdA, userIdB, keyIdentifier)];
        assert Session(userIdA, userIdB, keyIdentifier) in sessions;
        return Ok(sharedKey);
      }
      var a, b := session.value.userIdA, session.value.userIdB;
      if a !in publicKeys || b !in publicKeys {
        return Err(UserNotFound);
      }
      return Ok(crypto.DeriveSharedKey(publicKeys[a], publicKeys[b]));
    }

    method SendMessage(senderId: User, recipientId: User, content: string, iv: Bytes) returns (r: Result<Stored, Error>)
      requires Valid()
      modifies this`sessions, this`messages
      ensures Value() == Step(crypto, old(Value()), Send(senderId, recipientId, content, iv)) && Valid()
      ensures r.Ok? <==> senderId in publicKeys && recipientId in publicKeys
      ensures r.Err? ==> r.error == UserNotFound && messages == old(messages)
      ensures r.Ok? ==> messages == old(messages) + [r.value]
      ensures r.Ok? ==> r.value.senderId == senderId && r.value.recipientId == recipientId
      ensures r.Ok? ==> SealedForPair(r.value, content)
    {
      var sessionKey := OpenSession(senderId, recipientId);
      if sessionKey.Err? {
        return Err(sessionKey.error);
      }
      var envelope := crypto.EncryptWithSymmetricKey(content, sessionKey.value, iv);
      var message := Stored(envelope, senderId, recipientId);
      messages := messages + [message];
      SealedHolds(crypto, message, Sent(senderId, recipientId, content, sessionKey.value, "", ""), iv);
      assert OpensOnlyWith(crypto, message.envelope, sessionKey.value, content);
      return Ok(message);
    }

    method GetMessages(userId: User, otherUserId: User) returns (r: Result<seq<View>, Error>)
      requires Valid()
      modifies this`sessions
      ensures Value() == Step(crypto, old(Value()), Read(userId, otherUserId)) && Valid()
      ensures r == ReadResult(crypto, old(Value()), userId, otherUserId)
    {
      var found := Filter(messages, (m: Stored) => BetweenUsers(m, userId, otherUserId));
      if |found| == 0 {
        return Ok([]);
      }
      var sessionKey := OpenSession(userId, otherUserId);
      if sessionKey.Err? {
        return Err(sessionKey.error);
      }
      r := DecryptAll(crypto, found, sessionKey.value, userId);
    }
  }

  /** The row of these two users, in either order. */
  predicate Joins(x: Session, a: User, b: User) {
    (x.userIdA == a && x.userIdB == b) || (x.userIdA == b && x.userIdB == a)
  }

  lemma JoinedFound(c: Primitives, s: State, a: User, b: User)
    requires c.Lawful() && SessionsSound(c, s)
    ensures FindSession(s.sessions, c.CreateSessionKeyIdentifier(a, b)).Some? <==>
              exists x :: x in s.sessions && Joins(x, a, b)
  {
    c.IdentifierSymmetric(a, b);
    SessionOfPair(c, s, a, b);
  }
}
