/** What a change of public keys does to a conversation. Stored messages stay sealed with the key of their day,
    while reading derives the key anew. */
module KeyChanges {
  import opened Conversations
  import opened Crypto
  import opened Sequences

  lemma SomeExchange(log: seq<Sent>, u: User, o: User, e: Sent)
    requires e in log && Exchanged(e, u, o)
    ensures e in Filter(log, (x: Sent) => Exchanged(x, u, o))
  {
    FilterMembers(log, (x: Sent) => Exchanged(x, u, o));
  }

  /** Replacing some of two adjacent texts by k leaves their concatenation alone only if k is what it replaces. */
  lemma ReplacedPart(x: string, y: string, k: string, first: bool, second: bool)
    requires first || second
    requires first && second ==> x == y
    ensures (if first then k else x) + (if second then k else y) == x + y <==> k == (if first then x else y)
  {
    var l := (if first then k else x) + (if second then k else y);
    if l == x + y {
      if first && second {
        assert |k| == |x|;
        assert l[..|k|] == k && (x + y)[..|x|] == x;
      } else if first {
        assert |k| == |x|;
        assert l[..|k|] == k && (x + y)[..|x|] == x;
      } else {
        assert l[|x|..] == k && (x + y)[|x|..] == y;
      }
    }
  }

  /** Where all that a pair exchanged can be read, changing the public key of one of them keeps it readable if
      and only if the new key is the old one. */
  lemma KeyChangeIff(c: Primitives, s: State, log: seq<Sent>, u: User, o: User, w: User, k: string, e: Sent)
    requires c.Lawful() && Invariant(c, s, log) && KeyStable(c, s, log, u, o)
    requires e in log && Exchanged(e, u, o)
    requires w == u || w == o
    requires w in s.publicKeys
    ensures ReadResult(c, Step(c, s, UpdatePublicKey(w, k)), u, o)
         == if k == s.publicKeys[w] then Ok(Transcript(log, u, o)) else Err(DecryptionFailed)
  {
    KeysKeep(c, s, log, w, k);
    DerivedAnew(c, s, log, u, o, w, k, e);
    ReadsUnder(c, Step(c, s, UpdatePublicKey(w, k)), log, u, o, GetOrCreateSession(c, s, u, o).value.key, e);
  }

  lemma DerivedAnew(c: Primitives, s: State, log: seq<Sent>, u: User, o: User, w: User, k: string, e: Sent)
    requires c.Lawful() && Invariant(c, s, log) && e in log && Exchanged(e, u, o)
    requires w == u || w == o
    requires w in s.publicKeys
    ensures var t := s.(publicKeys := s.publicKeys[w := k]);
            && GetOrCreateSession(c, s, u, o).Ok? && GetOrCreateSession(c, t, u, o).Ok?
            && (GetOrCreateSession(c, t, u, o).value.key == GetOrCreateSession(c, s, u, o).value.key <==>
                 k == s.publicKeys[w])
  {
    c.IdentifierSymmetric(u, o);
    SessionOfPair(c, s, u, o);
    var x := FindSession(s.sessions, c.CreateSessionKeyIdentifier(u, o)).value;
    assert x in s.sessions;
    ReplacedPart(s.publicKeys[x.userIdA], s.publicKeys[x.userIdB], k, x.userIdA == w, x.userIdB == w);
  }

  /** What reading yields when everything exchanged was sealed with one key. */
  lemma ReadsUnder(c: Primitives, t: State, log: seq<Sent>, u: User, o: User, key: Bytes, e: Sent)
    requires Invariant(c, t, log) && e in log && Exchanged(e, u, o) && GetOrCreateSession(c, t, u, o).Ok?
    requires forall x :: x in log && Exchanged(x, u, o) ==> x.key == key
    ensures ReadResult(c, t, u, o)
         == if GetOrCreateSession(c, t, u, o).value.key == key then Ok(Transcript(log, u, o)) else Err(DecryptionFailed)
  {
    ReadExact(c, t, log, u, o);
    SomeExchange(log, u, o, e);
    var sent := Filter(log, (x: Sent) => Exchanged(x, u, o));
    FilterMembers(log, (x: Sent) => Exchanged(x, u, o));
    forall i | 0 <= i < |sent|
      ensures sent[i].key == key
    {
      assert sent[i] in sent;
    }
  }

  /** Over a run: after the first change of a public key of the pair nothing they exchanged before can be read,
      unless the change puts the same key back. */
  lemma FirstKeyChange(c: Primitives, calls: seq<Call>, u: User, o: User, w: User, k: string, e: Sent)
    requires c.Lawful() && CleanIds(calls)
    requires forall call :: call in calls && call.UpdatePublicKey? ==> call.user != u && call.user != o
    requires e in Log(c, calls) && Exchanged(e, u, o)
    requires w == u || w == o
    ensures w in Run(c, calls).publicKeys
    ensures ReadResult(c, Run(c, calls + [UpdatePublicKey(w, k)]), u, o)
         == if k == Run(c, calls).publicKeys[w] then Ok(Transcript(Log(c, calls), u, o)) else Err(DecryptionFailed)
  {
    var s, log := Run(c, calls), Log(c, calls);
    RunInvariant(c, calls);
    RunKeyStable(c, calls, u, o);
    c.IdentifierSymmetric(u, o);
    SessionOfPair(c, s, u, o);
    assert FindSession(s.sessions, c.CreateSessionKeyIdentifier(u, o)).value in s.sessions;
    KeyChangeIff(c, s, log, u, o, w, k, e);
    assert (calls + [UpdatePublicKey(w, k)])[..|calls|] == calls;
  }

  // ---------------------------------------------------------------- any number of changes

  /** The public key a user of an exchange had then. */
  function KeyThen(e: Sent, w: User): string {
    if w == e.sender then e.senderKey else e.recipientKey
  }

  /** Each message was sealed with the key derived from both public keys of its moment, in the session's order. */
  ghost predicate KeysRecorded(c: Primitives, s: State, log: seq<Sent>) {
    forall e :: e in log ==> KeyRecorded(c, s, e)
  }

  ghost predicate KeyRecorded(c: Primitives, s: State, e: Sent) {
    var found := FindSession(s.sessions, c.CreateSessionKeyIdentifier(e.sender, e.recipient));
    found.Some? && e.key == c.DeriveSharedKey(KeyThen(e, found.value.userIdA), KeyThen(e, found.value.userIdB))
  }

  lemma EntryRecorded(c: Primitives, s: State, log: seq<Sent>, a: User, b: User, content: string, t: State)
    requires c.Lawful() && Invariant(c, s, log) && GetOrCreateSession(c, s, a, b).Ok?
    requires t.sessions == GetOrCreateSession(c, s, a, b).value.state.sessions
    ensures KeyRecorded(c, t, Entry(c, s, a, b, content))
  {
    var opening := GetOrCreateSession(c, s, a, b).value;
    OpenKeeps(c, s, log, a, b);
    SessionStays(c, s, a, b);
    SessionOfPair(c, opening.state, a, b);
    var x := FindSession(t.sessions, c.CreateSessionKeyIdentifier(a, b)).value;
    assert x in opening.state.sessions;
  }

  lemma {:induction false} RunKeysRecorded(c: Primitives, calls: seq<Call>)
    requires c.Lawful() && CleanIds(calls)
    ensures KeysRecorded(c, Run(c, calls), Log(c, calls))
  {
    if calls != [] {
      var init, call := calls[..|calls| - 1], calls[|calls| - 1];
      assert CleanIds(init);
      RunKeysRecorded(c, init);
      RunInvariant(c, init);
      var s, log, t := Run(c, init), Log(c, init), Run(c, calls);
      forall e | e in log
        ensures KeyRecorded(c, t, e)
      {
        assert KeyRecorded(c, s, e);
        StepKeepsSession(c, s, call, c.CreateSessionKeyIdentifier(e.sender, e.recipient));
      }
      if call.Send? && GetOrCreateSession(c, s, call.sender, call.recipient).Ok? {
        EntryRecorded(c, s, log, call.sender, call.recipient, call.content, t);
      }
    }
  }

  /** All public keys ever set have the length n, as keys of one scheme do. */
  ghost predicate OneLength(calls: seq<Call>, n: nat) {
    forall call :: call in calls && (call.Register? || call.UpdatePublicKey?) ==> |call.publicKey| == n
  }

  ghost predicate KeysLong(s: State, n: nat) {
    forall w :: w in s.publicKeys ==> |s.publicKeys[w]| == n
  }

  lemma StepKeysLong(c: Primitives, s: State, call: Call, n: nat)
    requires KeysLong(s, n) && (call.Register? || call.UpdatePublicKey? ==> |call.publicKey| == n)
    ensures KeysLong(Step(c, s, call), n)
  {
  }

  lemma {:induction false} RunOneLength(c: Primitives, calls: seq<Call>, n: nat)
    requires c.Lawful() && CleanIds(calls) && OneLength(calls, n)
    ensures KeysLong(Run(c, calls), n)
    ensures forall e :: e in Log(c, calls) ==> |e.senderKey| == n && |e.recipientKey| == n
  {
    if calls != [] {
      var init, call := calls[..|calls| - 1], calls[|calls| - 1];
      assert CleanIds(init) && OneLength(init, n) && call in calls;
      RunOneLength(c, init, n);
      RunInvariant(c, init);
      var s := Run(c, init);
      StepKeysLong(c, s, call, n);
      if call.Send? && GetOrCreateSession(c, s, call.sender, call.recipient).Ok? {
        BothRegistered(c, s, Log(c, init), call.sender, call.recipient);
      }
    }
  }

  lemma BothRegistered(c: Primitives, s: State, log: seq<Sent>, a: User, b: User)
    requires c.Lawful() && Invariant(c, s, log) && GetOrCreateSession(c, s, a, b).Ok?
    ensures a in s.publicKeys && b in s.publicKeys
  {
    SessionOfPair(c, s, a, b);
  }

  /** Both public keys were then what they are now. */
  ghost predicate SameKeys(s: State, e: Sent) {
    e.senderKey == PublicKeyOf(s, e.sender) && e.recipientKey == PublicKeyOf(s, e.recipient)
  }

  ghost predicate AllSameKeys(s: State, log: seq<Sent>, u: User, o: User) {
    forall e :: e in log && Exchanged(e, u, o) ==> SameKeys(s, e)
  }

  /** What was hashed when e was sent and what is hashed now: both public keys in the session's order. */
  ghost predicate SameJoint(c: Primitives, s: State, e: Sent) {
    var found := FindSession(s.sessions, c.CreateSessionKeyIdentifier(e.sender, e.recipient));
    found.Some?
    && KeyThen(e, found.value.userIdA) + KeyThen(e, found.value.userIdB)
       == PublicKeyOf(s, found.value.userIdA) + PublicKeyOf(s, found.value.userIdB)
  }

  ghost predicate AllSameJoint(c: Primitives, s: State, log: seq<Sent>, u: User, o: User) {
    forall e :: e in log && Exchanged(e, u, o) ==> SameJoint(c, s, e)
  }

  lemma SameJointIff(c: Primitives, s: State, log: seq<Sent>, u: User, o: User, e: Sent)
    requires c.Lawful() && Invariant(c, s, log) && e in log && Exchanged(e, u, o) && KeyRecorded(c, s, e)
    ensures GetOrCreateSession(c, s, u, o).Ok?
    ensures e.key == GetOrCreateSession(c, s, u, o).value.key <==> SameJoint(c, s, e)
  {
    c.IdentifierSymmetric(u, o);
    var x := FindSession(s.sessions, c.CreateSessionKeyIdentifier(u, o)).value;
    assert x in s.sessions;
  }

  /** The same public keys give the same text, and for keys of one length no others do. */
  lemma SameKeysJoint(c: Primitives, s: State, log: seq<Sent>, e: Sent)
    requires c.Lawful() && Invariant(c, s, log) && e in log && KeyRecorded(c, s, e)
    requires e.sender == e.recipient ==> e.senderKey == e.recipientKey
    ensures SameKeys(s, e) ==> SameJoint(c, s, e)
    ensures forall n: nat :: |e.senderKey| == n && |e.recipientKey| == n && KeysLong(s, n) ==>
              (SameJoint(c, s, e) <==> SameKeys(s, e))
  {
    SessionOfPair(c, s, e.sender, e.recipient);
    var x := FindSession(s.sessions, c.CreateSessionKeyIdentifier(e.sender, e.recipient)).value;
    assert x in s.sessions;
    if SameJoint(c, s, e) && KeysLong(s, |e.senderKey|) && |e.recipientKey| == |e.senderKey| {
      SplitEqual(KeyThen(e, x.userIdA), KeyThen(e, x.userIdB), s.publicKeys[x.userIdA], s.publicKeys[x.userIdB]);
    }
  }

  lemma SplitEqual(a: string, b: string, p: string, q: string)
    requires a + b == p + q && |a| == |p|
    ensures a == p && b == q
  {
    assert (a + b)[..|a|] == a && (p + q)[..|a|] == p && (a + b)[|a|..] == b && (p + q)[|a|..] == q;
  }

  lemma {:induction false} NoteToSelf(c: Primitives, calls: seq<Call>)
    ensures forall e :: e in Log(c, calls) && e.sender == e.recipient ==> e.senderKey == e.recipientKey
  {
    if calls != [] {
      NoteToSelf(c, calls[..|calls| - 1]);
    }
  }

  /** Over any run with any key changes: a pair can read what it exchanged if and only if, for every message, both
      public keys written one after the other, in the session's order, are now what they were when it was sent. */
  lemma ReadableJointIff(c: Primitives, calls: seq<Call>, u: User, o: User)
    requires c.Lawful() && CleanIds(calls)
    ensures ReadResult(c, Run(c, calls), u, o)
         == if AllSameJoint(c, Run(c, calls), Log(c, calls), u, o) then Ok(Transcript(Log(c, calls), u, o))
            else Err(DecryptionFailed)
  {
    var s, log := Run(c, calls), Log(c, calls);
    RunInvariant(c, calls);
    RunKeysRecorded(c, calls);
    ReadExact(c, s, log, u, o);
    var sent := Filter(log, (e: Sent) => Exchanged(e, u, o));
    FilterMembers(log, (e: Sent) => Exchanged(e, u, o));
    forall e | e in log && Exchanged(e, u, o)
      ensures GetOrCreateSession(c, s, u, o).Ok?
      ensures e.key == GetOrCreateSession(c, s, u, o).value.key <==> SameJoint(c, s, e)
    {
      assert KeyRecorded(c, s, e);
      SameJointIff(c, s, log, u, o, e);
    }
    AllUnderIff(c, s, sent, u, o);
  }

  /** So whenever both public keys are what they were at every message, all can be read, of whatever lengths. */
  lemma ReadableUnderOldKeys(c: Primitives, calls: seq<Call>, u: User, o: User)
    requires c.Lawful() && CleanIds(calls)
    requires AllSameKeys(Run(c, calls), Log(c, calls), u, o)
    ensures ReadResult(c, Run(c, calls), u, o) == Ok(Transcript(Log(c, calls), u, o))
  {
    var s, log := Run(c, calls), Log(c, calls);
    RunInvariant(c, calls);
    RunKeysRecorded(c, calls);
    NoteToSelf(c, calls);
    ReadableJointIff(c, calls, u, o);
    forall e | e in log && Exchanged(e, u, o)
      ensures SameJoint(c, s, e)
    {
      assert KeyRecorded(c, s, e);
      SameKeysJoint(c, s, log, e);
    }
  }

  /** And for public keys of one length only then. */
  lemma ReadableIff(c: Primitives, calls: seq<Call>, u: User, o: User, n: nat)
    requires c.Lawful() && CleanIds(calls) && OneLength(calls, n)
    ensures ReadResult(c, Run(c, calls), u, o)
         == if AllSameKeys(Run(c, calls), Log(c, calls), u, o) then Ok(Transcript(Log(c, calls), u, o))
            else Err(DecryptionFailed)
  {
    var s, log := Run(c, calls), Log(c, calls);
    RunInvariant(c, calls);
    RunKeysRecorded(c, calls);
    RunOneLength(c, calls, n);
    NoteToSelf(c, calls);
    ReadableJointIff(c, calls, u, o);
    forall e | e in log && Exchanged(e, u, o)
      ensures SameJoint(c, s, e) <==> SameKeys(s, e)
    {
      assert KeyRecorded(c, s, e);
      SameKeysJoint(c, s, log, e);
    }
  }

  lemma AllUnderIff(c: Primitives, s: State, sent: seq<Sent>, u: User, o: User)
    requires sent != [] ==> GetOrCreateSession(c, s, u, o).Ok?
    requires forall e :: e in sent ==> (e.key == GetOrCreateSession(c, s, u, o).value.key <==> SameJoint(c, s, e))
    ensures sent != [] ==>
              (AllUnder(sent, GetOrCreateSession(c, s, u, o).value.key) <==>
               forall e :: e in sent ==> SameJoint(c, s, e))
  {
    if sent != [] && AllUnder(sent, GetOrCreateSession(c, s, u, o).value.key) {
      forall e | e in sent
        ensures SameJoint(c, s, e)
      {
        var i :| 0 <= i < |sent| && sent[i] == e;
      }
    }
  }
}
