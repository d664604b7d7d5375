/** Messages for offline users: queued under an id that starts with the user's, and taken out again by the
    connecting user's drain, by the retrying processor, by clearing, or by running out of attempts. */
module OfflineQueue {
  import opened Sequences

  type User = string

  const ATTEMPTS: nat := 3

  /** An absent message id is the empty string. */
  datatype Message = Message(event: string, userId: User, messageId: string, data: string)

  datatype Job = Job(id: string, message: Message, attemptsMade: nat)

  /** Where jobs are. Completed and failed jobs keep their id in the queue; cleared ones do not. */
  datatype State = State(
    online: set<User>,        // users whose presence reads online
    accepted: seq<string>,    // ids of the jobs the queue took in, in order
    pending: seq<Job>,        // waiting, delayed or active
    drained: seq<Job>,        // completed by handing them to the connecting user
    published: seq<Job>,      // completed by the processor's publishing them
    unsent: seq<Job>,         // completed by the processor although publishing did not send them out
    failed: seq<Job>,         // out of attempts
    cleared: seq<Job>,        // removed on request
    channel: seq<Message>)    // what went out to the connected instances

  const Initial := State({}, [], [], [], [], [], [], [], [])

  predicate HasId(jobs: seq<Job>, id: string) {
    exists i :: 0 <= i < |jobs| && jobs[i].id == id
  }

  /** A new job under an id that is still in the queue is dropped. */
  predicate Occupied(s: State, id: string) {
    HasId(s.pending, id) || HasId(s.drained, id) || HasId(s.published, id) || HasId(s.unsent, id) || HasId(s.failed, id)
  }

  function JobId(m: Message, stamp: string): string {
    m.userId + "-" + if m.messageId != "" then m.messageId else stamp
  }

  predicate StartsWith(s: string, p: string) {
    |p| <= |s| && s[..|p|] == p
  }

  /** The test by which a user's jobs are recognised. */
  predicate LooksOwnedBy(j: Job, u: User) {
    StartsWith(j.id, u + "-")
  }

  // ---------------------------------------------------------------- steps

  /** `stamp` is the current time, used for messages without an id. */
  function Enqueue(s: State, m: Message, stamp: string): State {
    if m.userId == "" || Occupied(s, JobId(m, stamp)) then s
    else s.(accepted := s.accepted + [JobId(m, stamp)], pending := s.pending + [Job(JobId(m, stamp), m, 0)])
  }

  /** `online` is what the presence read inside the call returns. */
  function Publish(s: State, m: Message, online: bool, stamp: string): State {
    if m.userId != "" && m.event == "message" && !online then Enqueue(s, m, stamp)
    else s.(channel := s.channel + [m])
  }

  function Without(jobs: seq<Job>, i: nat): seq<Job>
    requires i < |jobs|
  {
    jobs[..i] + jobs[i + 1..]
  }

  /** One attempt at a pending job. The processor reads the presence, and publishing reads it again
      (`stillOnline`) before it decides between the channel and the queue. */
  function Process(s: State, i: nat, stillOnline: bool, stamp: string): State
    requires i < |s.pending|
  {
    var j := s.pending[i];
    if j.message.userId in s.online then
      var t := Publish(s, j.message, stillOnline, stamp);
      Complete(t, i, t.channel != s.channel)
    else
      Retry(s, i, j.(attemptsMade := j.attemptsMade + 1))
  }

  /** The attempt returned: the job is completed, whether or not its message went out. */
  function Complete(s: State, i: nat, wentOut: bool): State
    requires i < |s.pending|
  {
    var rest := s.(pending := Without(s.pending, i));
    if wentOut then rest.(published := s.published + [s.pending[i]]) else rest.(unsent := s.unsent + [s.pending[i]])
  }

  /** The attempt threw: the job waits for its next one, or fails after the last. */
  function Retry(s: State, i: nat, tried: Job): State
    requires i < |s.pending|
  {
    if tried.attemptsMade >= ATTEMPTS then s.(pending := Without(s.pending, i), failed := s.failed + [tried])
    else s.(pending := s.pending[i := tried])
  }

  function Drain(s: State, u: User): State {
    s.(pending := Filter(s.pending, (j: Job) => !LooksOwnedBy(j, u)),
       drained := s.drained + Filter(s.pending, (j: Job) => LooksOwnedBy(j, u)))
  }

  function Clear(s: State, u: User): State {
    s.(pending := Filter(s.pending, (j: Job) => !LooksOwnedBy(j, u)),
       cleared := s.cleared + Filter(s.pending, (j: Job) => LooksOwnedBy(j, u)))
  }

  datatype Event =
    | Sent(message: Message, stamp: string)
    | Attempted(index: nat, stillOnline: bool, stamp: string)
    | Connected(user: User)
    | ClearedBy(user: User)
    | PresenceChanged(user: User, online: bool)

  function Step(s: State, e: Event): State {
    match e
    case Sent(m, stamp) => Publish(s, m, m.userId in s.online, stamp)
    case Attempted(i, stillOnline, stamp) => if i < |s.pending| then Process(s, i, stillOnline, stamp) else s
    case Connected(u) => Drain(s.(online := s.online + {u}), u)
    case ClearedBy(u) => Clear(s, u)
    case PresenceChanged(u, online) => s.(online := if online then s.online + {u} else s.online - {u})
  }

  function Run(events: seq<Event>): State {
    if events == [] then Initial else Step(Run(events[..|events| - 1]), events[|events| - 1])
  }

  // ---------------------------------------------------------------- counting

  function Count(jobs: seq<Job>, id: string): nat {
    |Filter(jobs, (j: Job) => j.id == id)|
  }

  function TimesAccepted(ids: seq<string>, id: string): nat {
    |Filter(ids, (x: string) => x == id)|
  }

  /** How often an id is found among the jobs that still occupy it. */
  function Occupancy(s: State, id: string): nat {
    Count(s.pending, id) + Count(s.drained, id) + Count(s.published, id) + Count(s.unsent, id) + Count(s.failed, id)
  }

  lemma CountSnoc(jobs: seq<Job>, j: Job, id: string)
    ensures Count(jobs + [j], id) == Count(jobs, id) + if j.id == id then 1 else 0
  {
    FilterSnoc(jobs, j, (j: Job) => j.id == id);
  }

  lemma CountConcat(a: seq<Job>, b: seq<Job>, id: string)
    ensures Count(a + b, id) == Count(a, id) + Count(b, id)
  {
    FilterConcat(a, b, (j: Job) => j.id == id);
  }

  lemma CountWithout(jobs: seq<Job>, i: nat, id: string)
    requires i < |jobs|
    ensures Count(jobs, id) == Count(Without(jobs, i), id) + if jobs[i].id == id then 1 else 0
  {
    assert jobs == jobs[..i] + [jobs[i]] + jobs[i + 1..];
    CountConcat(jobs[..i] + [jobs[i]], jobs[i + 1..], id);
    CountSnoc(jobs[..i], jobs[i], id);
    CountConcat(jobs[..i], jobs[i + 1..], id);
  }

  lemma CountReplace(jobs: seq<Job>, i: nat, j: Job, id: string)
    requires i < |jobs| && j.id == jobs[i].id
    ensures Count(jobs[i := j], id) == Count(jobs, id)
  {
    CountWithout(jobs, i, id);
    CountWithout(jobs[i := j], i, id);
    assert Without(jobs[i := j], i) == Without(jobs, i);
  }

  lemma {:induction false} CountSplit(jobs: seq<Job>, p: Job -> bool, q: Job -> bool, id: string)
    requires forall j :: q(j) <==> !p(j)
    ensures Count(jobs, id) == Count(Filter(jobs, p), id) + Count(Filter(jobs, q), id)
  {
    if jobs != [] {
      var init, last := jobs[..|jobs| - 1], jobs[|jobs| - 1];
      CountSplit(init, p, q, id);
      assert jobs == init + [last];
      CountSnoc(init, last, id);
      CountSnoc(Filter(init, p), last, id);
      CountSnoc(Filter(init, q), last, id);
    }
  }

  lemma {:induction false} CountHas(jobs: seq<Job>, id: string)
    ensures Count(jobs, id) > 0 <==> HasId(jobs, id)
  {
    FilterMembers(jobs, (j: Job) => j.id == id);
    var f := Filter(jobs, (j: Job) => j.id == id);
    if f != [] {
      assert f[0] in f;
    }
    if i :| 0 <= i < |jobs| && jobs[i].id == id {
      assert jobs[i] in jobs && jobs[i] in f;
    }
  }

  lemma OccupiedCount(s: State, id: string)
    ensures Occupied(s, id) <==> Occupancy(s, id) > 0
  {
    CountHas(s.pending, id);
    CountHas(s.drained, id);
    CountHas(s.published, id);
    CountHas(s.unsent, id);
    CountHas(s.failed, id);
  }

  // ---------------------------------------------------------------- conservation

  /** Every acceptance of an id is accounted for in exactly one place, and an id is occupied at most once. */
  ghost predicate Conserved(s: State) {
    forall id :: ConservedId(s, id)
  }

  ghost predicate ConservedId(s: State, id: string) {
    && TimesAccepted(s.accepted, id) == Occupancy(s, id) + Count(s.cleared, id)
    && Occupancy(s, id) <= 1
  }

  /** Pending jobs belong to a user, carry that user's id prefix, and have an attempt left. */
  ghost predicate Sound(s: State) {
    && (forall j :: j in s.pending ==>
          && j.message.userId != "" && j.message.event == "message"
          && StartsWith(j.id, j.message.userId + "-") && j.attemptsMade < ATTEMPTS)
    && (forall j :: j in s.failed ==> j.attemptsMade == ATTEMPTS)
  }

  lemma EnqueueConserves(s: State, m: Message, stamp: string, id: string)
    requires ConservedId(s, id)
    ensures ConservedId(Enqueue(s, m, stamp), id)
  {
    var x := JobId(m, stamp);
    if m.userId != "" && !Occupied(s, x) {
      OccupiedCount(s, x);
      CountSnoc(s.pending, Job(x, m, 0), id);
      FilterSnoc(s.accepted, x, (y: string) => y == id);
    }
  }

  lemma TakeConserves(s: State, u: User, id: string)
    requires ConservedId(s, id)
    ensures ConservedId(Drain(s, u), id) && ConservedId(Clear(s, u), id)
  {
    var own, other := (j: Job) => LooksOwnedBy(j, u), (j: Job) => !LooksOwnedBy(j, u);
    CountSplit(s.pending, own, other, id);
    CountConcat(s.drained, Filter(s.pending, own), id);
    CountConcat(s.cleared, Filter(s.pending, own), id);
  }

  lemma CompleteConserves(t: State, i: nat, id: string)
    requires ConservedId(t, id) && i < |t.pending|
    ensures ConservedId(Complete(t, i, true), id) && ConservedId(Complete(t, i, false), id)
  {
    CountWithout(t.pending, i, id);
    CountSnoc(t.published, t.pending[i], id);
    CountSnoc(t.unsent, t.pending[i], id);
  }

  lemma LastAttemptConserves(s: State, i: nat, tried: Job, id: string)
    requires ConservedId(s, id) && i < |s.pending| && tried.id == s.pending[i].id
    ensures ConservedId(s.(pending := Without(s.pending, i), failed := s.failed + [tried]), id)
  {
    CountWithout(s.pending, i, id);
    CountSnoc(s.failed, tried, id);
  }

  lemma RetryConserves(s: State, i: nat, tried: Job, id: string)
    requires ConservedId(s, id) && i < |s.pending| && tried.id == s.pending[i].id
    ensures ConservedId(Retry(s, i, tried), id)
  {
    if tried.attemptsMade >= ATTEMPTS {
      LastAttemptConserves(s, i, tried, id);
    } else {
      CountReplace(s.pending, i, tried, id);
    }
  }

  lemma PublishConserves(s: State, m: Message, online: bool, stamp: string, id: string)
    requires ConservedId(s, id)
    ensures ConservedId(Publish(s, m, online, stamp), id)
    ensures |s.pending| <= |Publish(s, m, online, stamp).pending|
  {
    EnqueueConserves(s, m, stamp, id);
  }

  lemma ProcessConserves(s: State, i: nat, stillOnline: bool, stamp: string, id: string)
    requires ConservedId(s, id) && i < |s.pending|
    ensures ConservedId(Process(s, i, stillOnline, stamp), id)
  {
    var j := s.pending[i];
    if j.message.userId in s.online {
      DeliverConserves(s, i, stillOnline, stamp, id);
    } else {
      RetryConserves(s, i, j.(attemptsMade := j.attemptsMade + 1), id);
    }
  }

  lemma DeliverConserves(s: State, i: nat, stillOnline: bool, stamp: string, id: string)
    requires ConservedId(s, id) && i < |s.pending|
    ensures var t := Publish(s, s.pending[i].message, stillOnline, stamp);
            i < |t.pending| && ConservedId(Complete(t, i, t.channel != s.channel), id)
  {
    PublishConserves(s, s.pending[i].message, stillOnline, stamp, id);
    CompleteConserves(Publish(s, s.pending[i].message, stillOnline, stamp), i, id);
  }

  lemma StepConserves(s: State, e: Event)
    requires Conserved(s)
    ensures Conserved(Step(s, e))
  {
    forall id
      ensures ConservedId(Step(s, e), id)
    {
      assert ConservedId(s, id);
      match e {
        case Sent(m, stamp) => EnqueueConserves(s, m, stamp, id);
        case Attempted(i, stillOnline, stamp) =>
          if i < |s.pending| {
            ProcessConserves(s, i, stillOnline, stamp, id);
          }
        case Connected(u) =>
          var t := s.(online := s.online + {u});
          assert ConservedId(t, id);
          TakeConserves(t, u, id);
        case ClearedBy(u) => TakeConserves(s, u, id);
        case PresenceChanged(u, online) =>
      }
    }
  }

  lemma CompleteSound(s: State, i: nat, wentOut: bool)
    requires Sound(s) && i < |s.pending|
    ensures Sound(Complete(s, i, wentOut))
  {
  }

  lemma RetrySound(s: State, i: nat)
    requires Sound(s) && i < |s.pending|
    ensures Sound(Retry(s, i, s.pending[i].(attemptsMade := s.pending[i].attemptsMade + 1)))
  {
    assert s.pending[i] in s.pending;
  }

  lemma TakeSound(s: State, u: User)
    requires Sound(s)
    ensures Sound(Drain(s, u)) && Sound(Clear(s, u))
  {
    FilterMembers(s.pending, (j: Job) => !LooksOwnedBy(j, u));
  }

  lemma StepSound(s: State, e: Event)
    requires Sound(s)
    ensures Sound(Step(s, e))
  {
    match e
    case Attempted(i, stillOnline, stamp) =>
      if i < |s.pending| {
        var m := s.pending[i].message;
        if m.userId in s.online {
          var t := Publish(s, m, stillOnline, stamp);
          CompleteSound(t, i, t.channel != s.channel);
        } else {
          RetrySound(s, i);
        }
      }
    case Connected(u) => TakeSound(s.(online := s.online + {u}), u);
    case ClearedBy(u) => TakeSound(s, u);
    case _ =>
  }

  /** In any run: each acceptance of an id ends in exactly one place, an id is never occupied twice, and
      pending jobs have used fewer than three attempts. */
  lemma {:induction false} RunConserves(events: seq<Event>)
    ensures Conserved(Run(events)) && Sound(Run(events))
  {
    if events != [] {
      RunConserves(events[..|events| - 1]);
      StepConserves(Run(events[..|events| - 1]), events[|events| - 1]);
      StepSound(Run(events[..|events| - 1]), events[|events| - 1]);
    }
  }

  /** The number of the five resting places a job with this id is in. */
  function Places(s: State, id: string): nat {
    (if HasId(s.pending, id) then 1 else 0) + (if HasId(s.drained, id) then 1 else 0)
    + (if HasId(s.published, id) then 1 else 0) + (if HasId(s.unsent, id) then 1 else 0)
    + (if HasId(s.failed, id) then 1 else 0) + (if HasId(s.cleared, id) then 1 else 0)
  }

  /** An id that was accepted once is in exactly one place. Only clearing frees an id: one that is cleared
      and queued again is counted once for each acceptance. */
  lemma ExactlyOnePlace(events: seq<Event>, id: string)
    requires TimesAccepted(Run(events).accepted, id) == 1
    ensures Places(Run(events), id) == 1
  {
    var s := Run(events);
    RunConserves(events);
    assert ConservedId(s, id);
    CountHas(s.pending, id);
    CountHas(s.drained, id);
    CountHas(s.published, id);
    CountHas(s.unsent, id);
    CountHas(s.failed, id);
    CountHas(s.cleared, id);
  }

  lemma AcceptedAgainOnlyAfterClear(events: seq<Event>, id: string)
    ensures TimesAccepted(Run(events).accepted, id) <= 1 + Count(Run(events).cleared, id)
  {
    RunConserves(events);
    assert ConservedId(Run(events), id);
  }

  // ---------------------------------------------------------------- attempts

  /** Everything but the pending and the failed jobs is as it was. */
  ghost predicate OnlyRetried(s: State, t: State) {
    && t.online == s.online && t.accepted == s.accepted && t.channel == s.channel
    && t.drained == s.drained && t.published == s.published && t.unsent == s.unsent && t.cleared == s.cleared
  }

  /** After an attempt in vain the job waits in its place for the next one, until the third, at which it fails. */
  ghost predicate TriedInVain(s: State, t: State, i: nat)
    requires i < |s.pending|
  {
    && OnlyRetried(s, t)
    && (s.pending[i].attemptsMade < 2 ==>
          && t.failed == s.failed && |t.pending| == |s.pending|
          && t.pending[i].id == s.pending[i].id && t.pending[i].message == s.pending[i].message
          && t.pending[i].attemptsMade == s.pending[i].attemptsMade + 1
          && forall k :: 0 <= k < |s.pending| && k != i ==> t.pending[k] == s.pending[k])
    && (s.pending[i].attemptsMade == 2 ==>
          && t.pending == s.pending[..i] + s.pending[i + 1..]
          && |t.failed| == |s.failed| + 1 && t.failed[..|s.failed|] == s.failed
          && t.failed[|s.failed|].id == s.pending[i].id && t.failed[|s.failed|].message == s.pending[i].message)
  }

  /** The message went out and its job is completed. */
  ghost predicate SentOut(s: State, t: State, i: nat)
    requires i < |s.pending|
  {
    && t.channel == s.channel + [s.pending[i].message] && t.published == s.published + [s.pending[i]]
    && t.pending == s.pending[..i] + s.pending[i + 1..]
    && t.online == s.online && t.accepted == s.accepted && t.failed == s.failed
    && t.drained == s.drained && t.unsent == s.unsent && t.cleared == s.cleared
  }

  /** What an attempt does for a user who is offline, and for one who is online throughout. */
  lemma AttemptMeans(s: State, i: nat, stillOnline: bool, stamp: string)
    requires Sound(s) && i < |s.pending|
    ensures s.pending[i].message.userId !in s.online ==> TriedInVain(s, Process(s, i, stillOnline, stamp), i)
    ensures s.pending[i].message.userId in s.online && stillOnline ==> SentOut(s, Process(s, i, stillOnline, stamp), i)
  {
    assert s.pending[i] in s.pending;
    assert |s.channel + [s.pending[i].message]| == |s.channel| + 1;
  }

  /** The queue takes the id in with this event. */
  predicate Accepts(s: State, e: Event, id: string) {
    Step(s, e).accepted == s.accepted + [id]
  }

  /** An attempt at the job with this id while its user is offline. */
  predicate TriesOffline(s: State, e: Event, id: string) {
    && e.Attempted? && e.index < |s.pending| && s.pending[e.index].id == id
    && s.pending[e.index].message.userId !in s.online
  }

  /** The attempts in vain at an id since it was last accepted, counted event by event. */
  function TriesOf(events: seq<Event>, id: string): nat {
    if events == [] then 0
    else
      var init, e := events[..|events| - 1], events[|events| - 1];
      if Accepts(Run(init), e, id) then 0
      else TriesOf(init, id) + if TriesOffline(Run(init), e, id) then 1 else 0
  }

  /** Waiting jobs have as many attempts behind them as were made in vain, and failed ones three. */
  ghost predicate TriesCounted(s: State, tries: string -> nat) {
    && (forall j :: j in s.pending ==> j.attemptsMade == tries(j.id))
    && (forall j :: j in s.failed ==> tries(j.id) == 3)
  }

  lemma OneJobPerId(s: State, i: nat)
    requires Conserved(s) && i < |s.pending|
    ensures forall k :: 0 <= k < |s.pending| && k != i ==> s.pending[k].id != s.pending[i].id
    ensures forall j :: j in s.failed ==> j.id != s.pending[i].id
  {
    var id := s.pending[i].id;
    assert ConservedId(s, id);
    CountWithout(s.pending, i, id);
    CountHas(Without(s.pending, i), id);
    CountHas(s.failed, id);
    forall k | 0 <= k < |s.pending| && k != i
      ensures s.pending[k].id != id
    {
      assert Without(s.pending, i)[if k < i then k else k - 1] == s.pending[k];
    }
    forall j | j in s.failed
      ensures j.id != id
    {
      var k :| 0 <= k < |s.failed| && s.failed[k] == j;
    }
  }

  /** One accepted job more, and some pending ones fewer. */
  lemma NewTries(s: State, t: State, x: string, tries: string -> nat, after: string -> nat)
    requires TriesCounted(s, tries) && !Occupied(s, x)
    requires t.failed == s.failed
    requires forall j :: j in t.pending ==> j in s.pending || (j.id == x && j.attemptsMade == 0)
    requires after(x) == 0 && forall id :: id != x ==> after(id) == tries(id)
    ensures TriesCounted(t, after)
  {
    forall j | j in s.pending + s.failed
      ensures j.id != x
    {
      if j in s.pending {
        var k :| 0 <= k < |s.pending| && s.pending[k] == j;
      } else {
        var k :| 0 <= k < |s.failed| && s.failed[k] == j;
      }
    }
  }

  /** Nothing new, and perhaps some pending ones fewer. */
  lemma FewerTries(s: State, t: State, tries: string -> nat, after: string -> nat)
    requires TriesCounted(s, tries) && t.failed == s.failed && forall j :: j in t.pending ==> j in s.pending
    requires forall id :: after(id) == tries(id)
    ensures TriesCounted(t, after)
  {
  }

  lemma VainTries(s: State, t: State, i: nat, tries: string -> nat, after: string -> nat)
    requires TriesCounted(s, tries) && Sound(s) && Conserved(s) && i < |s.pending| && TriedInVain(s, t, i)
    requires forall id :: after(id) == tries(id) + if id == s.pending[i].id then 1 else 0
    ensures TriesCounted(t, after)
  {
    OneJobPerId(s, i);
    assert s.pending[i] in s.pending;
  }

  lemma EventTries(s: State, e: Event, tries: string -> nat, after: string -> nat)
    requires TriesCounted(s, tries) && Sound(s) && Conserved(s)
    requires forall id :: after(id) == if Accepts(s, e, id) then 0
                                       else tries(id) + if TriesOffline(s, e, id) then 1 else 0
    ensures TriesCounted(Step(s, e), after)
  {
    var t := Step(s, e);
    if e.Attempted? && e.index < |s.pending| && s.pending[e.index].message.userId !in s.online {
      AttemptMeans(s, e.index, e.stillOnline, e.stamp);
      assert |t.accepted| == |s.accepted|;
      VainTries(s, t, e.index, tries, after);
    } else if t.accepted == s.accepted {
      QuietEvent(s, e);
      assert forall id :: !Accepts(s, e, id);
      FewerTries(s, t, tries, after);
    } else {
      var x := AcceptingEvent(s, e);
      assert forall id :: Accepts(s, e, id) ==> id == (s.accepted + [id])[|s.accepted|] == x;
      NewTries(s, t, x, tries, after);
    }
  }

  lemma QuietEvent(s: State, e: Event)
    requires Step(s, e).accepted == s.accepted
    requires e.Attempted? && e.index < |s.pending| ==> s.pending[e.index].message.userId in s.online
    ensures Step(s, e).failed == s.failed && forall j :: j in Step(s, e).pending ==> j in s.pending
  {
    match e
    case Connected(u) => FilterMembers(s.pending, (j: Job) => !LooksOwnedBy(j, u));
    case ClearedBy(u) => FilterMembers(s.pending, (j: Job) => !LooksOwnedBy(j, u));
    case Sent(m, stamp) => assert |s.accepted + [JobId(m, stamp)]| == |s.accepted| + 1;
    case Attempted(i, stillOnline, stamp) =>
      if i < |s.pending| {
        assert |s.accepted + [JobId(s.pending[i].message, stamp)]| == |s.accepted| + 1;
      }
    case _ =>
  }

  lemma AcceptingEvent(s: State, e: Event) returns (x: string)
    requires Step(s, e).accepted != s.accepted
    requires e.Attempted? && e.index < |s.pending| ==> s.pending[e.index].message.userId in s.online
    ensures Accepts(s, e, x) && !Occupied(s, x) && Step(s, e).failed == s.failed
    ensures forall j :: j in Step(s, e).pending ==> j in s.pending || (j.id == x && j.attemptsMade == 0)
  {
    x := if e.Sent? then JobId(e.message, e.stamp) else JobId(s.pending[e.index].message, e.stamp);
  }

  /** In any run: a job has failed only after three attempts in vain since it was accepted, and one that waits has
      met fewer, as many as it remembers. */
  lemma {:induction false} RunTries(events: seq<Event>)
    ensures forall j :: j in Run(events).pending ==> j.attemptsMade == TriesOf(events, j.id) < 3
    ensures forall j :: j in Run(events).failed ==> TriesOf(events, j.id) == 3
  {
    if events != [] {
      var init, e := events[..|events| - 1], events[|events| - 1];
      RunTries(init);
      RunConserves(init);
      RunConserves(events);
      EventTries(Run(init), e, id => TriesOf(init, id), id => TriesOf(events, id));
    }
  }

  // ---------------------------------------------------------------- handing over

  /** The user goes offline between the two presence reads of an attempt. */
  predicate Split(s: State, e: Event) {
    e.Attempted? && e.index < |s.pending| && s.pending[e.index].message.userId in s.online && !e.stillOnline
  }

  /** An attempt completes a job without sending its message out exactly if its reads are split. */
  lemma UnsentIff(s: State, e: Event)
    requires Sound(s)
    ensures Step(s, e).unsent == if Split(s, e) then s.unsent + [s.pending[e.index]] else s.unsent
  {
    if e.Attempted? && e.index < |s.pending| {
      assert s.pending[e.index] in s.pending;
      assert |s.channel + [s.pending[e.index].message]| == |s.channel| + 1;
    }
  }

  /** The message of job i did not go out, does not wait for another attempt, and was not given up either. */
  ghost predicate Gone(s: State, t: State, i: nat)
    requires i < |s.pending|
  {
    t.channel == s.channel && t.pending == Without(s.pending, i) && t.failed == s.failed
  }

  /** An attempt loses its message exactly if its reads are split and the id under which publishing queues the
      message again is in the queue already. Under a free id it waits again, with all its attempts. */
  lemma LostIff(s: State, i: nat, stillOnline: bool, stamp: string)
    requires Sound(s) && i < |s.pending|
    ensures var t, m := Process(s, i, stillOnline, stamp), s.pending[i].message;
            && (Gone(s, t, i) <==> m.userId in s.online && !stillOnline && Occupied(s, JobId(m, stamp)))
            && (m.userId in s.online && !stillOnline && !Occupied(s, JobId(m, stamp)) ==>
                  t.pending == Without(s.pending, i) + [Job(JobId(m, stamp), m, 0)])
  {
    var j, t := s.pending[i], Process(s, i, stillOnline, stamp);
    assert j in s.pending;
    assert |s.channel + [j.message]| == |s.channel| + 1;
    assert |Without(s.pending, i)| == |s.pending| - 1;
    if j.message.userId !in s.online {
      RetryWaits(s, i);
    } else if !stillOnline && !Occupied(s, JobId(j.message, stamp)) {
      WithoutAppended(s.pending, i, Job(JobId(j.message, stamp), j.message, 0));
    }
  }

  lemma RetryWaits(s: State, i: nat)
    requires i < |s.pending|
    ensures !Gone(s, Retry(s, i, s.pending[i].(attemptsMade := s.pending[i].attemptsMade + 1)), i)
  {
    var tried := s.pending[i].(attemptsMade := s.pending[i].attemptsMade + 1);
    assert |s.failed + [tried]| == |s.failed| + 1;
    assert |s.pending[i := tried]| != |Without(s.pending, i)|;
  }

  lemma WithoutAppended(jobs: seq<Job>, i: nat, j: Job)
    requires i < |jobs|
    ensures Without(jobs + [j], i) == Without(jobs, i) + [j]
  {
  }

  /** A job whose message has an id of its own waits under that id. */
  ghost predicate OwnIds(s: State) {
    forall j :: j in s.pending && j.message.messageId != "" ==> j.id == j.message.userId + "-" + j.message.messageId
  }

  lemma EnqueueOwnIds(s: State, m: Message, stamp: string)
    requires OwnIds(s)
    ensures OwnIds(Enqueue(s, m, stamp))
  {
  }

  lemma EndOwnIds(s: State, i: nat)
    requires OwnIds(s) && i < |s.pending|
    ensures forall wentOut :: OwnIds(Complete(s, i, wentOut))
    ensures OwnIds(Retry(s, i, s.pending[i].(attemptsMade := s.pending[i].attemptsMade + 1)))
  {
    assert s.pending[i] in s.pending;
  }

  lemma ProcessOwnIds(s: State, i: nat, stillOnline: bool, stamp: string)
    requires OwnIds(s) && i < |s.pending|
    ensures OwnIds(Process(s, i, stillOnline, stamp))
  {
    var m := s.pending[i].message;
    if m.userId in s.online {
      EnqueueOwnIds(s, m, stamp);
      EndOwnIds(Publish(s, m, stillOnline, stamp), i);
    } else {
      EndOwnIds(s, i);
    }
  }

  lemma StepOwnIds(s: State, e: Event)
    requires OwnIds(s)
    ensures OwnIds(Step(s, e))
  {
    match e
    case Sent(m, stamp) => EnqueueOwnIds(s, m, stamp);
    case Attempted(i, stillOnline, stamp) =>
      if i < |s.pending| {
        ProcessOwnIds(s, i, stillOnline, stamp);
      }
    case Connected(u) => FilterMembers(s.pending, (j: Job) => !LooksOwnedBy(j, u));
    case ClearedBy(u) => FilterMembers(s.pending, (j: Job) => !LooksOwnedBy(j, u));
    case _ =>
  }

  lemma {:induction false} RunOwnIds(events: seq<Event>)
    ensures OwnIds(Run(events))
  {
    if events != [] {
      RunOwnIds(events[..|events| - 1]);
      StepOwnIds(Run(events[..|events| - 1]), events[|events| - 1]);
    }
  }

  /** A message with an id of its own is lost exactly if the reads are split: the job being completed is in the
      way of its own successor. One without an id is lost only if another job has the same user and time. */
  lemma OwnIdLostIff(events: seq<Event>, i: nat, stillOnline: bool, stamp: string)
    requires i < |Run(events).pending| && Run(events).pending[i].message.messageId != ""
    ensures var s := Run(events);
            Gone(s, Process(s, i, stillOnline, stamp), i) <==> s.pending[i].message.userId in s.online && !stillOnline
  {
    var s := Run(events);
    RunConserves(events);
    RunOwnIds(events);
    LostIff(s, i, stillOnline, stamp);
    assert s.pending[i] in s.pending;
    assert s.pending[i].id == JobId(s.pending[i].message, stamp);
    assert HasId(s.pending, s.pending[i].id);
  }

  /** No attempt of the run had split reads. */
  ghost predicate NeverSplit(events: seq<Event>) {
    forall i :: 0 <= i < |events| ==> Whole(events, i)
  }

  ghost predicate Whole(events: seq<Event>, i: nat)
    requires i < |events|
  {
    !Split(Run(events[..i]), events[i])
  }

  lemma NeverSplitSnoc(events: seq<Event>)
    requires events != []
    ensures NeverSplit(events)
       <==> NeverSplit(events[..|events| - 1]) && !Split(Run(events[..|events| - 1]), events[|events| - 1])
  {
    var n := |events| - 1;
    forall i | 0 <= i < n
      ensures Whole(events[..n], i) <==> Whole(events, i)
    {
      assert events[..n][..i] == events[..i];
    }
    assert Whole(events, n) <==> !Split(Run(events[..n]), events[n]);
  }

  /** Every completed job of a run was handed over if and only if no attempt had split reads: then every accepted
      job is pending with attempts left, drained, published, failed on its third attempt, or cleared. */
  lemma {:induction false} RunUnsentIff(events: seq<Event>)
    ensures Run(events).unsent == [] <==> NeverSplit(events)
  {
    if events != [] {
      var init, e := events[..|events| - 1], events[|events| - 1];
      RunUnsentIff(init);
      RunConserves(init);
      UnsentIff(Run(init), e);
      NeverSplitSnoc(events);
    }
  }

  // ---------------------------------------------------------------- whose jobs a drain takes

  /** When the id test mistakes a job of `v` for one of `u`. */
  lemma PrefixTestIff(u: User, v: User, suffix: string)
    ensures StartsWith(v + "-" + suffix, u + "-")
       <==> u == v
            || (|u| < |v| && StartsWith(v, u + "-"))
            || (|u| > |v| && StartsWith(u, v + "-") && StartsWith(suffix, u[|v| + 1..] + "-"))
  {
    var id := v + "-" + suffix;
    if |u| == |v| {
      assert id[..|v|] == v && id[|v|] == '-';
      assert (u + "-")[..|u|] == u;
      if StartsWith(id, u + "-") {
        assert u == (u + "-")[..|u|] == id[..|u| + 1][..|u|] == id[..|v|];
      }
      if u == v {
        assert id[..|u| + 1] == u + "-";
      }
    } else if |u| < |v| {
      assert id[..|u| + 1] == v[..|u| + 1];
    } else {
      var rest := u[|v| + 1..] + "-";
      if StartsWith(id, u + "-") {
        assert id[..|u| + 1] == u + "-";
        assert u[..|v| + 1] == (u + "-")[..|v| + 1] == id[..|v| + 1] == v + "-";
        assert rest == (u + "-")[|v| + 1..] == id[..|u| + 1][|v| + 1..] == suffix[..|rest|];
      }
      if StartsWith(u, v + "-") && StartsWith(suffix, rest) {
        assert u == (v + "-") + u[|v| + 1..];
        assert u + "-" == (v + "-") + rest;
        assert id[..|u| + 1] == (v + "-") + suffix[..|rest|];
      }
    }
  }

  /** A shorter id that is a prefix up to a dash does get another user's job. */
  lemma PrefixTestMistakes()
    ensures StartsWith("anna-2" + "-" + "m1", "anna" + "-")
  {
  }

  ghost predicate OneLength(s: State, u: User) {
    forall j :: j in s.pending ==> |j.message.userId| == |u|
  }

  /** With ids of one length a drain takes all and only the user's jobs, in order, and clearing the same. */
  lemma TakenExactly(s: State, u: User)
    requires Sound(s) && OneLength(s, u)
    ensures Drain(s, u).drained == s.drained + Filter(s.pending, (j: Job) => j.message.userId == u)
    ensures Drain(s, u).pending == Filter(s.pending, (j: Job) => j.message.userId != u)
    ensures Clear(s, u).cleared == s.cleared + Filter(s.pending, (j: Job) => j.message.userId == u)
    ensures Clear(s, u).pending == Filter(s.pending, (j: Job) => j.message.userId != u)
  {
    forall j | j in s.pending
      ensures LooksOwnedBy(j, u) <==> j.message.userId == u
    {
      var v := j.message.userId;
      assert j.id[..|v| + 1] == v + "-";
      assert (u + "-")[..|u|] == u && (v + "-")[..|v|] == v;
    }
    FilterExtensional(s.pending, (j: Job) => LooksOwnedBy(j, u), (j: Job) => j.message.userId == u);
    FilterExtensional(s.pending, (j: Job) => !LooksOwnedBy(j, u), (j: Job) => j.message.userId != u);
  }

  // ---------------------------------------------------------------- the services around the queue

  /** The id is the user's, a dash, and the message's own id or else the time. */
  ghost predicate IsJobId(id: string, m: Message, stamp: string) {
    id == if m.messageId == "" then m.userId + "-" + stamp else m.userId + "-" + m.messageId
  }

  /** A message for nobody, or under an id in the queue, is dropped; any other waits at the end, untried. */
  ghost predicate Queued(s: State, t: State, m: Message, stamp: string) {
    forall id :: IsJobId(id, m, stamp) ==>
      if m.userId == "" || Occupied(s, id) then t == s
      else t == s.(accepted := s.accepted + [id], pending := s.pending + [Job(id, m, 0)])
  }

  /** Queueing leaves the id taken, once, and no other id touched. */
  lemma EnqueueMeans(s: State, m: Message, stamp: string)
    ensures var t := Enqueue(s, m, stamp);
            && Queued(s, t, m, stamp)
            && (m.userId != "" ==> Occupied(t, JobId(m, stamp)))
            && (forall id :: Count(s.pending, id) <= Count(t.pending, id)
                          <= Count(s.pending, id) + if id == JobId(m, stamp) then 1 else 0)
            && (Conserved(s) ==> Conserved(t))
  {
    var x := JobId(m, stamp);
    var t := Enqueue(s, m, stamp);
    if m.userId != "" && !Occupied(s, x) {
      assert t.pending[|s.pending|].id == x;
      forall id {
        CountSnoc(s.pending, Job(x, m, 0), id);
      }
    }
    if Conserved(s) {
      forall id
        ensures ConservedId(t, id)
      {
        EnqueueConserves(s, m, stamp, id);
      }
    }
  }

  datatype AttemptError = StillOffline

  class Queue {
    var online: set<User>
    var accepted: seq<string>
    var pending: seq<Job>
    var drained: seq<Job>
    var published: seq<Job>
    var unsent: seq<Job>
    var failed: seq<Job>
    var cleared: seq<Job>
    var channel: seq<Message>

    ghost function Value(): State
      reads this
    {
      State(online, accepted, pending, drained, published, unsent, failed, cleared, channel)
    }

    method QueueMessageForOfflineUser(message: Message, stamp: string)
      modifies this`accepted, this`pending
      ensures Value() == Enqueue(old(Value()), message, stamp)
      ensures Queued(old(Value()), Value(), message, stamp)
      ensures message.userId != "" ==> Occupied(Value(), JobId(message, stamp))
      ensures forall id :: old(Count(pending, id)) <= Count(pending, id)
                        <= old(Count(pending, id)) + if id == JobId(message, stamp) then 1 else 0
      ensures old(Conserved(Value())) ==> Conserved(Value())
    {
      EnqueueMeans(Value(), message, stamp);
      if message.userId == "" {
        return;
      }
      var jobId := JobId(message, stamp);
      var taken := Occupied(State(online, accepted, pending, drained, published, unsent, failed, cleared, channel),
                            jobId);
      if !taken {
        accepted := accepted + [jobId];
        pending := pending + [Job(jobId, message, 0)];
      }
    }

    /** Completes the user's jobs and returns what they carried, in queue order. */
    method GetQueuedMessagesForUser(userId: User) returns (messages: seq<Message>)
      modifies this`pending, this`drained
      ensures Value() == Drain(old(Value()), userId)
      ensures messages == Map(drained[|old(drained)|..], (j: Job) => j.message)
      ensures old(Sound(Value()) && OneLength(Value(), userId)) ==>
                && messages == Map(Filter(old(pending), (j: Job) => j.message.userId == userId), (j: Job) => j.message)
                && pending == Filter(old(pending), (j: Job) => j.message.userId != userId)
    {
      if Sound(Value()) && OneLength(Value(), userId) {
        TakenExactly(Value(), userId);
      }
      var userJobs := Filter(pending, (j: Job) => LooksOwnedBy(j, userId));
      pending := Filter(pending, (j: Job) => !LooksOwnedBy(j, userId));
      drained := drained + userJobs;
      messages := Map(userJobs, (j: Job) => j.message);
    }

    method ClearQueuedMessagesForUser(userId: User) returns (count: nat)
      modifies this`pending, this`cleared
      ensures Value() == Clear(old(Value()), userId)
      ensures count == |cleared| - |old(cleared)|
      ensures old(Sound(Value()) && OneLength(Value(), userId)) ==>
                && cleared == old(cleared) + Filter(old(pending), (j: Job) => j.message.userId == userId)
                && pending == Filter(old(pending), (j: Job) => j.message.userId != userId)
    {
      if Sound(Value()) && OneLength(Value(), userId) {
        TakenExactly(Value(), userId);
      }
      var userJobs := Filter(pending, (j: Job) => LooksOwnedBy(j, userId));
      pending := Filter(pending, (j: Job) => !LooksOwnedBy(j, userId));
      cleared := cleared + userJobs;
      count := |userJobs|;
    }

    /** `isOnline` is what the presence read returns. */
    method PublishMessage(message: Message, isOnline: bool, stamp: string)
      modifies this`accepted, this`pending, this`channel
      ensures Value() == Publish(old(Value()), message, isOnline, stamp)
      ensures if message.userId != "" && message.event == "message" && !isOnline
              then Queued(old(Value()), Value(), message, stamp) && Occupied(Value(), JobId(message, stamp))
              else channel == old(channel) + [message] && unchanged(`accepted, `pending)
      ensures old(Conserved(Value())) ==> Conserved(Value())
    {
      if message.userId != "" && message.event == "message" {
        if !isOnline {
          QueueMessageForOfflineUser(message, stamp);
          return;
        }
      }
      channel := channel + [message];
      assert old(Conserved(Value())) ==> Conserved(Value()) by {
        forall id
          ensures old(ConservedId(Value(), id)) ==> ConservedId(Value(), id)
        {
        }
      }
    }

    /** One attempt; an error makes the queue retry or, after the last attempt, fail the job. */
    method ProcessOfflineMessage(i: nat, stillOnline: bool, stamp: string) returns (r: Result<(), AttemptError>)
      requires i < |pending|
      modifies this
      ensures Value() == Process(old(Value()), i, stillOnline, stamp)
      ensures r.Err? <==> old(pending)[i].message.userId !in old(online)
      ensures old(Sound(Value())) && r.Err? ==> TriedInVain(old(Value()), Value(), i)
      ensures old(Sound(Value())) && r.Ok? && stillOnline ==> SentOut(old(Value()), Value(), i)
      ensures old(Sound(Value())) && r.Ok? && !stillOnline ==>
                && channel == old(channel) && unsent == old(unsent) + [old(pending)[i]] && failed == old(failed)
                && published == old(published) && drained == old(drained) && cleared == old(cleared)
    {
      ghost var was := Value();
      if Sound(was) {
        AttemptMeans(was, i, stillOnline, stamp);
        UnsentIff(was, Attempted(i, stillOnline, stamp));
        assert was.pending[i] in was.pending;
      }
      var job := pending[i];
      if job.message.userId in online {
        var before := |channel|;
        PublishMessage(job.message, stillOnline, stamp);
        pending := Without(pending, i);
        if |channel| > before {
          published := published + [job];
        } else {
          unsent := unsent + [job];
        }
        return Ok(());
      }
      var tried := job.(attemptsMade := job.attemptsMade + 1);
      if tried.attemptsMade >= ATTEMPTS {
        pending := Without(pending, i);
        failed := failed + [tried];
      } else {
        pending := pending[i := tried];
      }
      return Err(StillOffline);
    }
  }
}
