/** Delivery statuses: jobs that arrive in any order, repeated and retried, each applied by loading the
    recipient's row, saving its new status and then saving a history row. */
module StatusPipeline {
  import opened Sequences

  datatype Status = Sent | Delivered | Read

  function Rank(s: Status): nat {
    match s case Sent => 0 case Delivered => 1 case Read => 2
  }

  function Max(a: Status, b: Status): Status {
    if Rank(a) >= Rank(b) then a else b
  }

  datatype Recipient = Recipient(messageId: string, recipientId: string, status: Status)

  datatype Change = Change(row: nat, previousStatus: Status, newStatus: Status)

  datatype Job = Job(messageId: string, recipientId: string, status: Status)

  /** Recipient rows, numbered by id, and the status history. */
  datatype State = State(rows: seq<Recipient>, history: seq<Change>)

  datatype StatusError = RecipientNotFound | Interrupted

  /** Where an attempt at a job stops: it may fail before the first save, between the two, or after both,
      and is then retried like any other attempt. */
  datatype Crash = NoCrash | BeforeSave | BetweenSaves | AfterSaves

  datatype Attempt = Attempt(job: Job, crash: Crash)

  function FindRow(rows: seq<Recipient>, messageId: string, recipientId: string): (r: Option<nat>)
    ensures r.Some? ==> r.value < |rows|
    ensures r.Some? ==> rows[r.value].messageId == messageId && rows[r.value].recipientId == recipientId
    ensures r.None? ==> forall c :: c in rows ==> !(c.messageId == messageId && c.recipientId == recipientId)
  {
    if rows == [] then None
    else if rows[0].messageId == messageId && rows[0].recipientId == recipientId then Some(0)
    else
      var r := FindRow(rows[1..], messageId, recipientId);
      assert rows == [rows[0]] + rows[1..];
      if r.None? then None else Some(r.value + 1)
  }

  /** The guard of the processor: read beats the others, delivered beats sent. */
  predicate Downgrade(current: Status, status: Status) {
    (current == Read && (status == Delivered || status == Sent)) || (current == Delivered && status == Sent)
  }

  // ---------------------------------------------------------------- the three steps of a job

  /** The row a job is about, unless it is missing or the job would take it back. */
  function Load(s: State, job: Job): Option<nat> {
    var i := FindRow(s.rows, job.messageId, job.recipientId);
    if i.None? || Downgrade(s.rows[i.value].status, job.status) then None else i
  }

  function SaveStatus(s: State, i: nat, status: Status): State
    requires i < |s.rows|
  {
    s.(rows := s.rows[i := s.rows[i].(status := status)])
  }

  function SaveHistory(s: State, i: nat, previousStatus: Status, status: Status): State {
    s.(history := s.history + [Change(i, previousStatus, status)])
  }

  function Process(s: State, a: Attempt): State {
    var i := Load(s, a.job);
    if i.None? || a.crash == BeforeSave then s
    else
      var saved := SaveStatus(s, i.value, a.job.status);
      if a.crash == BetweenSaves then saved
      else SaveHistory(saved, i.value, s.rows[i.value].status, a.job.status)
  }

  function Run(s: State, attempts: seq<Attempt>): State {
    if attempts == [] then s else Process(Run(s, attempts[..|attempts| - 1]), attempts[|attempts| - 1])
  }

  // ---------------------------------------------------------------- convergence

  /** Rows are never added, moved or renamed by jobs. */
  ghost predicate SameRows(s: State, t: State) {
    |t.rows| == |s.rows|
    && forall i :: 0 <= i < |s.rows| ==>
         t.rows[i].messageId == s.rows[i].messageId && t.rows[i].recipientId == s.rows[i].recipientId
  }

  lemma {:induction false} SameRowsFind(a: seq<Recipient>, b: seq<Recipient>, messageId: string, recipientId: string)
    requires |a| == |b|
    requires forall i :: 0 <= i < |a| ==> a[i].messageId == b[i].messageId && a[i].recipientId == b[i].recipientId
    ensures FindRow(a, messageId, recipientId) == FindRow(b, messageId, recipientId)
  {
    if a != [] {
      SameRowsFind(a[1..], b[1..], messageId, recipientId);
    }
  }

  lemma {:induction false} RunSameRows(s: State, attempts: seq<Attempt>)
    ensures SameRows(s, Run(s, attempts))
  {
    if attempts != [] {
      RunSameRows(s, attempts[..|attempts| - 1]);
    }
  }

  /** An attempt that got far enough to count for row `i`. */
  predicate Settles(rows: seq<Recipient>, i: nat, a: Attempt) {
    FindRow(rows, a.job.messageId, a.job.recipientId) == Some(i) && a.crash != BeforeSave
  }

  /** The highest of a status and those of all settled attempts for row `i`. */
  function Highest(rows: seq<Recipient>, i: nat, status: Status, attempts: seq<Attempt>): Status {
    if attempts == [] then status
    else
      var h := Highest(rows, i, status, attempts[..|attempts| - 1]);
      if Settles(rows, i, attempts[|attempts| - 1]) then Max(h, attempts[|attempts| - 1].job.status) else h
  }

  /** The final status is the maximum of the initial one and every applied one. */
  lemma {:induction false} Converges(s: State, attempts: seq<Attempt>, i: nat)
    requires i < |s.rows|
    ensures |Run(s, attempts).rows| == |s.rows|
    ensures Run(s, attempts).rows[i].status == Highest(s.rows, i, s.rows[i].status, attempts)
  {
    RunSameRows(s, attempts);
    if attempts != [] {
      var init, a := attempts[..|attempts| - 1], attempts[|attempts| - 1];
      Converges(s, init, i);
      RunSameRows(s, init);
      SameRowsFind(s.rows, Run(s, init).rows, a.job.messageId, a.job.recipientId);
    }
  }

  /** Some settled attempt for row `i` carries this status. */
  ghost predicate Carried(rows: seq<Recipient>, i: nat, attempts: seq<Attempt>, status: Status) {
    exists a :: a in attempts && Settles(rows, i, a) && a.job.status == status
  }

  /** Highest is the least upper bound of what was carried. */
  lemma {:induction false} HighestIsMaximum(rows: seq<Recipient>, i: nat, status: Status, attempts: seq<Attempt>)
    ensures var h := Highest(rows, i, status, attempts);
            && (h == status || Carried(rows, i, attempts, h))
            && Rank(status) <= Rank(h)
            && forall a :: a in attempts && Settles(rows, i, a) ==> Rank(a.job.status) <= Rank(h)
  {
    if attempts != [] {
      var init, a := attempts[..|attempts| - 1], attempts[|attempts| - 1];
      HighestIsMaximum(rows, i, status, init);
      assert attempts == init + [a];
      var h := Highest(rows, i, status, init);
      if Carried(rows, i, init, h) {
        var b :| b in init && Settles(rows, i, b) && b.job.status == h;
        assert b in attempts;
      }
      assert a in attempts;
    }
  }

  /** After any attempts a message counts as read if it did before or some settled attempt said so, and still as sent
      only if it did before and none said delivered or read. */
  lemma FinalStatusIff(s: State, attempts: seq<Attempt>, i: nat)
    requires i < |s.rows|
    ensures |Run(s, attempts).rows| == |s.rows|
    ensures var before, after := s.rows[i].status, Run(s, attempts).rows[i].status;
            && (after == Read <==> before == Read || Carried(s.rows, i, attempts, Read))
            && (after == Sent <==>
                  before == Sent && !Carried(s.rows, i, attempts, Delivered) && !Carried(s.rows, i, attempts, Read))
  {
    Converges(s, attempts, i);
    HighestIsMaximum(s.rows, i, s.rows[i].status, attempts);
  }

  /** Order, repetition and retries do not matter: runs that settle the same statuses end the same. */
  lemma OrderIrrelevant(s: State, a: seq<Attempt>, b: seq<Attempt>, i: nat)
    requires i < |s.rows|
    requires forall status :: Carried(s.rows, i, a, status) <==> Carried(s.rows, i, b, status)
    ensures |Run(s, a).rows| == |Run(s, b).rows| == |s.rows|
    ensures Run(s, a).rows[i].status == Run(s, b).rows[i].status
  {
    Converges(s, a, i);
    Converges(s, b, i);
    HighestIsMaximum(s.rows, i, s.rows[i].status, a);
    HighestIsMaximum(s.rows, i, s.rows[i].status, b);
    var ha, hb := Highest(s.rows, i, s.rows[i].status, a), Highest(s.rows, i, s.rows[i].status, b);
    if ha != s.rows[i].status {
      assert Carried(s.rows, i, b, ha);
    }
    if hb != s.rows[i].status {
      assert Carried(s.rows, i, a, hb);
    }
    assert Rank(ha) == Rank(hb);
  }

  // ---------------------------------------------------------------- history

  /** The history of one row. */
  function Of(history: seq<Change>, i: nat): seq<Change> {
    Filter(history, (c: Change) => c.row == i)
  }

  /** What the history says the status is. */
  function LastLogged(changes: seq<Change>, initial: Status): Status {
    if changes == [] then initial else changes[|changes| - 1].newStatus
  }

  /** Each entry starts where the one before ended. */
  ghost predicate Chain(changes: seq<Change>, initial: Status) {
    && (changes != [] ==> changes[0].previousStatus == initial)
    && forall k, j :: 0 <= k < |changes| && j == k + 1 && j < |changes| ==>
         changes[j].previousStatus == changes[k].newStatus
  }

  /** Each entry starts no lower than the one before ended, and never leads down. */
  ghost predicate Rising(changes: seq<Change>, initial: Status) {
    && (changes != [] ==> Rank(changes[0].previousStatus) >= Rank(initial))
    && (forall k, j :: 0 <= k < |changes| && j == k + 1 && j < |changes| ==>
         Rank(changes[j].previousStatus) >= Rank(changes[k].newStatus))
    && forall k :: 0 <= k < |changes| ==> Rank(changes[k].newStatus) >= Rank(changes[k].previousStatus)
  }

  /** One attempt adds at most one entry, and only to the row it is about. */
  lemma ProcessHistory(s: State, a: Attempt, i: nat)
    requires i < |s.rows|
    ensures |Process(s, a).rows| == |s.rows|
    ensures Of(Process(s, a).history, i)
         == if Load(s, a.job) == Some(i) && (a.crash == NoCrash || a.crash == AfterSaves)
            then Of(s.history, i) + [Change(i, s.rows[i].status, a.job.status)] else Of(s.history, i)
    ensures Process(s, a).rows[i].status
         == if Load(s, a.job) == Some(i) && a.crash != BeforeSave then a.job.status else s.rows[i].status
  {
    var j := Load(s, a.job);
    if j.Some? {
      FilterSnoc(s.history, Change(j.value, s.rows[j.value].status, a.job.status), (c: Change) => c.row == i);
    }
  }

  /** Whatever crashes: along a row's history the statuses only rise, and stay at or below the row's own. */
  lemma RisingSnoc(changes: seq<Change>, c: Change, initial: Status)
    requires Rising(changes, initial)
    requires Rank(c.previousStatus) >= Rank(LastLogged(changes, initial)) && Rank(c.newStatus) >= Rank(c.previousStatus)
    ensures Rising(changes + [c], initial) && LastLogged(changes + [c], initial) == c.newStatus
  {
  }

  lemma {:induction false} HistoryRises(s: State, attempts: seq<Attempt>, i: nat)
    requires i < |s.rows| && s.history == []
    ensures |Run(s, attempts).rows| == |s.rows|
    ensures var t := Run(s, attempts);
            && Rising(Of(t.history, i), s.rows[i].status)
            && Rank(LastLogged(Of(t.history, i), s.rows[i].status)) <= Rank(t.rows[i].status)
    decreases |attempts|
  {
    if attempts != [] {
      var a := attempts[|attempts| - 1];
      HistoryRises(s, attempts[..|attempts| - 1], i);
      var t := Run(s, attempts[..|attempts| - 1]);
      ProcessHistory(t, a, i);
      if Load(t, a.job) == Some(i) {
        RisingSnoc(Of(t.history, i), Change(i, t.rows[i].status, a.job.status), s.rows[i].status);
      }
    }
  }

  /** Without a crash between the two saves the history is a chain that ends at the current status. */
  lemma {:induction false} HistoryChains(s: State, attempts: seq<Attempt>, i: nat)
    requires i < |s.rows| && s.history == []
    requires forall a :: a in attempts ==> a.crash != BetweenSaves
    ensures |Run(s, attempts).rows| == |s.rows|
    ensures var t := Run(s, attempts);
            && Chain(Of(t.history, i), s.rows[i].status)
            && LastLogged(Of(t.history, i), s.rows[i].status) == t.rows[i].status
    decreases |attempts|
  {
    if attempts != [] {
      var a := attempts[|attempts| - 1];
      assert a in attempts;
      HistoryChains(s, attempts[..|attempts| - 1], i);
      var t := Run(s, attempts[..|attempts| - 1]);
      ProcessHistory(t, a, i);
      if Load(t, a.job) == Some(i) {
        ChainSnoc(Of(t.history, i), Change(i, t.rows[i].status, a.job.status), s.rows[i].status);
      }
    }
  }

  lemma ChainSnoc(changes: seq<Change>, c: Change, initial: Status)
    requires Chain(changes, initial) && c.previousStatus == LastLogged(changes, initial)
    ensures Chain(changes + [c], initial) && LastLogged(changes + [c], initial) == c.newStatus
  {
  }

  /** A history in step with its row falls behind exactly when a job that raises the status crashes
      between its two saves. */
  lemma FallsBehindIff(s: State, a: Attempt, i: nat, initial: Status)
    requires i < |s.rows| && LastLogged(Of(s.history, i), initial) == s.rows[i].status
    ensures |Process(s, a).rows| == |s.rows|
    ensures LastLogged(Of(Process(s, a).history, i), initial) == Process(s, a).rows[i].status
       <==> !(a.crash == BetweenSaves
              && FindRow(s.rows, a.job.messageId, a.job.recipientId) == Some(i)
              && Rank(a.job.status) > Rank(s.rows[i].status))
  {
    ProcessHistory(s, a, i);
  }

  /** The history of row i is a chain and ends at the row's status. */
  ghost predicate InStep(t: State, i: nat, initial: Status)
    requires i < |t.rows|
  {
    Chain(Of(t.history, i), initial) && LastLogged(Of(t.history, i), initial) == t.rows[i].status
  }

  /** A job that raises the status of row i stops between its two saves. */
  predicate Breaks(t: State, i: nat, a: Attempt)
    requires i < |t.rows|
  {
    && a.crash == BetweenSaves
    && FindRow(t.rows, a.job.messageId, a.job.recipientId) == Some(i)
    && Rank(a.job.status) > Rank(t.rows[i].status)
  }

  lemma ChainPrefix(changes: seq<Change>, c: Change, initial: Status)
    requires Chain(changes + [c], initial)
    ensures Chain(changes, initial) && c.previousStatus == LastLogged(changes, initial)
  {
    var all := changes + [c];
    assert forall k :: 0 <= k < |changes| ==> all[k] == changes[k];
    assert all[|changes|] == c;
    if changes != [] {
      var k, j := |changes| - 1, |changes|;
      assert all[j].previousStatus == all[k].newStatus;
    }
  }

  /** One attempt keeps a history in step unless it breaks it, and none brings a history back into step. */
  lemma InStepIff(t: State, a: Attempt, i: nat, initial: Status)
    requires i < |t.rows| && Rank(LastLogged(Of(t.history, i), initial)) <= Rank(t.rows[i].status)
    ensures |Process(t, a).rows| == |t.rows|
    ensures InStep(Process(t, a), i, initial) <==> InStep(t, i, initial) && !Breaks(t, i, a)
  {
    ProcessHistory(t, a, i);
    var c := Change(i, t.rows[i].status, a.job.status);
    if Load(t, a.job) == Some(i) && (a.crash == NoCrash || a.crash == AfterSaves) {
      if InStep(t, i, initial) {
        ChainSnoc(Of(t.history, i), c, initial);
      }
      if Chain(Of(t.history, i) + [c], initial) {
        ChainPrefix(Of(t.history, i), c, initial);
      }
    }
  }

  /** Attempt k of a run breaks the history of row i. */
  ghost predicate BreaksAt(s: State, attempts: seq<Attempt>, k: nat, i: nat)
    requires k < |attempts|
  {
    var t := Run(s, attempts[..k]);
    i < |t.rows| && Breaks(t, i, attempts[k])
  }

  ghost predicate NeverBreaks(s: State, attempts: seq<Attempt>, i: nat) {
    forall k :: 0 <= k < |attempts| ==> !BreaksAt(s, attempts, k, i)
  }

  lemma NoBreakSnoc(s: State, attempts: seq<Attempt>, i: nat)
    requires attempts != []
    ensures NeverBreaks(s, attempts, i)
       <==> NeverBreaks(s, attempts[..|attempts| - 1], i) && !BreaksAt(s, attempts, |attempts| - 1, i)
  {
    var n := |attempts| - 1;
    forall k | 0 <= k < n
      ensures BreaksAt(s, attempts[..n], k, i) <==> BreaksAt(s, attempts, k, i)
    {
      assert attempts[..n][..k] == attempts[..k];
    }
  }

  /** Over any run: the history is a chain that ends at the current status if and only if no job that raised the
      row's status stopped between its two saves. */
  lemma {:induction false} HistoryChainsIff(s: State, attempts: seq<Attempt>, i: nat)
    requires i < |s.rows| && s.history == []
    ensures |Run(s, attempts).rows| == |s.rows|
    ensures InStep(Run(s, attempts), i, s.rows[i].status)
       <==> NeverBreaks(s, attempts, i)
    decreases |attempts|
  {
    if attempts != [] {
      var n := |attempts| - 1;
      HistoryChainsIff(s, attempts[..n], i);
      HistoryRises(s, attempts[..n], i);
      NoBreakSnoc(s, attempts, i);
      InStepIff(Run(s, attempts[..n]), attempts[n], i, s.rows[i].status);
    }
  }

  /** Loading, checking and saving must not overlap. When two workers load the row before either saves,
      the later save wins: the outcome is the maximum only if that save is not the lower one, while one
      job after the other always gives the maximum. */
  lemma OverlappingWorkers(s: State, first: Job, second: Job, i: nat)
    requires Load(s, first) == Some(i) && Load(s, second) == Some(i)
    ensures SaveStatus(SaveStatus(s, i, first.status), i, second.status).rows[i].status
         == Max(first.status, second.status)
       <==> Rank(second.status) >= Rank(first.status)
    ensures var t := Process(Process(s, Attempt(first, NoCrash)), Attempt(second, NoCrash));
            |t.rows| == |s.rows| && t.rows[i].status == Max(first.status, second.status)
  {
    var t := Process(s, Attempt(first, NoCrash));
    SameRowsFind(s.rows, t.rows, second.messageId, second.recipientId);
  }

  // ---------------------------------------------------------------- the processor and the sender

  class StatusProcessor {
    var rows: seq<Recipient>
    var history: seq<Change>

    ghost function Value(): State
      reads this
    {
      State(rows, history)
    }

    /** One attempt that is not interrupted. */
    method ProcessStatusUpdate(job: Job) returns (r: Result<(), StatusError>)
      modifies this
      ensures Value() == Process(old(Value()), Attempt(job, NoCrash))
      ensures r.Err? <==> FindRow(old(rows), job.messageId, job.recipientId).None?
      ensures r.Ok? ==> var i := FindRow(old(rows), job.messageId, job.recipientId).value;
                        i < |rows| == |old(rows)| && rows[i].status == Max(old(rows)[i].status, job.status)
    {
      var found := FindRow(rows, job.messageId, job.recipientId);
      if found.None? {
        return Err(RecipientNotFound);
      }
      var recipient := rows[found.value];
      if (recipient.status == Read && (job.status == Delivered || job.status == Sent))
         || (recipient.status == Delivered && job.status == Sent)
      {
        return Ok(());
      }
      var previousStatus := recipient.status;
      rows := rows[found.value := recipient.(status := job.status)];
      history := history + [Change(found.value, previousStatus, job.status)];
      return Ok(());
    }
  }

  class MessagesService {
    var rows: seq<Recipient>
    var queue: seq<Job>

    /** One row and one queued job per recipient, the row saved first: every queued job finds its row. */
    method CreateMessage(messageId: string, recipientIds: seq<string>)
      requires forall j :: j in queue ==> FindRow(rows, j.messageId, j.recipientId).Some?
      modifies this
      ensures rows == old(rows) + Map(recipientIds, id => Recipient(messageId, id, Sent))
      ensures queue == old(queue) + Map(recipientIds, id => Job(messageId, id, Sent))
      ensures forall j :: j in queue ==> FindRow(rows, j.messageId, j.recipientId).Some?
    {
      var newRow := id => Recipient(messageId, id, Sent);
      var newJob := id => Job(messageId, id, Sent);
      for i := 0 to |recipientIds|
        invariant rows == old(rows) + Map(recipientIds[..i], newRow)
        invariant queue == old(queue) + Map(recipientIds[..i], newJob)
        invariant forall j :: j in queue ==> FindRow(rows, j.messageId, j.recipientId).Some?
      {
        var recipient := Recipient(messageId, recipientIds[i], Sent);
        ghost var before := rows;
        rows := rows + [recipient];
        queue := queue + [Job(messageId, recipientIds[i], Sent)];
        assert rows[|before|] == recipient && recipient in rows;
        assert forall c :: c in before ==> c in rows;
        forall j | j in queue
          ensures FindRow(rows, j.messageId, j.recipientId).Some?
        {
          var found := FindRow(before, j.messageId, j.recipientId);
          assert found.Some? ==> before[found.value] in rows;
        }
      }
      assert recipientIds[..|recipientIds|] == recipientIds;
    }
  }
}
