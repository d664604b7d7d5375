/** The comment table under create, update and remove. Rows are numbered as they are inserted and never
    physically deleted, so a row's number serves as its id. */
module CommentForest {
  import opened Sequences

  datatype Comment = Comment(
    id: nat, contentId: string, contentType: string, creatorId: string, content: string,
    parentId: Option<nat>, rootId: Option<nat>, replyCount: int, isDeleted: bool, createdAt: int)

  datatype CreateComment = CreateComment(contentId: string, contentType: string, content: string, parentId: Option<nat>)

  datatype CommentError = ParentNotFound | NotFoundOrNotYours | CommentNotFound | InvalidPage

  type Table = seq<Comment>

  predicate Live(t: Table, id: nat) {
    id < |t| && !t[id].isDeleted
  }

  /** Non-deleted rows that name `id` as their parent. */
  function LiveReplies(t: Table, id: nat): nat {
    |Filter(t, (c: Comment) => c.parentId == Some(id) && !c.isDeleted)|
  }

  // ---------------------------------------------------------------- the operations

  function Create(t: Table, userId: string, dto: CreateComment, now: int): Result<Table, CommentError> {
    if dto.parentId.Some? && !Live(t, dto.parentId.value) then Err(ParentNotFound)
    else
      var rootId :=
        if dto.parentId.None? then None
        else if t[dto.parentId.value].rootId.Some? then t[dto.parentId.value].rootId
        else dto.parentId;
      Ok(AddReplies(t, dto.parentId, 1)
         + [Comment(|t|, dto.contentId, dto.contentType, userId, dto.content, dto.parentId, rootId, 0, false, now)])
  }

  function Update(t: Table, id: nat, userId: string, content: string): Result<Table, CommentError> {
    if Live(t, id) && t[id].creatorId == userId then Ok(t[id := t[id].(content := content)])
    else Err(NotFoundOrNotYours)
  }

  function Remove(t: Table, id: nat, userId: string): Result<Table, CommentError> {
    if Live(t, id) && t[id].creatorId == userId then
      Ok(AddReplies(t[id := t[id].(isDeleted := true)], t[id].parentId, -1))
    else Err(NotFoundOrNotYours)
  }

  /** The atomic increment or decrement of one row's replyCount, if such a row exists. */
  function AddReplies(t: Table, id: Option<nat>, delta: int): (r: Table)
    ensures |r| == |t|
  {
    if id.None? || id.value >= |t| then t
    else t[id.value := t[id.value].(replyCount := t[id.value].replyCount + delta)]
  }

  // ---------------------------------------------------------------- the invariant

  /** Parents are older rows: the reason no parent chain can close on itself. */
  ghost predicate ParentsOlder(t: Table) {
    forall i :: 0 <= i < |t| ==> t[i].id == i && (t[i].parentId.Some? ==> t[i].parentId.value < i)
  }

  /** The topmost ancestor of a row. */
  function Top(t: Table, id: nat): (top: nat)
    requires ParentsOlder(t) && id < |t|
    ensures top <= id && t[top].parentId.None?
  {
    if t[id].parentId.None? then id else Top(t, t[id].parentId.value)
  }

  /** `a` is met when walking up from `b` by one or more parent links. */
  ghost predicate Ancestor(t: Table, a: nat, b: nat)
    requires ParentsOlder(t)
    decreases b
  {
    b < |t| && t[b].parentId.Some? && (t[b].parentId.value == a || Ancestor(t, a, t[b].parentId.value))
  }

  ghost predicate Forest(t: Table) {
    && ParentsOlder(t)
    && (forall i :: 0 <= i < |t| ==> t[i].rootId == if t[i].parentId.None? then None else Some(Top(t, i)))
    && (forall i :: 0 <= i < |t| ==> t[i].replyCount == LiveReplies(t, i))
  }

  lemma {:induction false} NoCycle(t: Table, a: nat, b: nat)
    requires ParentsOlder(t) && Ancestor(t, a, b)
    ensures a < b
    decreases b
  {
    if t[b].parentId.value != a {
      NoCycle(t, a, t[b].parentId.value);
    }
  }

  /** Rows with the same parent links have the same topmost ancestors. */
  lemma {:induction false} TopStable(t: Table, u: Table, id: nat)
    requires ParentsOlder(t) && ParentsOlder(u) && id < |t| <= |u|
    requires forall i :: 0 <= i < |t| ==> u[i].parentId == t[i].parentId
    ensures Top(u, id) == Top(t, id)
  {
    if t[id].parentId.Some? {
      TopStable(t, u, t[id].parentId.value);
    }
  }

  /** One row changed in place: the count of live replies moves only for the parent it names. */
  lemma {:induction false} LiveRepliesUpdate(t: Table, i: nat, c: Comment, id: nat)
    requires i < |t| && c.parentId == t[i].parentId
    ensures LiveReplies(t[i := c], id) - LiveReplies(t, id)
         == if c.parentId != Some(id) || c.isDeleted == t[i].isDeleted then 0 else if c.isDeleted then -1 else 1
  {
    var keep := (c: Comment) => c.parentId == Some(id) && !c.isDeleted;
    assert t == t[..i] + [t[i]] + t[i + 1..];
    assert t[i := c] == t[..i] + [c] + t[i + 1..];
    FilterConcat(t[..i] + [t[i]], t[i + 1..], keep);
    FilterConcat(t[..i] + [c], t[i + 1..], keep);
    FilterSnoc(t[..i], t[i], keep);
    FilterSnoc(t[..i], c, keep);
  }

  lemma AddRepliesFacts(t: Table, id: Option<nat>, delta: int)
    ensures var u := AddReplies(t, id, delta);
            forall k: nat :: LiveReplies(u, k) == LiveReplies(t, k)
  {
    forall k: nat
      ensures LiveReplies(AddReplies(t, id, delta), k) == LiveReplies(t, k)
    {
      if id.Some? && id.value < |t| {
        LiveRepliesUpdate(t, id.value, t[id.value].(replyCount := t[id.value].replyCount + delta), k);
      }
    }
  }

  lemma CreateRoots(t: Table, u: Table, i: nat)
    requires Forest(t) && ParentsOlder(u) && i < |u| == |t| + 1
    requires forall k :: 0 <= k < |t| ==> u[k].parentId == t[k].parentId && u[k].rootId == t[k].rootId
    requires u[|t|].rootId == if u[|t|].parentId.None? then None else Some(Top(t, u[|t|].parentId.value))
    ensures u[i].rootId == if u[i].parentId.None? then None else Some(Top(u, i))
  {
    if i < |t| {
      TopStable(t, u, i);
    } else if u[i].parentId.Some? {
      TopStable(t, u, u[i].parentId.value);
    }
  }

  lemma CreateCounts(t: Table, mid: Table, added: Comment, i: nat)
    requires Forest(t) && mid == AddReplies(t, added.parentId, 1) && i < |t| + 1
    requires added.id == |t| && added.replyCount == 0 && !added.isDeleted
    requires added.parentId.Some? ==> added.parentId.value < |t|
    ensures (mid + [added])[i].replyCount == LiveReplies(mid + [added], i)
  {
    AddRepliesFacts(t, added.parentId, 1);
    FilterSnoc(mid, added, (c: Comment) => c.parentId == Some(i) && !c.isDeleted);
    if i == |t| {
      NoRepliesYet(t, i);
    }
  }

  lemma CreateKeepsForest(t: Table, userId: string, dto: CreateComment, now: int)
    requires Forest(t) && Create(t, userId, dto, now).Ok?
    ensures Forest(Create(t, userId, dto, now).value)
  {
    var u := Create(t, userId, dto, now).value;
    var mid := AddReplies(t, dto.parentId, 1);
    var added := u[|t|];
    assert u == mid + [added];
    assert ParentsOlder(u);
    forall i | 0 <= i < |u|
      ensures u[i].rootId == if u[i].parentId.None? then None else Some(Top(u, i))
    {
      CreateRoots(t, u, i);
    }
    forall i | 0 <= i < |u|
      ensures u[i].replyCount == LiveReplies(u, i)
    {
      CreateCounts(t, mid, added, i);
    }
  }

  lemma NoRepliesYet(t: Table, id: nat)
    requires ParentsOlder(t) && id >= |t|
    ensures LiveReplies(t, id) == 0
  {
    FilterNone(t, (c: Comment) => c.parentId == Some(id) && !c.isDeleted);
  }

  lemma UpdateKeepsForest(t: Table, id: nat, userId: string, content: string)
    requires Forest(t) && Update(t, id, userId, content).Ok?
    ensures Forest(Update(t, id, userId, content).value)
  {
    var u := Update(t, id, userId, content).value;
    RootsStable(t, u);
    forall i | 0 <= i < |u|
      ensures u[i].replyCount == LiveReplies(u, i)
    {
      LiveRepliesUpdate(t, id, u[id], i);
    }
  }

  /** With parent and root links as before, every root is still the topmost ancestor. */
  lemma RootsStable(t: Table, u: Table)
    requires Forest(t) && |u| == |t|
    requires forall i :: 0 <= i < |t| ==> u[i].id == i && u[i].parentId == t[i].parentId && u[i].rootId == t[i].rootId
    ensures ParentsOlder(u)
    ensures forall i :: 0 <= i < |u| ==> u[i].rootId == if u[i].parentId.None? then None else Some(Top(u, i))
  {
    forall i | 0 <= i < |u|
      ensures u[i].rootId == if u[i].parentId.None? then None else Some(Top(u, i))
    {
      TopStable(t, u, i);
    }
  }

  lemma RemoveKeepsForest(t: Table, id: nat, userId: string)
    requires Forest(t) && Remove(t, id, userId).Ok?
    ensures Forest(Remove(t, id, userId).value)
  {
    var u := Remove(t, id, userId).value;
    RootsStable(t, u);
    forall i | 0 <= i < |u|
      ensures u[i].replyCount == LiveReplies(u, i)
    {
      RemoveCounts(t, id, i);
    }
  }

  lemma RemoveCounts(t: Table, id: nat, i: nat)
    requires ParentsOlder(t) && Live(t, id) && i < |t|
    ensures var u := AddReplies(t[id := t[id].(isDeleted := true)], t[id].parentId, -1);
            && u[i].replyCount == t[i].replyCount - (if t[id].parentId == Some(i) then 1 else 0)
            && LiveReplies(u, i) == LiveReplies(t, i) - (if t[id].parentId == Some(i) then 1 else 0)
  {
    var gone := t[id].(isDeleted := true);
    LiveRepliesUpdate(t, id, gone, i);
    AddRepliesFacts(t[id := gone], t[id].parentId, -1);
  }

  // ---------------------------------------------------------------- runs

  datatype Call =
    | CallCreate(userId: string, dto: CreateComment, now: int)
    | CallUpdate(id: nat, userId: string, content: string)
    | CallRemove(id: nat, userId: string)

  function Attempt(t: Table, call: Call): Result<Table, CommentError> {
    match call
    case CallCreate(userId, dto, now) => Create(t, userId, dto, now)
    case CallUpdate(id, userId, content) => Update(t, id, userId, content)
    case CallRemove(id, userId) => Remove(t, id, userId)
  }

  /** A call that fails throws before it has written anything. */
  function Step(t: Table, call: Call): Table {
    var r := Attempt(t, call);
    if r.Ok? then r.value else t
  }

  /** A reply needs a comment that is not deleted; only the author changes or deletes a comment, and only once. */
  ghost predicate Allowed(t: Table, call: Call) {
    match call
    case CallCreate(userId, dto, now) =>
      dto.parentId.Some? ==> exists c :: c in t && c.id == dto.parentId.value && !c.isDeleted
    case CallUpdate(id, userId, content) => exists c :: c in t && c.id == id && c.creatorId == userId && !c.isDeleted
    case CallRemove(id, userId) => exists c :: c in t && c.id == id && c.creatorId == userId && !c.isDeleted
  }

  /** The parent's counter moves by delta. */
  function Counted(c: Comment, parentId: Option<nat>, delta: int): Comment {
    if parentId == Some(c.id) then c.(replyCount := c.replyCount + delta) else c
  }

  /** What a call leaves: a new row and one reply more at its parent; a new text; or a deleted row and one reply
      fewer. */
  ghost predicate Effect(t: Table, call: Call, u: Table) {
    match call
    case CallCreate(userId, dto, now) =>
      && |u| == |t| + 1 && (forall i :: 0 <= i < |t| ==> u[i] == Counted(t[i], dto.parentId, 1))
      && IsNewComment(u[|t|], |t|, userId, dto, now)
    case CallUpdate(id, userId, content) =>
      |u| == |t| && forall i :: 0 <= i < |t| ==> u[i] == if i == id then t[i].(content := content) else t[i]
    case CallRemove(id, userId) =>
      && |u| == |t| && id < |t|
      && forall i :: 0 <= i < |t| ==> u[i] == if i == id then t[i].(isDeleted := true)
                                              else Counted(t[i], t[id].parentId, -1)
  }

  predicate IsNewComment(c: Comment, id: nat, userId: string, dto: CreateComment, now: int) {
    && c.id == id && c.creatorId == userId && c.createdAt == now
    && c.contentId == dto.contentId && c.contentType == dto.contentType && c.content == dto.content
    && c.parentId == dto.parentId && c.replyCount == 0 && !c.isDeleted
  }

  lemma LiveIff(t: Table, id: nat)
    requires ParentsOlder(t)
    ensures Live(t, id) <==> exists c :: c in t && c.id == id && !c.isDeleted
    ensures Live(t, id) ==> t[id] in t && forall c :: c in t && c.id == id ==> c == t[id]
  {
  }

  /** Every call succeeds exactly when it is allowed, leaves exactly its effect, and changes nothing otherwise. */
  lemma CallRule(t: Table, call: Call)
    requires Forest(t)
    ensures Attempt(t, call).Ok? <==> Allowed(t, call)
    ensures if Allowed(t, call) then Effect(t, call, Step(t, call)) else Step(t, call) == t
  {
    match call
    case CallCreate(userId, dto, now) =>
      if dto.parentId.Some? {
        LiveIff(t, dto.parentId.value);
      }
    case CallUpdate(id, userId, content) => LiveIff(t, id);
    case CallRemove(id, userId) => LiveIff(t, id);
  }

  function Run(calls: seq<Call>): Table {
    if calls == [] then [] else Step(Run(calls[..|calls| - 1]), calls[|calls| - 1])
  }

  /** After any calls: rootId is null exactly for parentless comments and otherwise the topmost ancestor,
      parent chains are acyclic, and replyCount counts the live direct replies, of deleted parents too. */
  lemma {:induction false} RunKeepsForest(calls: seq<Call>)
    ensures Forest(Run(calls))
  {
    if calls != [] {
      RunKeepsForest(calls[..|calls| - 1]);
      var t := Run(calls[..|calls| - 1]);
      match calls[|calls| - 1] {
        case CallCreate(userId, dto, now) =>
          if Create(t, userId, dto, now).Ok? { CreateKeepsForest(t, userId, dto, now); }
        case CallUpdate(id, userId, content) =>
          if Update(t, id, userId, content).Ok? { UpdateKeepsForest(t, id, userId, content); }
        case CallRemove(id, userId) =>
          if Remove(t, id, userId).Ok? { RemoveKeepsForest(t, id, userId); }
      }
    }
  }

  /** A reply can be created exactly under a live comment; removing it again restores every counter. */
  lemma RemoveUndoesCreate(t: Table, userId: string, dto: CreateComment, now: int)
    requires Forest(t)
    ensures Create(t, userId, dto, now).Ok? <==> dto.parentId.None? || Live(t, dto.parentId.value)
    ensures Create(t, userId, dto, now).Ok? ==>
              var r := Remove(Create(t, userId, dto, now).value, |t|, userId);
              r.Ok? && r.value[..|t|] == t
  {
    if Create(t, userId, dto, now).Ok? {
      var u := Create(t, userId, dto, now).value;
      var r := Remove(u, |t|, userId);
      assert Live(u, |t|);
      if dto.parentId.Some? {
        var p := dto.parentId.value;
        assert r.value[p] == u[p].(replyCount := u[p].replyCount - 1);
      }
    }
  }
}
