/** The comment service: the three writing calls over the table, and the two-pass builder that links
    response objects into a thread. */
module CommentService {
  import opened Sequences
  import opened CommentForest
  import opened ThreadTree

  /** A response object; `replies` is filled in after the object is already shared. */
  class CommentDto {
    const comment: Comment
    var replies: seq<CommentDto>

    constructor (comment: Comment)
      ensures this.comment == comment && replies == []
    {
      this.comment := comment;
      replies := [];
    }
  }

  type Dtos = map<nat, CommentDto>

  /** One object per fetched row, found under the row's id. */
  ghost predicate ObjectPerRow(rows: seq<Comment>, dtos: Dtos) {
    && (forall c :: c in rows ==> c.id in dtos)
    && (forall id :: id in dtos ==> dtos[id].comment.id == id && dtos[id].comment in rows)
  }

  /** `objects` are the objects of the rows `cs`, in the same order. */
  ghost predicate Lists(objects: seq<CommentDto>, dtos: Dtos, cs: seq<Comment>) {
    |objects| == |cs| && forall i :: 0 <= i < |cs| ==> cs[i].id in dtos && objects[i] == dtos[cs[i].id]
  }

  /** Every object, the root's included, lists the objects of exactly its children among `done`. */
  ghost predicate Linked(done: seq<Comment>, dtos: Dtos, root: CommentDto)
    reads root, dtos.Values
  {
    && Lists(root.replies, dtos, Children(done, root.comment.id))
    && forall id :: id in dtos ==> Lists(dtos[id].replies, dtos, Children(done, id))
  }

  lemma ChildrenStep(done: seq<Comment>, reply: Comment, id: nat)
    ensures Children(done + [reply], id)
         == if reply.parentId == Some(id) then Children(done, id) + [reply] else Children(done, id)
  {
    FilterSnoc(done, reply, (c: Comment) => c.parentId == Some(id));
  }

  /** One more row: only its parent's list grows. */
  lemma ListsStep(before: seq<CommentDto>, after: seq<CommentDto>, dtos: Dtos, done: seq<Comment>, reply: Comment,
                  id: nat)
    requires Lists(before, dtos, Children(done, id)) && reply.id in dtos
    requires after == if reply.parentId == Some(id) then before + [dtos[reply.id]] else before
    ensures Lists(after, dtos, Children(done + [reply], id))
  {
    ChildrenStep(done, reply, id);
  }

  /** First pass: an object per row, with no replies yet. */
  method CreateDtos(rows: seq<Comment>) returns (replyMap: Dtos)
    requires Fetched(rows)
    ensures ObjectPerRow(rows, replyMap)
    ensures forall id :: id in replyMap ==> replyMap[id].replies == [] && fresh(replyMap[id])
  {
    replyMap := map[];
    for i := 0 to |rows|
      invariant ObjectPerRow(rows[..i], replyMap)
      invariant forall id :: id in replyMap ==> replyMap[id].replies == [] && fresh(replyMap[id])
    {
      var replyDto := new CommentDto(rows[i]);
      assert rows[..i + 1] == rows[..i] + [rows[i]];
      replyMap := replyMap[rows[i].id := replyDto];
    }
    assert rows[..|rows|] == rows;
  }

  /** Second pass, one row: its object is pushed onto its parent's list, if the parent was fetched. */
  method LinkReply(rows: seq<Comment>, ghost done: seq<Comment>, reply: Comment, replyMap: Dtos, rootDto: CommentDto)
    requires ObjectPerRow(rows, replyMap) && reply in rows && rootDto.comment.id !in replyMap
    requires Linked(done, replyMap, rootDto)
    modifies rootDto, replyMap.Values
    ensures Linked(done + [reply], replyMap, rootDto)
  {
    if reply.parentId == Some(rootDto.comment.id) {
      rootDto.replies := rootDto.replies + [replyMap[reply.id]];
    } else if reply.parentId.Some? && reply.parentId.value in replyMap {
      var parent := replyMap[reply.parentId.value];
      parent.replies := parent.replies + [replyMap[reply.id]];
    }
    assert forall id :: id in replyMap ==> replyMap[id].comment.id == id;
    forall id | id in replyMap
      ensures Lists(replyMap[id].replies, replyMap, Children(done + [reply], id))
    {
      assert replyMap[id] != rootDto;
      ListsStep(old(replyMap[id].replies), replyMap[id].replies, replyMap, done, reply, id);
    }
    ListsStep(old(rootDto.replies), rootDto.replies, replyMap, done, reply, rootDto.comment.id);
  }

  method BuildThread(rootComment: Comment, rows: seq<Comment>) returns (rootDto: CommentDto, replyMap: Dtos)
    requires Fetched(rows) && forall c :: c in rows ==> c.id != rootComment.id
    ensures rootDto.comment == rootComment
    ensures ObjectPerRow(rows, replyMap) && fresh(rootDto)
    ensures Linked(rows, replyMap, rootDto)
  {
    rootDto := new CommentDto(rootComment);
    replyMap := CreateDtos(rows);
    assert forall d :: d in replyMap.Values ==> fresh(d);
    for i := 0 to |rows|
      invariant Linked(rows[..i], replyMap, rootDto)
    {
      assert rows[..i + 1] == rows[..i] + [rows[i]];
      LinkReply(rows, rows[..i], rows[i], replyMap, rootDto);
    }
    assert rows[..|rows|] == rows;
  }

  // ---------------------------------------------------------------- the linked objects are the thread

  /** Replies are newer than what they answer, so following them ends. */
  ghost predicate Newer(replies: seq<CommentDto>, dtos: Dtos, low: nat, n: nat) {
    forall r :: r in replies ==> r in dtos.Values && low < r.comment.id < n
  }

  ghost predicate AllNewer(dtos: Dtos, n: nat)
    reads dtos.Values
  {
    forall d :: d in dtos.Values ==> Newer(d.replies, dtos, d.comment.id, n)
  }

  /** The tree that reading the shared objects from `d` downwards yields. */
  ghost function Unfold(d: CommentDto, dtos: Dtos, n: nat): Tree
    requires AllNewer(dtos, n) && d.comment.id < n && Newer(d.replies, dtos, d.comment.id, n)
    reads d, dtos.Values
    decreases n - d.comment.id, 0
  {
    Node(d.comment, UnfoldAll(d.replies, dtos, d.comment.id, n))
  }

  ghost function UnfoldAll(ds: seq<CommentDto>, dtos: Dtos, low: nat, n: nat): (ts: seq<Tree>)
    requires AllNewer(dtos, n) && low < n && Newer(ds, dtos, low, n)
    reads dtos.Values
    ensures |ts| == |ds|
    decreases n - low - 1, 1 + |ds|
  {
    if ds == [] then []
    else
      assert ds[|ds| - 1] in ds;
      UnfoldAll(ds[..|ds| - 1], dtos, low, n) + [Unfold(ds[|ds| - 1], dtos, n)]
  }

  lemma LinkedNewer(rows: seq<Comment>, dtos: Dtos, root: CommentDto, n: nat)
    requires Fetched(rows) && Below(rows, n) && ObjectPerRow(rows, dtos) && Linked(rows, dtos, root)
    ensures AllNewer(dtos, n) && Newer(root.replies, dtos, root.comment.id, n)
  {
    forall d | d in dtos.Values + {root}
      ensures Newer(d.replies, dtos, d.comment.id, n)
    {
      ChildrenAbove(rows, d.comment.id);
      var cs := Children(rows, d.comment.id);
      forall r | r in d.replies
        ensures r in dtos.Values && d.comment.id < r.comment.id < n
      {
        var i :| 0 <= i < |cs| && d.replies[i] == r;
        assert cs[i] in cs && r == dtos[cs[i].id];
      }
    }
  }

  lemma RowOfDto(rows: seq<Comment>, dtos: Dtos, c: Comment)
    requires Fetched(rows) && ObjectPerRow(rows, dtos) && c in rows
    ensures dtos[c.id].comment == c
  {
    SameRow(rows, dtos[c.id].comment, c);
  }

  /** The pointer structure the two passes build is the recursive thread. */
  lemma {:induction false} UnfoldIsThread(rows: seq<Comment>, dtos: Dtos, root: CommentDto, n: nat, d: CommentDto)
    requires Fetched(rows) && Below(rows, n) && ObjectPerRow(rows, dtos) && Linked(rows, dtos, root)
    requires AllNewer(dtos, n) && Newer(root.replies, dtos, root.comment.id, n)
    requires d == root || d in dtos.Values
    requires d.comment.id < n
    ensures Unfold(d, dtos, n) == Thread(rows, n, d.comment)
    decreases n - d.comment.id, 1
  {
    RepliesUnfold(rows, dtos, root, n, d);
  }

  /** The same one level down: an object's replies unfold to the threads of its children. */
  lemma {:induction false} RepliesUnfold(rows: seq<Comment>, dtos: Dtos, root: CommentDto, n: nat, d: CommentDto)
    requires Fetched(rows) && Below(rows, n) && ObjectPerRow(rows, dtos) && Linked(rows, dtos, root)
    requires AllNewer(dtos, n) && Newer(root.replies, dtos, root.comment.id, n)
    requires d == root || d in dtos.Values
    requires d.comment.id < n
    ensures Newer(d.replies, dtos, d.comment.id, n)
    ensures forall c :: c in Children(rows, d.comment.id) ==> d.comment.id + 1 <= c.id < n
    ensures UnfoldAll(d.replies, dtos, d.comment.id, n)
         == Threads(rows, n, d.comment.id + 1, Children(rows, d.comment.id))
    decreases n - d.comment.id, 0
  {
    ChildrenAbove(rows, d.comment.id);
    RepliesAreChildren(rows, dtos, root, n, d);
    UnfoldAllIsThreads(rows, dtos, root, n, d.comment.id, d.replies, Children(rows, d.comment.id));
  }

  lemma RepliesAreChildren(rows: seq<Comment>, dtos: Dtos, root: CommentDto, n: nat, d: CommentDto)
    requires ObjectPerRow(rows, dtos) && Linked(rows, dtos, root)
    requires AllNewer(dtos, n) && Newer(root.replies, dtos, root.comment.id, n)
    requires d == root || d in dtos.Values
    ensures Lists(d.replies, dtos, Children(rows, d.comment.id))
    ensures Newer(d.replies, dtos, d.comment.id, n)
  {
    if d != root {
      var id :| id in dtos && dtos[id] == d;
    }
  }

  lemma {:induction false} UnfoldAllIsThreads(rows: seq<Comment>, dtos: Dtos, root: CommentDto, n: nat, low: nat,
                                              ds: seq<CommentDto>, cs: seq<Comment>)
    requires Fetched(rows) && Below(rows, n) && ObjectPerRow(rows, dtos) && Linked(rows, dtos, root)
    requires AllNewer(dtos, n) && Newer(root.replies, dtos, root.comment.id, n)
    requires low < n && Newer(ds, dtos, low, n) && Lists(ds, dtos, cs)
    requires forall c :: c in cs ==> c in rows && low < c.id
    ensures UnfoldAll(ds, dtos, low, n) == Threads(rows, n, low + 1, cs)
    decreases n - low - 1, 1 + |ds|
  {
    if ds != [] {
      var d, c := ds[|ds| - 1], cs[|cs| - 1];
      assert d in ds && c in cs;
      RowOfDto(rows, dtos, c);
      UnfoldIsThread(rows, dtos, root, n, d);
      UnfoldAllIsThreads(rows, dtos, root, n, low, ds[..|ds| - 1], cs[..|cs| - 1]);
    }
  }

  // ---------------------------------------------------------------- the service

  function Min(a: nat, b: nat): nat {
    if a <= b then a else b
  }

  predicate IsReplyIn(rootId: nat, c: Comment) {
    c.rootId == Some(rootId) && c.id != rootId && !c.isDeleted
  }

  /** All live replies of the root, oldest first. */
  function AllReplies(t: Table, rootId: nat): seq<Comment> {
    SortBy(Filter(t, (c: Comment) => IsReplyIn(rootId, c)), (a: Comment, b: Comment) => a.createdAt < b.createdAt)
  }

  /** The rows one page of a thread is built from. */
  function ThreadPage(t: Table, rootId: nat, page: nat, limit: nat): seq<Comment>
    requires page >= 1
  {
    Slice(AllReplies(t, rootId), page, limit)
  }

  /** OFFSET and LIMIT. */
  function Slice(found: seq<Comment>, page: nat, limit: nat): (rows: seq<Comment>)
    requires page >= 1
    ensures forall c :: c in rows ==> c in found
    ensures page == 1 && limit >= |found| ==> rows == found
  {
    var skip := (page - 1) * limit;
    found[Min(skip, |found|)..Min(skip + limit, |found|)]
  }

  ghost predicate OldestFirst(cs: seq<Comment>) {
    forall i, j :: 0 <= i < j < |cs| ==> cs[i].createdAt <= cs[j].createdAt
  }

  /** Some list of exactly the thread's live replies, each once and oldest first, of which `rows` shows the `limit`
      that follow the earlier pages. */
  ghost predicate IsThreadPage(t: Table, rootId: nat, page: nat, limit: nat, rows: seq<Comment>) {
    exists all :: ListsThread(t, rootId, all) && Shows(rows, all, (page - 1) * limit, limit)
  }

  ghost predicate ListsThread(t: Table, rootId: nat, all: seq<Comment>) {
    && (forall c :: c in all <==> c in t && c.rootId == Some(rootId) && c.id != rootId && !c.isDeleted)
    && DistinctBy(all, (c: Comment) => c.id)
    && OldestFirst(all)
  }

  /** At most `limit` rows, starting behind the first `skip`, and fewer only at the end. */
  ghost predicate Shows(rows: seq<Comment>, all: seq<Comment>, skip: int, limit: nat) {
    && |rows| == (if skip >= |all| then 0 else if |all| - skip <= limit then |all| - skip else limit)
    && forall i :: 0 <= i < |rows| ==> 0 <= skip + i < |all| && rows[i] == all[skip + i]
  }

  lemma AllRepliesFacts(t: Table, rootId: nat)
    requires Forest(t)
    ensures ListsThread(t, rootId, AllReplies(t, rootId))
    ensures |AllReplies(t, rootId)| <= |t|
  {
    var byId := (c: Comment) => c.id;
    var keep := (c: Comment) => IsReplyIn(rootId, c);
    var older := (a: Comment, b: Comment) => a.createdAt < b.createdAt;
    assert DistinctBy(t, byId);
    DistinctFilter(t, byId, keep);
    DistinctSort(Filter(t, keep), older, byId);
    FilterMembers(t, keep);
    SortMembers(Filter(t, keep), older);
    SortSorted(Filter(t, keep), older);
    var all := AllReplies(t, rootId);
    forall i, j | 0 <= i < j < |all|
      ensures all[i].createdAt <= all[j].createdAt
    {
      assert !older(all[j], all[i]);
    }
  }

  lemma SliceShows(found: seq<Comment>, page: nat, limit: nat)
    requires page >= 1
    ensures Shows(Slice(found, page, limit), found, (page - 1) * limit, limit)
  {
    var skip := (page - 1) * limit;
    assert skip >= 0;
  }

  lemma ShownOldestFirst(rows: seq<Comment>, all: seq<Comment>, skip: int, limit: nat)
    requires Shows(rows, all, skip, limit) && OldestFirst(all)
    ensures OldestFirst(rows)
  {
  }

  lemma SliceFacts(t: Table, found: seq<Comment>, page: nat, limit: nat)
    requires Forest(t) && page >= 1
    requires DistinctBy(found, (c: Comment) => c.id) && forall c :: c in found ==> c in t
    ensures Fetched(Slice(found, page, limit)) && Below(Slice(found, page, limit), |t|)
  {
    var byId := (c: Comment) => c.id;
    var rows := Slice(found, page, limit);
    var lo := Min((page - 1) * limit, |found|);
    forall i, j | 0 <= i < j < |rows|
      ensures byId(rows[i]) != byId(rows[j])
    {
      assert byId(found[lo + i]) != byId(found[lo + j]);
    }
    forall c | c in rows
      ensures c.id < |t| && (c.parentId.Some? ==> c.parentId.value < c.id)
    {
      var i :| 0 <= i < |t| && t[i] == c;
    }
  }

  lemma ThreadPageFacts(t: Table, rootId: nat, page: nat, limit: nat)
    requires Forest(t) && page >= 1
    ensures var rows := ThreadPage(t, rootId, page, limit);
            && Fetched(rows) && Below(rows, |t|)
            && IsThreadPage(t, rootId, page, limit, rows) && OldestFirst(rows)
            && (page == 1 && limit >= |AllReplies(t, rootId)| ==> Covers(t, rootId, rows))
  {
    var all := AllReplies(t, rootId);
    AllRepliesFacts(t, rootId);
    SliceFacts(t, all, page, limit);
    SliceShows(all, page, limit);
    ShownOldestFirst(ThreadPage(t, rootId, page, limit), all, (page - 1) * limit, limit);
  }

  /** Every object lists its replies oldest first. */
  ghost predicate RepliesOldestFirst(root: CommentDto, dtos: Dtos)
    reads root, dtos.Values
  {
    DtosOldestFirst(root.replies) && forall id :: id in dtos ==> DtosOldestFirst(dtos[id].replies)
  }

  ghost predicate DtosOldestFirst(ds: seq<CommentDto>) {
    forall i, j :: 0 <= i < j < |ds| ==> ds[i].comment.createdAt <= ds[j].comment.createdAt
  }

  lemma SiblingsOldestFirst(rows: seq<Comment>, dtos: Dtos, root: CommentDto)
    requires Fetched(rows) && ObjectPerRow(rows, dtos) && Linked(rows, dtos, root) && OldestFirst(rows)
    ensures RepliesOldestFirst(root, dtos)
  {
    ChildrenOldestFirst(rows, dtos, root.replies, root.comment.id);
    forall id | id in dtos
      ensures DtosOldestFirst(dtos[id].replies)
    {
      ChildrenOldestFirst(rows, dtos, dtos[id].replies, id);
    }
  }

  lemma ChildrenOldestFirst(rows: seq<Comment>, dtos: Dtos, ds: seq<CommentDto>, id: nat)
    requires Fetched(rows) && ObjectPerRow(rows, dtos) && OldestFirst(rows) && Lists(ds, dtos, Children(rows, id))
    ensures DtosOldestFirst(ds)
  {
    var cs := Children(rows, id);
    FilterPairs(rows, (c: Comment) => c.parentId == Some(id), (a: Comment, b: Comment) => a.createdAt <= b.createdAt);
    FilterMembers(rows, (c: Comment) => c.parentId == Some(id));
    forall i | 0 <= i < |cs|
      ensures ds[i].comment == cs[i]
    {
      assert cs[i] in cs;
      RowOfDto(rows, dtos, cs[i]);
    }
  }

  class Service {
    var comments: Table

    method CreateComment(userId: string, dto: CreateComment, now: int) returns (r: Result<Comment, CommentError>)
      requires Forest(comments)
      modifies this
      ensures comments == Step(old(comments), CallCreate(userId, dto, now)) && Forest(comments)
      ensures r.Ok? <==> Allowed(old(comments), CallCreate(userId, dto, now))
      ensures if r.Ok? then Effect(old(comments), CallCreate(userId, dto, now), comments)
              else comments == old(comments) && r.error == ParentNotFound
      ensures r.Ok? ==> r.value == comments[|old(comments)|]
    {
      CallRule(comments, CallCreate(userId, dto, now));
      CreateIfOk(comments, userId, dto, now);
      var rootId := None;
      if dto.parentId.Some? {
        var parentId := dto.parentId.value;
        if !Live(comments, parentId) {
          return Err(ParentNotFound);
        }
        var parent := comments[parentId];
        rootId := if parent.rootId.Some? then parent.rootId else Some(parent.id);
        comments := comments[parentId := parent.(replyCount := parent.replyCount + 1)];
      }
      var saved := Comment(|comments|, dto.contentId, dto.contentType, userId, dto.content, dto.parentId, rootId, 0,
                           false, now);
      comments := comments + [saved];
      return Ok(saved);
    }

    lemma CreateIfOk(t: Table, userId: string, dto: CreateComment, now: int)
      requires Forest(t)
      ensures Create(t, userId, dto, now).Ok? ==> Forest(Create(t, userId, dto, now).value)
    {
      if Create(t, userId, dto, now).Ok? {
        CreateKeepsForest(t, userId, dto, now);
      }
    }

    method UpdateComment(id: nat, userId: string, content: string) returns (r: Result<Comment, CommentError>)
      requires Forest(comments)
      modifies this
      ensures comments == Step(old(comments), CallUpdate(id, userId, content)) && Forest(comments)
      ensures r.Ok? <==> Allowed(old(comments), CallUpdate(id, userId, content))
      ensures if r.Ok? then Effect(old(comments), CallUpdate(id, userId, content), comments)
              else comments == old(comments) && r.error == NotFoundOrNotYours
      ensures r.Ok? ==> id < |comments| && r.value == comments[id]
    {
      CallRule(comments, CallUpdate(id, userId, content));
      if !(Live(comments, id) && comments[id].creatorId == userId) {
        return Err(NotFoundOrNotYours);
      }
      UpdateKeepsForest(comments, id, userId, content);
      var updated := comments[id].(content := content);
      comments := comments[id := updated];
      return Ok(updated);
    }

    method RemoveComment(id: nat, userId: string) returns (r: Result<(), CommentError>)
      requires Forest(comments)
      modifies this
      ensures comments == Step(old(comments), CallRemove(id, userId)) && Forest(comments)
      ensures r.Ok? <==> Allowed(old(comments), CallRemove(id, userId))
      ensures if r.Ok? then Effect(old(comments), CallRemove(id, userId), comments)
              else comments == old(comments) && r.error == NotFoundOrNotYours
    {
      CallRule(comments, CallRemove(id, userId));
      if !(Live(comments, id) && comments[id].creatorId == userId) {
        return Err(NotFoundOrNotYours);
      }
      RemoveKeepsForest(comments, id, userId);
      var comment := comments[id];
      comments := comments[id := comment.(isDeleted := true)];
      if comment.parentId.Some? {
        var parent := comments[comment.parentId.value];
        comments := comments[comment.parentId.value := parent.(replyCount := parent.replyCount - 1)];
      }
      return Ok(());
    }

    /** The answer's objects, read downwards from the root, are the thread of the fetched page. */
    method GetThreadedComments(rootId: nat, page: nat, limit: nat)
      returns (r: Result<CommentDto, CommentError>, ghost dtos: Dtos)
      requires Forest(comments)
      ensures r.Err? <==> !Live(comments, rootId) || page == 0
      ensures r.Ok? ==>
                var rows := ThreadPage(comments, rootId, page, limit);
                && Fetched(rows) && Below(rows, |comments|)
                && IsThreadPage(comments, rootId, page, limit, rows)
                && r.value.comment == comments[rootId]
                && RepliesOldestFirst(r.value, dtos)
                && AllNewer(dtos, |comments|) && Newer(r.value.replies, dtos, rootId, |comments|)
                && Unfold(r.value, dtos, |comments|) == Thread(rows, |comments|, comments[rootId])
    {
      dtos := map[];
      if !Live(comments, rootId) {
        r := Err(CommentNotFound);
        return;
      }
      if page == 0 {
        r := Err(InvalidPage);
        return;
      }
      var rows := ThreadPage(comments, rootId, page, limit);
      ThreadPageFacts(comments, rootId, page, limit);
      var rootDto, replyMap := BuildThread(comments[rootId], rows);
      dtos := replyMap;
      LinkedNewer(rows, dtos, rootDto, |comments|);
      UnfoldIsThread(rows, dtos, rootDto, |comments|, rootDto);
      SiblingsOldestFirst(rows, dtos, rootDto);
      r := Ok(rootDto);
    }
  }
}
