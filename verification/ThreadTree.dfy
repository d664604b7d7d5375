/** What a thread of comments means: the tree of replies below a root, over any set of fetched rows. */
module ThreadTree {
  import opened Sequences
  import opened CommentForest

  datatype Tree = Node(comment: Comment, replies: seq<Tree>)

  /** Fetched rows: distinct, and older parents, as in the table they come from. */
  ghost predicate Fetched(rows: seq<Comment>) {
    && DistinctBy(rows, (c: Comment) => c.id)
    && forall c :: c in rows ==> c.parentId.Some? ==> c.parentId.value < c.id
  }

  function Children(rows: seq<Comment>, parent: nat): seq<Comment> {
    Filter(rows, (c: Comment) => c.parentId == Some(parent))
  }

  /** All ids lie below n; children lie strictly above their parent, so the tree is finite. */
  ghost predicate Below(rows: seq<Comment>, n: nat) {
    forall c :: c in rows ==> c.id < n
  }

  /** The thread below `c`: each node's children are the rows that name it, in fetch order. */
  function Thread(rows: seq<Comment>, n: nat, c: Comment): Tree
    requires Fetched(rows) && Below(rows, n) && c.id < n
    decreases n - c.id, 0
  {
    ChildrenAbove(rows, c.id);
    Node(c, Threads(rows, n, c.id + 1, Children(rows, c.id)))
  }

  function Threads(rows: seq<Comment>, n: nat, low: nat, cs: seq<Comment>): (ts: seq<Tree>)
    requires Fetched(rows) && Below(rows, n) && low <= n
    requires forall c :: c in cs ==> low <= c.id < n
    ensures |ts| == |cs|
    ensures forall i :: 0 <= i < |cs| ==> ts[i] == Thread(rows, n, cs[i])
    decreases n - low, 1 + |cs|
  {
    if cs == [] then []
    else
      assert cs[|cs| - 1] in cs;
      Threads(rows, n, low, cs[..|cs| - 1]) + [Thread(rows, n, cs[|cs| - 1])]
  }

  lemma ChildrenAbove(rows: seq<Comment>, parent: nat)
    requires Fetched(rows)
    ensures forall c :: c in Children(rows, parent) ==> c in rows && c.parentId == Some(parent) && c.id > parent
  {
    FilterMembers(rows, (c: Comment) => c.parentId == Some(parent));
  }

  /** Walking up from `c` through fetched rows leads to `top`. */
  ghost predicate Reaches(rows: seq<Comment>, top: nat, c: Comment)
    requires Fetched(rows)
    decreases c.id
  {
    c in rows && c.parentId.Some?
    && (c.parentId.value == top || exists p :: p in rows && p.id == c.parentId.value && Reaches(rows, top, p))
  }

  /** All comments of a tree, each node before its replies. */
  function Flatten(t: Tree): seq<Comment> {
    [t.comment] + FlattenAll(t.replies)
  }

  function FlattenAll(ts: seq<Tree>): seq<Comment> {
    if ts == [] then [] else FlattenAll(ts[..|ts| - 1]) + Flatten(ts[|ts| - 1])
  }

  // ---------------------------------------------------------------- reachability

  lemma {:induction false} ReachesUp(rows: seq<Comment>, top: nat, child: Comment, c: Comment)
    requires Fetched(rows) && child in rows && child.parentId == Some(top) && Reaches(rows, child.id, c)
    ensures Reaches(rows, top, c)
    decreases c.id
  {
    if c.parentId.value == child.id {
      assert Reaches(rows, top, child);
    } else {
      var p :| p in rows && p.id == c.parentId.value && Reaches(rows, child.id, p);
      ReachesUp(rows, top, child, p);
    }
  }

  lemma {:induction false} ReachesVia(rows: seq<Comment>, top: nat, c: Comment) returns (child: Comment)
    requires Fetched(rows) && Reaches(rows, top, c)
    ensures child in rows && child.parentId == Some(top)
    ensures child == c || Reaches(rows, child.id, c)
    decreases c.id
  {
    if c.parentId.value == top {
      child := c;
    } else {
      var p :| p in rows && p.id == c.parentId.value && Reaches(rows, top, p);
      child := ReachesVia(rows, top, p);
    }
  }

  lemma {:induction false} ReachesOlder(rows: seq<Comment>, top: nat, c: Comment)
    requires Fetched(rows) && Reaches(rows, top, c)
    ensures top < c.id
    decreases c.id
  {
    if c.parentId.value != top {
      var p :| p in rows && p.id == c.parentId.value && Reaches(rows, top, p);
      ReachesOlder(rows, top, p);
    }
  }

  lemma SameRow(rows: seq<Comment>, a: Comment, b: Comment)
    requires Fetched(rows) && a in rows && b in rows && a.id == b.id
    ensures a == b
  {
    var i :| 0 <= i < |rows| && rows[i] == a;
    var j :| 0 <= j < |rows| && rows[j] == b;
    var byId := (c: Comment) => c.id;
    assert byId(rows[i]) == byId(rows[j]);
  }

  /** Parent chains do not fork upwards: of two ancestors of a row one is an ancestor of the other. */
  lemma {:induction false} ChainLinear(rows: seq<Comment>, a: Comment, b: Comment, c: Comment)
    requires Fetched(rows) && a in rows && b in rows
    requires (a == c || Reaches(rows, a.id, c)) && (b == c || Reaches(rows, b.id, c))
    ensures a == b || Reaches(rows, a.id, b) || Reaches(rows, b.id, a)
    decreases c.id
  {
    if a != c && b != c {
      var parent := c.parentId.value;
      if parent == a.id || parent == b.id {
        if parent == a.id && parent == b.id {
          SameRow(rows, a, b);
        } else if parent == a.id {
          var p :| p in rows && p.id == parent && Reaches(rows, b.id, p);
          SameRow(rows, a, p);
        } else {
          var p :| p in rows && p.id == parent && Reaches(rows, a.id, p);
          SameRow(rows, b, p);
        }
      } else {
        var p :| p in rows && p.id == parent && Reaches(rows, a.id, p);
        var q :| q in rows && q.id == parent && Reaches(rows, b.id, q);
        SameRow(rows, p, q);
        ChainLinear(rows, a, b, p);
      }
    }
  }

  // ---------------------------------------------------------------- what the tree contains

  /** One of the trees holds the comment. */
  ghost predicate InSome(ts: seq<Tree>, c: Comment) {
    exists i :: 0 <= i < |ts| && c in Flatten(ts[i])
  }

  lemma {:induction false} FlattenAllMembers(ts: seq<Tree>, c: Comment)
    ensures c in FlattenAll(ts) <==> InSome(ts, c)
  {
    if ts != [] {
      var init, last := ts[..|ts| - 1], ts[|ts| - 1];
      FlattenAllMembers(init, c);
      InConcat(FlattenAll(init), Flatten(last), c);
      InOneOfMore(init, last, c);
      assert ts == init + [last];
    }
  }

  lemma InConcat(a: seq<Comment>, b: seq<Comment>, c: Comment)
    ensures c in a + b <==> c in a || c in b
  {
  }

  lemma InOneOfMore(init: seq<Tree>, last: Tree, c: Comment)
    ensures InSome(init + [last], c) <==> InSome(init, c) || c in Flatten(last)
  {
    var ts := init + [last];
    if i :| 0 <= i < |init| && c in Flatten(init[i]) {
      assert ts[i] == init[i];
    }
    if c in Flatten(last) {
      assert ts[|init|] == last;
    }
  }

  /** A comment is in the thread below `top` exactly if it is `top` or its parent chain through
      fetched rows reaches `top`. */
  lemma {:induction false} ThreadMembers(rows: seq<Comment>, n: nat, top: Comment, c: Comment)
    requires Fetched(rows) && Below(rows, n) && top.id < n
    ensures c in Flatten(Thread(rows, n, top)) <==> c == top || Reaches(rows, top.id, c)
    decreases n - top.id
  {
    ChildrenAbove(rows, top.id);
    var cs := Children(rows, top.id);
    var t := Thread(rows, n, top);
    assert |t.replies| == |cs|;
    FlattenAllMembers(t.replies, c);
    if c in FlattenAll(t.replies) {
      var i :| 0 <= i < |cs| && c in Flatten(t.replies[i]);
      assert cs[i] in cs;
      ThreadMembers(rows, n, cs[i], c);
      if c != cs[i] {
        ReachesUp(rows, top.id, cs[i], c);
      }
    }
    if Reaches(rows, top.id, c) {
      var child := ReachesVia(rows, top.id, c);
      FilterMembers(rows, (c: Comment) => c.parentId == Some(top.id));
      assert child in cs;
      var i :| 0 <= i < |cs| && cs[i] == child;
      ThreadMembers(rows, n, child, c);
      assert c in Flatten(t.replies[i]);
    }
  }

  ghost predicate Once(s: seq<Comment>) {
    forall i, j :: 0 <= i < j < |s| ==> s[i] != s[j]
  }

  /** Each comment appears once. */
  lemma {:induction false} ThreadOnce(rows: seq<Comment>, n: nat, top: Comment)
    requires Fetched(rows) && Below(rows, n) && top.id < n
    ensures Once(Flatten(Thread(rows, n, top)))
    decreases n - top.id, 0
  {
    ChildrenAbove(rows, top.id);
    var below := FlattenAll(Thread(rows, n, top).replies);
    DistinctFilter(rows, (c: Comment) => c.id, (c: Comment) => c.parentId == Some(top.id));
    ThreadsOnce(rows, n, top.id, Children(rows, top.id));
    if top in below {
      RepliesNewer(rows, n, top, top);
    }
    OnceConcat([top], below);
  }

  /** Everything below a comment is newer than it. */
  lemma RepliesNewer(rows: seq<Comment>, n: nat, top: Comment, c: Comment)
    requires Fetched(rows) && Below(rows, n) && top.id < n
    requires c in FlattenAll(Thread(rows, n, top).replies)
    ensures top.id < c.id
  {
    ChildrenAbove(rows, top.id);
    var cs, ts := Children(rows, top.id), Thread(rows, n, top).replies;
    FlattenAllMembers(ts, c);
    var k :| 0 <= k < |ts| && c in Flatten(ts[k]);
    assert cs[k] in cs;
    ThreadMembers(rows, n, cs[k], c);
    if c != cs[k] {
      ReachesOlder(rows, cs[k].id, c);
    }
  }

  lemma {:induction false} ThreadsOnce(rows: seq<Comment>, n: nat, parent: nat, cs: seq<Comment>)
    requires Fetched(rows) && Below(rows, n) && parent < n
    requires forall c :: c in cs ==> c in rows && c.parentId == Some(parent) && parent < c.id
    requires DistinctBy(cs, (c: Comment) => c.id)
    ensures Once(FlattenAll(Threads(rows, n, parent + 1, cs)))
    decreases n - parent, 0, |cs|
  {
    if cs != [] {
      var init, last := cs[..|cs| - 1], cs[|cs| - 1];
      assert last in cs;
      ThreadsOnce(rows, n, parent, init);
      ThreadOnce(rows, n, last);
      var byId := (c: Comment) => c.id;
      forall c | c in init
        ensures c in cs && c.id != last.id
      {
        var k :| 0 <= k < |init| && init[k] == c;
        assert byId(cs[k]) != byId(cs[|cs| - 1]);
      }
      LastThreadDisjoint(rows, n, parent, init, last);
      var ts := Threads(rows, n, parent + 1, cs);
      assert ts[..|cs| - 1] == Threads(rows, n, parent + 1, init);
      OnceConcat(FlattenAll(Threads(rows, n, parent + 1, init)), Flatten(Thread(rows, n, last)));
    }
  }

  lemma OnceConcat(a: seq<Comment>, b: seq<Comment>)
    requires Once(a) && Once(b) && forall c :: c in a ==> c !in b
    ensures Once(a + b)
  {
    forall i, j | 0 <= i < j < |a + b|
      ensures (a + b)[i] != (a + b)[j]
    {
      if i < |a| && j >= |a| {
        assert a[i] in a && b[j - |a|] in b;
      }
    }
  }

  /** A further sibling's thread shares nothing with the threads before it. */
  lemma LastThreadDisjoint(rows: seq<Comment>, n: nat, parent: nat, init: seq<Comment>, last: Comment)
    requires Fetched(rows) && Below(rows, n) && parent < n && last in rows && last.parentId == Some(parent)
    requires forall c :: c in init ==> c in rows && c.parentId == Some(parent) && parent < c.id && c.id != last.id
    ensures forall c :: c in FlattenAll(Threads(rows, n, parent + 1, init)) ==> c !in Flatten(Thread(rows, n, last))
  {
    var ts := Threads(rows, n, parent + 1, init);
    forall c | c in FlattenAll(ts)
      ensures c !in Flatten(Thread(rows, n, last))
    {
      FlattenAllMembers(ts, c);
      var k :| 0 <= k < |ts| && c in Flatten(ts[k]);
      assert init[k] in init;
      if c in Flatten(Thread(rows, n, last)) {
        SiblingsDisjoint(rows, n, parent, init[k], last, c);
      }
    }
  }

  lemma SiblingsDisjoint(rows: seq<Comment>, n: nat, parent: nat, a: Comment, b: Comment, c: Comment)
    requires Fetched(rows) && Below(rows, n) && a in rows && b in rows
    requires a.parentId == Some(parent) && b.parentId == Some(parent)
    requires c in Flatten(Thread(rows, n, a)) && c in Flatten(Thread(rows, n, b))
    ensures a == b
  {
    ThreadMembers(rows, n, a, c);
    ThreadMembers(rows, n, b, c);
    ChainLinear(rows, a, b, c);
    if a != b {
      NotUnderSibling(rows, a, b);
      NotUnderSibling(rows, b, a);
    }
  }

  lemma NotUnderSibling(rows: seq<Comment>, a: Comment, b: Comment)
    requires Fetched(rows) && a in rows && b in rows && a.parentId.Some? && a.parentId == b.parentId
    ensures !Reaches(rows, a.id, b)
  {
    if Reaches(rows, a.id, b) {
      if a.parentId.value != a.id {
        var p :| p in rows && p.id == b.parentId.value && Reaches(rows, a.id, p);
        ReachesOlder(rows, a.id, p);
      }
    }
  }

  // ---------------------------------------------------------------- a covering page loses nothing

  /** The live replies of a thread, as one page large enough fetches them. */
  ghost predicate Covers(t: Table, root: nat, rows: seq<Comment>) {
    forall c :: c in rows <==> c in t && c.rootId == Some(root) && c.id != root && !c.isDeleted
  }

  /** The reply's own parent is the root or not deleted. */
  predicate Attached(t: Table, root: nat, c: Comment) {
    c.parentId == Some(root) || (c.parentId.Some? && Live(t, c.parentId.value))
  }

  lemma {:induction false} EveryReplyReaches(t: Table, root: nat, rows: seq<Comment>, id: nat)
    requires Forest(t) && root < |t| && Fetched(rows) && Covers(t, root, rows)
    requires forall c :: c in rows ==> Attached(t, root, c)
    requires id < |t| && t[id] in rows
    ensures Reaches(rows, root, t[id])
    decreases id
  {
    assert Attached(t, root, t[id]);
    var p := t[id].parentId.value;
    assert Top(t, id) == root == Top(t, p) && p < id;
    if p != root {
      assert t[p] in t;
      assert t[p].parentId.Some?;
      assert t[p] in rows;
      EveryReplyReaches(t, root, rows, p);
    }
  }

  /** A reply to a deleted reply is cut off from the root. */
  lemma DetachedIsLost(t: Table, root: nat, rows: seq<Comment>, c: Comment)
    requires Forest(t) && Fetched(rows) && Covers(t, root, rows)
    requires c in rows && !Attached(t, root, c)
    ensures !Reaches(rows, root, c)
  {
    CoversBelow(t, root, rows);
    forall p | p in rows
      ensures Some(p.id) != c.parentId
    {
      assert t[p.id] == p && !p.isDeleted;
    }
  }

  lemma CoversBelow(t: Table, root: nat, rows: seq<Comment>)
    requires Forest(t) && Covers(t, root, rows)
    ensures Below(rows, |t|)
    ensures forall c :: c in rows ==> c.id < |t| && t[c.id] == c
  {
    forall c | c in rows
      ensures c.id < |t| && t[c.id] == c
    {
      var i :| 0 <= i < |t| && t[i] == c;
    }
  }

  /** Flatten without the node itself. */
  lemma RepliesFacts(rows: seq<Comment>, n: nat, top: Comment, c: Comment)
    requires Fetched(rows) && Below(rows, n) && top.id < n && top !in rows
    ensures Once(FlattenAll(Thread(rows, n, top).replies))
    ensures c in FlattenAll(Thread(rows, n, top).replies) <==> Reaches(rows, top.id, c)
  {
    var tree := Thread(rows, n, top);
    var below := FlattenAll(tree.replies);
    ThreadOnce(rows, n, top);
    OnceTail(top, below);
    ThreadMembers(rows, n, top, c);
    assert c in [top] + below <==> c == top || c in below;
    if Reaches(rows, top.id, c) {
      assert c != top;
    }
  }

  lemma OnceTail(c: Comment, s: seq<Comment>)
    requires Once([c] + s)
    ensures Once(s) && c !in s
  {
    forall i | 0 <= i < |s|
      ensures s[i] != c
      ensures forall j :: i < j < |s| ==> s[i] != s[j]
    {
      assert ([c] + s)[i + 1] == s[i] && ([c] + s)[0] == c;
      forall j | i < j < |s|
        ensures s[i] != s[j]
      {
        assert ([c] + s)[j + 1] == s[j];
      }
    }
  }

  /** For a covering page the tree is a rearrangement of all replies if and only if no reply answers a deleted
      reply. */
  lemma CompleteThreadIff(t: Table, root: nat, rows: seq<Comment>)
    requires Forest(t) && root < |t| && Fetched(rows) && Covers(t, root, rows)
    ensures Below(rows, |t|)
    ensures multiset(FlattenAll(Thread(rows, |t|, t[root]).replies)) == multiset(rows)
       <==> forall c :: c in rows ==> Attached(t, root, c)
  {
    CoversBelow(t, root, rows);
    if forall c :: c in rows ==> Attached(t, root, c) {
      AttachedComplete(t, root, rows);
    } else {
      var c :| c in rows && !Attached(t, root, c);
      DetachedIsLost(t, root, rows, c);
      RepliesFacts(rows, |t|, t[root], c);
      assert c in multiset(rows) && c !in multiset(FlattenAll(Thread(rows, |t|, t[root]).replies));
    }
  }

  lemma AttachedComplete(t: Table, root: nat, rows: seq<Comment>)
    requires Forest(t) && root < |t| && Fetched(rows) && Covers(t, root, rows) && Below(rows, |t|)
    requires forall c :: c in rows ==> Attached(t, root, c)
    ensures multiset(FlattenAll(Thread(rows, |t|, t[root]).replies)) == multiset(rows)
  {
    CoversBelow(t, root, rows);
    assert t[root] !in rows;
    var below := FlattenAll(Thread(rows, |t|, t[root]).replies);
    forall c
      ensures c in below <==> c in rows
    {
      RepliesFacts(rows, |t|, t[root], c);
      if c in rows {
        EveryReplyReaches(t, root, rows, c.id);
      }
    }
    RepliesFacts(rows, |t|, t[root], t[root]);
    RowsOnce(rows);
    SameMembersSameBag(below, rows);
  }

  /** In particular if none was ever deleted. */
  lemma CompleteThread(t: Table, root: nat, rows: seq<Comment>)
    requires Forest(t) && root < |t| && Fetched(rows) && Covers(t, root, rows)
    requires forall c :: c in t && c.rootId == Some(root) ==> !c.isDeleted
    ensures Below(rows, |t|)
    ensures multiset(FlattenAll(Thread(rows, |t|, t[root]).replies)) == multiset(rows)
  {
    CoversBelow(t, root, rows);
    forall c | c in rows
      ensures Attached(t, root, c)
    {
      ParentInThread(t, root, c.id);
    }
    CompleteThreadIff(t, root, rows);
  }

  /** A reply's parent is the root or another reply of the thread. */
  lemma ParentInThread(t: Table, root: nat, id: nat)
    requires Forest(t) && root < |t| && id < |t| && t[id].rootId == Some(root) && id != root
    ensures t[id].parentId.Some? && t[id].parentId.value < |t|
    ensures var p := t[id].parentId.value; p == root || (t[p] in t && t[p].rootId == Some(root))
  {
    var p := t[id].parentId.value;
    assert Top(t, id) == root == Top(t, p) && p < id;
    if p != root {
      assert t[p].parentId.Some?;
    }
  }

  lemma RowsOnce(rows: seq<Comment>)
    requires Fetched(rows)
    ensures Once(rows)
  {
    var byId := (c: Comment) => c.id;
    forall i, j | 0 <= i < j < |rows|
      ensures rows[i] != rows[j]
    {
      assert byId(rows[i]) != byId(rows[j]);
    }
  }

  lemma {:induction false} OnceCount(s: seq<Comment>, c: Comment)
    requires Once(s)
    ensures multiset(s)[c] == if c in s then 1 else 0
  {
    if s != [] {
      var init := s[..|s| - 1];
      OnceCount(init, c);
      assert s == init + [s[|s| - 1]];
    }
  }

  lemma SameMembersSameBag(a: seq<Comment>, b: seq<Comment>)
    requires Once(a) && Once(b)
    requires forall c :: c in a <==> c in b
    ensures multiset(a) == multiset(b)
  {
    forall c
      ensures multiset(a)[c] == multiset(b)[c]
    {
      OnceCount(a, c);
      OnceCount(b, c);
    }
  }
}
