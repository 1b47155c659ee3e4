/** When the SQL function subtree (migrations/20230305040305_init.up.sql:98-117) comes to an end: its recursion goes
    from a node to its children, so it is a matter of circles of parent links. */
module Circles {
  import opened Defs
  import opened Ids
  import opened Upserts
  import opened Paths
  import opened Batches
  import opened Payloads
  import opened Store
  import opened Protocol
  import opened Dag
  import opened EndToEnd

  function ChildIds(nodes: Table<StackNode>, k: I64): set<I64> {
    set c | c in nodes && nodes[c].parent_id == Some(k)
  }

  /** The recursion from a node ends after fewer than n levels of calls. */
  predicate EndsWithin(nodes: Table<StackNode>, k: I64, n: nat)
    decreases n
  {
    n > 0 && (k in nodes ==> forall c :: c in ChildIds(nodes, k) ==> EndsWithin(nodes, c, n - 1))
  }

  ghost predicate Ends(nodes: Table<StackNode>, k: I64) {
    exists n: nat :: EndsWithin(nodes, k, n)
  }

  /** There are exactly n levels of calls. */
  ghost predicate HasLevels(nodes: Table<StackNode>, k: I64, n: nat) {
    EndsWithin(nodes, k, n) && forall m: nat :: m < n ==> !EndsWithin(nodes, k, m)
  }

  lemma {:induction false} LevelsExist(nodes: Table<StackNode>, k: I64, n: nat)
    requires EndsWithin(nodes, k, n)
    ensures exists m: nat :: HasLevels(nodes, k, m)
    decreases n
  {
    if m: nat :| m < n && EndsWithin(nodes, k, m) {
      LevelsExist(nodes, k, m);
    } else {
      assert HasLevels(nodes, k, n);
    }
  }

  ghost function Levels(nodes: Table<StackNode>, k: I64): (n: nat)
    requires Ends(nodes, k)
    ensures HasLevels(nodes, k, n)
  {
    var most: nat :| EndsWithin(nodes, k, most);
    LevelsExist(nodes, k, most);
    var n: nat :| HasLevels(nodes, k, n);
    n
  }

  lemma ChildEnds(nodes: Table<StackNode>, k: I64, c: I64)
    requires k in nodes && Ends(nodes, k) && c in ChildIds(nodes, k)
    ensures Ends(nodes, c) && Levels(nodes, c) < Levels(nodes, k)
  {
    assert EndsWithin(nodes, c, Levels(nodes, k) - 1);
  }

  /** Below a root it ends: every step down adds one to the depth, which stays below the number of nodes. */
  lemma {:induction false} RootedEnds(nodes: Table<StackNode>, k: I64)
    requires Rooted(nodes, k)
    ensures DepthOf(nodes, k) < |nodes| && EndsWithin(nodes, k, |nodes| - DepthOf(nodes, k))
    decreases |nodes| - DepthOf(nodes, k)
  {
    DepthBounded(nodes, k, DepthOf(nodes, k));
    forall c | c in ChildIds(nodes, k) ensures EndsWithin(nodes, c, |nodes| - DepthOf(nodes, k) - 1) {
      BelowRooted(nodes, k, c);
      RootedEnds(nodes, c);
    }
  }

  // ----- Exactly when it ends -----

  /** n parent steps lead from k to a. */
  predicate LeadsUp(nodes: Table<StackNode>, k: I64, n: nat, a: I64)
    decreases n
  {
    if n == 0 then k == a
    else k in nodes && nodes[k].parent_id.Some? && LeadsUp(nodes, nodes[k].parent_id.value, n - 1, a)
  }

  /** The node is on a circle of parent links. */
  ghost predicate OwnAncestor(nodes: Table<StackNode>, k: I64) {
    exists n: nat :: n > 0 && LeadsUp(nodes, k, n, k)
  }

  /** What is called from a node has fewer levels left. */
  lemma {:induction false} EndsBelow(nodes: Table<StackNode>, a: I64, b: I64, n: nat, m: nat)
    requires a in nodes && EndsWithin(nodes, a, m) && LeadsUp(nodes, b, n, a)
    ensures n <= m && EndsWithin(nodes, b, m - n)
    decreases n
  {
    if n > 0 {
      var p := nodes[b].parent_id.value;
      EndsBelow(nodes, a, p, n - 1, m);
      assert b in ChildIds(nodes, p);
    }
  }

  /** Round a circle the levels never run out. */
  lemma {:induction false} CircleNeverEnds(nodes: Table<StackNode>, k: I64, n: nat, m: nat)
    requires n > 0 && LeadsUp(nodes, k, n, k)
    ensures !EndsWithin(nodes, k, m)
    decreases m
  {
    if EndsWithin(nodes, k, m) {
      EndsBelow(nodes, k, k, n, m);
      CircleNeverEnds(nodes, k, n, m - n);
    }
  }

  /** Different nodes, each the parent of the next. */
  ghost predicate Descent(nodes: Table<StackNode>, path: seq<I64>) {
    && path != []
    && (forall i :: 0 <= i < |path| ==> path[i] in nodes)
    && (forall i :: 0 < i < |path| ==> nodes[path[i]].parent_id == Some(path[i - 1]))
    && (forall i, j :: 0 <= i < j < |path| ==> path[i] != path[j])
  }

  lemma {:induction false} DescentLeadsUp(nodes: Table<StackNode>, path: seq<I64>, i: nat)
    requires Descent(nodes, path) && i < |path|
    ensures LeadsUp(nodes, path[i], i, path[0])
  {
    if i > 0 {
      DescentLeadsUp(nodes, path, i - 1);
    }
  }

  lemma {:induction false} OneStepMoreUp(nodes: Table<StackNode>, k: I64, n: nat, a: I64)
    requires LeadsUp(nodes, k, n, a) && a in nodes && nodes[a].parent_id.Some?
    ensures LeadsUp(nodes, k, n + 1, nodes[a].parent_id.value)
    decreases n
  {
    if n > 0 {
      OneStepMoreUp(nodes, nodes[k].parent_id.value, n - 1, a);
    }
  }

  lemma {:induction false} DescentSize(nodes: Table<StackNode>, path: seq<I64>)
    requires Descent(nodes, path)
    ensures |path| <= |nodes|
  {
    var passed := set i | 0 <= i < |path| :: path[i];
    DistinctCount(path);
    SubsetSize(passed, nodes.Keys);
    assert |nodes| == |nodes.Keys|;
  }

  lemma {:induction false} DistinctCount(path: seq<I64>)
    requires forall i, j :: 0 <= i < j < |path| ==> path[i] != path[j]
    ensures |set i | 0 <= i < |path| :: path[i]| == |path|
  {
    if path != [] {
      var n := |path| - 1;
      DistinctCount(path[..n]);
      var rest := set i | 0 <= i < n :: path[i];
      assert rest == set i | 0 <= i < n :: path[..n][i];
      assert (set i | 0 <= i < |path| :: path[i]) == rest + {path[n]};
    }
  }

  /** Going down from a node that is not on a circle, no node is met twice. */
  lemma {:induction false} DescentGoesOn(nodes: Table<StackNode>, path: seq<I64>, c: I64)
    requires Descent(nodes, path) && !OwnAncestor(nodes, path[0]) && c in ChildIds(nodes, path[|path| - 1])
    ensures Descent(nodes, path + [c])
  {
    var n := |path| - 1;
    DescentLeadsUp(nodes, path, n);
    assert LeadsUp(nodes, c, n + 1, path[0]);
    assert c != path[0];
    forall i | 0 < i < |path| ensures path[i] != c {
      assert nodes[path[i]].parent_id == Some(path[i - 1]);
    }
  }

  lemma {:induction false} DescentEnds(nodes: Table<StackNode>, path: seq<I64>)
    requires Descent(nodes, path) && !OwnAncestor(nodes, path[0])
    ensures |path| <= |nodes| && EndsWithin(nodes, path[|path| - 1], |nodes| + 1 - |path|)
    decreases |nodes| - |path|
  {
    DescentSize(nodes, path);
    var last, levels := path[|path| - 1], |nodes| - |path|;
    forall c | c in ChildIds(nodes, last) ensures EndsWithin(nodes, c, levels) {
      DescentGoesOn(nodes, path, c);
      DescentSize(nodes, path + [c]);
      DescentEnds(nodes, path + [c]);
    }
  }

  /** Whatever the nodes: subtree ends exactly on those that are not on a circle, even if it is called above or below
      one. */
  lemma {:induction false} SubtreeEndsExactly(nodes: Table<StackNode>, k: I64)
    ensures Ends(nodes, k) <==> !OwnAncestor(nodes, k)
  {
    if OwnAncestor(nodes, k) {
      var n: nat :| n > 0 && LeadsUp(nodes, k, n, k);
      forall m: nat ensures !EndsWithin(nodes, k, m) {
        CircleNeverEnds(nodes, k, n, m);
      }
    } else if k in nodes {
      DescentEnds(nodes, [k]);
    } else {
      assert EndsWithin(nodes, k, 1);
    }
  }

  /** Climbing from a node, no circle is met, so a root is. */
  lemma {:induction false} ClimbRooted(nodes: Table<StackNode>, path: seq<I64>)
    requires Descent(nodes, path) && forall k :: k in nodes ==> !OwnAncestor(nodes, k)
    requires forall k :: k in nodes && nodes[k].parent_id.Some? ==> nodes[k].parent_id.value in nodes
    ensures Rooted(nodes, path[0])
    decreases |nodes| - |path|
  {
    DescentSize(nodes, path);
    var top := path[0];
    if nodes[top].parent_id.None? {
      assert Reaches(nodes, top, 0);
    } else {
      var p := nodes[top].parent_id.value;
      ClimbGoesOn(nodes, path, p);
      DescentSize(nodes, [p] + path);
      ClimbRooted(nodes, [p] + path);
      BelowRooted(nodes, p, top);
    }
  }

  lemma {:induction false} ClimbGoesOn(nodes: Table<StackNode>, path: seq<I64>, p: I64)
    requires Descent(nodes, path) && p in nodes && !OwnAncestor(nodes, p) && nodes[path[0]].parent_id == Some(p)
    ensures Descent(nodes, [p] + path)
  {
    if i :| 0 <= i < |path| && path[i] == p {
      DescentLeadsUp(nodes, path, i);
      OneStepMoreUp(nodes, p, i, path[0]);
    }
  }

  /** In every reachable state, whatever was posted: subtree ends on everything exactly when every stored node is below
      a root. */
  lemma {:induction false} SubtreeAlwaysEndsExactly(posts: seq<StoData>, schedule: seq<nat>)
    ensures var nodes := Run(posts, schedule).db.nodes; (forall k :: Ends(nodes, k)) <==> AllRooted(nodes)
  {
    var nodes := Run(posts, schedule).db.nodes;
    if AllRooted(nodes) {
      forall k ensures Ends(nodes, k) {
        RootedOrAbsentEnds(nodes, k);
      }
    }
    if forall k :: Ends(nodes, k) {
      AlwaysIntegrity(posts, schedule);
      forall k | k in nodes ensures !OwnAncestor(nodes, k) {
        SubtreeEndsExactly(nodes, k);
      }
      ParentsStored(Run(posts, schedule).db);
      forall k | k in nodes ensures Rooted(nodes, k) {
        ClimbRooted(nodes, [k]);
      }
    }
  }

  lemma ParentsStored(db: Db)
    requires Integrity(db)
    ensures forall k :: k in db.nodes && db.nodes[k].parent_id.Some? ==> db.nodes[k].parent_id.value in db.nodes
  {
  }

  lemma {:induction false} RootedOrAbsentEnds(nodes: Table<StackNode>, k: I64)
    requires AllRooted(nodes)
    ensures Ends(nodes, k)
  {
    if k in nodes {
      RootedEnds(nodes, k);
    } else {
      assert EndsWithin(nodes, k, 1);
    }
  }

  // ----- What clients post has no circles, collisions or not -----

  ghost predicate AllRooted(nodes: Table<StackNode>) {
    forall k :: k in nodes ==> Rooted(nodes, k)
  }

  lemma RootedMore(a: Table<StackNode>, b: Table<StackNode>, k: I64)
    requires Extends(a, b) && Rooted(a, k)
    ensures Rooted(b, k)
  {
    ReachesMore(a, b, k, DepthOf(a, k));
  }

  /** The parent of each row stands before it. */
  ghost predicate ParentsFirst(rows: seq<StackNode>) {
    forall i :: 0 <= i < |rows| && rows[i].parent_id.Some? ==> HasKey(NODES, rows[..i], rows[i].parent_id.value)
  }

  lemma ParentsFirstAppend(xs: seq<StackNode>, ys: seq<StackNode>)
    requires ParentsFirst(xs) && ParentsFirst(ys)
    ensures ParentsFirst(xs + ys)
  {
    var rows := xs + ys;
    forall i | 0 <= i < |rows| && rows[i].parent_id.Some? ensures HasKey(NODES, rows[..i], rows[i].parent_id.value) {
      if i < |xs| {
        assert rows[..i] == xs[..i];
      } else {
        var before := ys[..i - |xs|];
        assert rows[..i] == xs + before && rows[i] == ys[i - |xs|];
        var j :| 0 <= j < |before| && NODES.key(before[j]) == rows[i].parent_id.value;
        assert (xs + before)[|xs| + j] == before[j];
      }
    }
  }

  /** A path is visited from its root. */
  lemma {:induction false} VisitsParentsFirst(ids: IdScheme, e: I64, p: Path)
    ensures ParentsFirst(Visits(ids, e, p))
  {
    var rows := Visits(ids, e, p);
    VisitsAt(ids, e, p);
    forall i | 0 <= i < |rows| && rows[i].parent_id.Some? ensures HasKey(NODES, rows[..i], rows[i].parent_id.value) {
      assert p[..i + 1][..i] == p[..i];
      assert NODES.key(rows[..i][i - 1]) == rows[i].parent_id.value;
    }
  }

  lemma {:induction false} VisitsOfParentsFirst(ids: IdScheme, traces: seq<Trace>)
    ensures ParentsFirst(VisitsOf(ids, traces))
  {
    if traces != [] {
      var n := |traces| - 1;
      VisitsOfParentsFirst(ids, traces[..n]);
      VisitsParentsFirst(ids, traces[n].exe, traces[n].path);
      ParentsFirstAppend(VisitsOf(ids, traces[..n]), Visits(ids, traces[n].exe, traces[n].path));
    }
  }

  lemma OneRowMore(t: Table<StackNode>, r: StackNode)
    requires AllRooted(t) && (r.parent_id.Some? ==> r.parent_id.value in t)
    ensures AllRooted(Upsert(NODES, t, r))
  {
    var after := Upsert(NODES, t, r);
    forall k | k in t ensures Rooted(after, k) {
      RootedMore(t, after, k);
    }
    if r.id !in t && r.parent_id.Some? {
      BelowRooted(after, r.parent_id.value, r.id);
    } else if r.id !in t {
      assert Reaches(after, r.id, 0);
    }
  }

  /** The first row of an id stays, and its parent is there before it: no circle comes up, whichever ids coincide. */
  lemma {:induction false} TallyRooted(rows: seq<StackNode>)
    requires ParentsFirst(rows)
    ensures AllRooted(UpsertAll(NODES, map[], rows))
  {
    if rows != [] {
      var n := |rows| - 1;
      var r := rows[n];
      forall i | 0 <= i < n && rows[..n][i].parent_id.Some?
        ensures HasKey(NODES, rows[..n][..i], rows[..n][i].parent_id.value)
      {
        assert rows[..n][..i] == rows[..i];
      }
      TallyRooted(rows[..n]);
      if r.parent_id.Some? {
        var j :| 0 <= j < n && NODES.key(rows[..n][j]) == r.parent_id.value;
        TallyHas(NODES, rows[..n], rows[..n][j]);
      }
      OneRowMore(UpsertAll(NODES, map[], rows[..n]), r);
    }
  }

  /** New rows join old ones: each new row has the parent that it has in a table without circles. */
  ghost predicate Joins(t: Table<StackNode>, m: Table<StackNode>, after: Table<StackNode>) {
    && Extends(t, after)
    && (forall k :: k in after && k !in t ==> k in m && after[k].parent_id == m[k].parent_id)
    && (forall k :: k in after && after[k].parent_id.Some? ==> after[k].parent_id.value in after)
  }

  lemma {:induction false} JoinedRooted(t: Table<StackNode>, m: Table<StackNode>, after: Table<StackNode>, k: I64,
                                        n: nat)
    requires AllRooted(t) && Joins(t, m, after) && k in after && Reaches(m, k, n)
    ensures Rooted(after, k)
    decreases n
  {
    if k in t {
      RootedMore(t, after, k);
    } else if n == 0 {
      assert Reaches(after, k, 0);
    } else {
      var p := m[k].parent_id.value;
      JoinedRooted(t, m, after, p, n - 1);
      BelowRooted(after, p, k);
    }
  }

  lemma AllJoinedRooted(t: Table<StackNode>, m: Table<StackNode>, after: Table<StackNode>)
    requires AllRooted(t) && AllRooted(m) && Joins(t, m, after)
    ensures AllRooted(after)
  {
    forall k | k in after ensures Rooted(after, k) {
      if k in t {
        RootedMore(t, after, k);
      } else {
        JoinedRooted(t, m, after, k, DepthOf(m, k));
      }
    }
  }

  lemma PayloadJoins(ids: IdScheme, b: Batch, p: StoData, db: Db)
    requires IsPayload(ids, b, p) && Integrity(db) && NodesTx(db, p.stack_nodes).Some?
    ensures Joins(db.nodes, NodeTable(ids, b), NodesTx(db, p.stack_nodes).value.nodes)
  {
    var rows, after := Taken(p.stack_nodes), NodesTx(db, p.stack_nodes).value;
    TransactKeepsIntegrity(db, p, 2);
    NodeShapesKept(db.nodes, rows);
    forall k | k in db.nodes ensures after.nodes[k].parent_id == db.nodes[k].parent_id {
      assert NODES.shape(after.nodes[k]) == NODES.shape(db.nodes[k]);
    }
    forall k | k in after.nodes && k !in db.nodes
      ensures k in NodeTable(ids, b) && after.nodes[k].parent_id == NodeTable(ids, b)[k].parent_id
    {
      NodesKeepShape(db.nodes, rows, k);
      var i :| 0 <= i < |rows| && rows[i].id == k && after.nodes[k].(sample_count := 0) == rows[i].(sample_count := 0);
      assert NODES.key(p.stack_nodes[i]) in NodeTable(ids, b);
    }
    forall k | k in after.nodes && after.nodes[k].parent_id.Some?
      ensures after.nodes[k].parent_id.value in after.nodes
    {
      assert References(after, after.nodes[k]);
    }
  }

  lemma NodeTableRooted(ids: IdScheme, b: Batch)
    ensures AllRooted(NodeTable(ids, b))
  {
    VisitsOfParentsFirst(ids, Traces(ids, b.args, b.samples));
    TallyRooted(VisitsOf(ids, Traces(ids, b.args, b.samples)));
  }

  /** In every reachable state of clients' posts, truncated or not and with any collisions, every stored node is below a
      root: parent links never run in a circle. */
  lemma {:induction false} StoredNodesAreRooted(ids: IdScheme, batches: seq<Batch>, posts: seq<StoData>,
                                                schedule: seq<nat>)
    requires Sent(ids, batches, posts)
    ensures AllRooted(Run(posts, schedule).db.nodes)
  {
    if schedule != [] {
      var n := |schedule| - 1;
      var s, i := Run(posts, schedule[..n]), schedule[n];
      StoredNodesAreRooted(ids, batches, posts, schedule[..n]);
      if i < |posts| && s.progress[i].committed == 2 && NodesTx(s.db, posts[i].stack_nodes).Some? {
        AlwaysIntegrity(posts, schedule[..n]);
        PayloadJoins(ids, batches[i], posts[i], s.db);
        NodeTableRooted(ids, batches[i]);
        AllJoinedRooted(s.db.nodes, NodeTable(ids, batches[i]), NodesTx(s.db, posts[i].stack_nodes).value.nodes);
      }
    }
  }

  /** So subtree ends, whatever it is called on. */
  lemma {:induction false} SubtreeEnds(ids: IdScheme, batches: seq<Batch>, posts: seq<StoData>, schedule: seq<nat>,
                                       k: I64)
    requires Sent(ids, batches, posts)
    ensures Ends(Run(posts, schedule).db.nodes, k)
  {
    StoredNodesAreRooted(ids, batches, posts, schedule);
    RootedOrAbsentEnds(Run(posts, schedule).db.nodes, k);
  }

  /** A post that no client sends: a node that is its own parent. */
  function CircularPost(frame: Frame, event: Text): StoData {
    StoData([StackNode(1, Some(1), 2, 3, 1)], [StackNodeData(2, frame)], [Executable(3, event, None, [], 1, 0, 0)])
  }

  /** The server takes it, and subtree does not end on the node. */
  lemma StrangersMakeCircles(frame: Frame, event: Text)
    ensures var nodes := Run([CircularPost(frame, event)], [0, 0, 0]).db.nodes; 1 in nodes && !Ends(nodes, 1)
  {
    CircleStored(frame, event);
    var nodes := Run([CircularPost(frame, event)], [0, 0, 0]).db.nodes;
    if Ends(nodes, 1) {
      ChildEnds(nodes, 1, 1);
    }
  }

  /** Its first two transactions. */
  lemma CircleBegun(frame: Frame, event: Text)
    ensures Run([CircularPost(frame, event)], [0, 0]) ==
            System(Db(map[2 := StackNodeData(2, frame)], map[3 := Executable(3, event, None, [], 1, 0, 0)], map[]),
                   [Progress(2, false)])
  {
    var posts := [CircularPost(frame, event)];
    OneTurnMore(posts, [], 0);
    OneTurnMore(posts, [0], 0);
    assert [] + [0] == [0] && [0] + [0] == [0, 0];
    assert Run(posts, []) == System(EMPTY, [Progress(0, false)]);
    OneInsert(StackNodeData(2, frame));
    OneUpsert(EXECUTABLES, Executable(3, event, None, [], 1, 0, 0));
  }

  lemma CircleStored(frame: Frame, event: Text)
    ensures Run([CircularPost(frame, event)], [0, 0, 0]).db.nodes == map[1 := StackNode(1, Some(1), 2, 3, 1)]
  {
    OneTurnMore([CircularPost(frame, event)], [0, 0], 0);
    assert [0, 0] + [0] == [0, 0, 0];
    CircleBegun(frame, event);
    OneUpsert(NODES, StackNode(1, Some(1), 2, 3, 1));
  }

  lemma OneInsert(r: StackNodeData)
    ensures InsertFrames(map[], [r]) == map[r.id := r]
  {
    var rows := [r];
    assert rows[..|rows| - 1] == [];
    assert !Conflicts(map[], r);
  }

  lemma {:induction false} OneUpsert<R>(rule: Rule<R>, r: R)
    ensures UpsertAll(rule, map[], [r]) == map[rule.key(r) := r]
  {
    var rows := [r];
    assert rows[..|rows| - 1] == [];
  }

  // ----- Without collisions the nodes of each executable are a forest of their own -----

  /** Parent and child stand for two stacks of one executable. */
  lemma {:induction false} ParentStack(ids: IdScheme, traces: seq<Trace>, a: Trace, b: Trace)
    requires CollisionFree(ids, traces) && Occurs(traces, a.exe, a.path) && Occurs(traces, b.exe, b.path)
    requires PathId(ids, b.exe, b.path[..|b.path| - 1]) == PathId(ids, a.exe, a.path)
    ensures a.exe == b.exe
  {
    var q0 := b.path[..|b.path| - 1];
    PrefixesOccur(traces, b.exe, b.path, q0);
    PathIdInjective(ids, traces, a.exe, a.path, b.exe, q0);
  }

  /** No circles, and no parent in another executable. */
  ghost predicate Forest(nodes: Table<StackNode>) {
    && AllRooted(nodes)
    && forall k :: k in nodes && nodes[k].parent_id.Some? && nodes[k].parent_id.value in nodes ==>
         nodes[nodes[k].parent_id.value].executable_id == nodes[k].executable_id
  }

  /** Only the third transaction of a post brings a node. */
  lemma {:induction false} StepBringsNode(posts: seq<StoData>, s: System, j: nat, k: I64) returns (r: StackNode)
    requires |s.progress| == |posts| && k !in s.db.nodes && k in Step(posts, s, j).db.nodes
    ensures j < |posts| && r in posts[j].stack_nodes && r.id == k
    ensures NODES.shape(Step(posts, s, j).db.nodes[k]) == NODES.shape(r)
  {
    var rows := Taken(posts[j].stack_nodes);
    var after := Step(posts, s, j).db.nodes;
    assert after == UpsertAll(NODES, s.db.nodes, rows);
    NodesKeepShape(s.db.nodes, rows, k);
    var l :| 0 <= l < |rows| && rows[l].id == k && after[k].(sample_count := 0) == rows[l].(sample_count := 0);
    r := rows[l];
    assert posts[j].stack_nodes[l] == r;
  }

  /** A stored node has all but the counter of a row that some post brought. */
  lemma {:induction false} NodesFromPosts(posts: seq<StoData>, schedule: seq<nat>, k: I64)
    returns (i: nat, r: StackNode)
    requires k in Run(posts, schedule).db.nodes
    ensures i < |posts| && r in posts[i].stack_nodes && r.id == k
    ensures NODES.shape(Run(posts, schedule).db.nodes[k]) == NODES.shape(r)
  {
    var n := |schedule| - 1;
    var was, j := Run(posts, schedule[..n]), schedule[n];
    if k in was.db.nodes {
      i, r := NodesFromPosts(posts, schedule[..n], k);
      assert schedule == schedule[..n] + [j];
      RunsGrow(posts, schedule[..n], [j]);
    } else {
      i := j;
      r := StepBringsNode(posts, was, j, k);
    }
  }

  /** So it is the node of a sampled stack, whichever of the rows were dropped. */
  lemma {:induction false} StoredNodeStack(ids: IdScheme, batches: seq<Batch>, posts: seq<StoData>, schedule: seq<nat>,
                                           k: I64)
    returns (t: Trace)
    requires Sent(ids, batches, posts) && k in Run(posts, schedule).db.nodes
    ensures Occurs(TracesOf(ids, batches), t.exe, t.path) && PathId(ids, t.exe, t.path) == Some(k)
    ensures var r := Run(posts, schedule).db.nodes[k];
            r.parent_id == PathId(ids, t.exe, t.path[..|t.path| - 1]) && r.executable_id == t.exe
  {
    var i, r := NodesFromPosts(posts, schedule, k);
    var j :| 0 <= j < |posts[i].stack_nodes| && posts[i].stack_nodes[j] == r;
    assert NODES.key(posts[i].stack_nodes[j]) in NodeTable(ids, batches[i]);
    var e, q := NodeTableRow(ids, batches[i], k);
    BatchOccurs(ids, batches, i, e, q);
    t := Trace(e, q);
    assert NODES.shape(r) == Visit(ids, e, q).(sample_count := 0);
  }

  /** Without collisions the stored nodes are a forest within each executable, whatever truncation has dropped. */
  lemma {:induction false} StoredNodesAreForest(ids: IdScheme, batches: seq<Batch>, posts: seq<StoData>,
                                                schedule: seq<nat>)
    requires Sent(ids, batches, posts) && CollisionFree(ids, TracesOf(ids, batches))
    ensures Forest(Run(posts, schedule).db.nodes)
  {
    var nodes := Run(posts, schedule).db.nodes;
    StoredNodesAreRooted(ids, batches, posts, schedule);
    forall k | k in nodes && nodes[k].parent_id.Some? && nodes[k].parent_id.value in nodes
      ensures nodes[nodes[k].parent_id.value].executable_id == nodes[k].executable_id
    {
      var child := StoredNodeStack(ids, batches, posts, schedule, k);
      var parent := StoredNodeStack(ids, batches, posts, schedule, nodes[k].parent_id.value);
      ParentStack(ids, TracesOf(ids, batches), parent, child);
    }
  }
}
