/** The SQL function subtree (migrations/20230305040305_init.up.sql:98-117), and that it shows the graph that build_dag
    rebuilds with its leaves cut off. */
module Subtree {
  import opened Defs
  import opened Ids
  import opened Upserts
  import opened Paths
  import opened Batches
  import opened Store
  import opened Protocol
  import opened Trie
  import opened Dag
  import opened Readback
  import opened EndToEnd
  import opened Circles

  /** The result of subtree: null, or an array of one object. Its children are aggregated from distinct rows in no
      particular order; null may be among them, but only once. */
  datatype Json = Null | Agg(id: I64, filename: Option<Text>, line_number: Option<I32>, name: Text, value: int,
                             children: set<Json>)

  /** The inner join has a row for each child of the root, and none when the root has no child; DISTINCT makes a set of
      what the recursive calls return. */
  function Subtree(db: Db, rootid: I64): Json
    requires Ends(db.nodes, rootid)
    decreases Levels(db.nodes, rootid)
  {
    if rootid !in db.nodes || db.nodes[rootid].stack_node_data_id !in db.frames then Null
    else if ChildIds(db.nodes, rootid) == {} then Null
    else
      var n := db.nodes[rootid];
      var f := db.frames[n.stack_node_data_id].frame;
      Agg(rootid, f.file, f.line, f.symbol, n.sample_count,
          set c | c in ChildIds(db.nodes, rootid) :: (ChildEnds(db.nodes, rootid, c); Subtree(db, c)))
  }

  /** One level of calls. */
  lemma {:induction false} SubtreeLevel(db: Db, k: I64)
    requires Ends(db.nodes, k)
    requires k in db.nodes && db.nodes[k].stack_node_data_id in db.frames
    ensures forall c :: c in ChildIds(db.nodes, k) ==> Ends(db.nodes, c)
    ensures var s, f := Subtree(db, k), db.frames[db.nodes[k].stack_node_data_id].frame;
            if ChildIds(db.nodes, k) == {} then s == Null
            else
              && s.Agg? && s.id == k && s.filename == f.file && s.line_number == f.line && s.name == f.symbol
              && s.value == db.nodes[k].sample_count
              && (forall c :: c in ChildIds(db.nodes, k) ==> Subtree(db, c) in s.children)
              && (forall x :: x in s.children ==> exists c :: c in ChildIds(db.nodes, k) && x == Subtree(db, c))
  {
    forall c | c in ChildIds(db.nodes, k) ensures Ends(db.nodes, c) {
      ChildEnds(db.nodes, k, c);
    }
  }

  // ----- Agreement with build_dag -----

  /** The object shows the node; each child of the node is shown by one of the object's children, and these show
      nothing else. A node without children is shown as null, so leaves are cut off. */
  ghost predicate ShowsPruned(s: Json, t: Flame)
    decreases t, 0
  {
    if t.children.NoChildren? then s == Null
    else
      && s.Agg?
      && s.filename == t.frame.file && s.line_number == t.frame.line && s.name == t.frame.symbol && s.value == t.value
      && (forall i :: 0 <= i < |t.children.value| ==> IsShownIn(s.children, t.children.value[i]))
      && (forall x :: x in s.children ==> ShowsOneOf(x, t.children.value))
  }

  ghost predicate IsShownIn(children: set<Json>, t: Flame)
    decreases t, 1
  {
    exists x :: x in children && ShowsPruned(x, t)
  }

  ghost predicate ShowsOneOf(x: Json, forest: seq<Flame>)
    decreases forest
  {
    exists i :: 0 <= i < |forest| && ShowsPruned(x, forest[i])
  }

  /** The rows of one executable in the database, fetched by a reader: what subtree recurses over and what build_dag
      does. */
  datatype Pair = Pair(db: Db, v: View, kids: ChildMap) {

    ghost predicate Sound() {
      && AllRooted(db.nodes) && AllRooted(v.sn)
      && Navigable(v.sn, v.sd, kids)
      && (forall k :: k in v.sn ==> k in db.nodes && db.nodes[k] == v.sn[k] && v.sn[k].id == k)
      && (forall k :: k in v.sn ==>
            v.sn[k].stack_node_data_id in db.frames
            && v.sd[v.sn[k].stack_node_data_id] == db.frames[v.sn[k].stack_node_data_id])
      && (forall k :: k in db.nodes && db.nodes[k].parent_id.Some? && db.nodes[k].parent_id.value in v.sn ==> k in v.sn)
    }
  }

  const NOTHING_READ: Pair := Pair(EMPTY, View(map[], map[]), map[])

  type SoundPair = p: Pair | p.Sound() ghost witness NOTHING_READ

  ghost function Sql(p: SoundPair, k: I64): Json
    requires k in p.v.sn
  {
    RootedEnds(p.db.nodes, k);
    Subtree(p.db, k)
  }

  ghost function Rebuilt(p: SoundPair, k: I64): Flame
    requires k in p.v.sn
  {
    BuildDag(k, p.v.sn, p.v.sd, p.kids)
  }

  /** A listed child is joined by SQL. */
  lemma KidIsJoined(p: SoundPair, k: I64, i: nat)
    requires k in p.v.sn && k in p.kids && i < |p.kids[k]|
    ensures var j := p.kids[k][i].id;
            && j in p.v.sn && j in ChildIds(p.db.nodes, k)
            && DepthOf(p.v.sn, j) == DepthOf(p.v.sn, k) + 1 < |p.v.sn|
  {
    KidsRooted(p.v.sn, p.kids, k);
  }

  /** A child joined by SQL is listed. */
  lemma JoinedIsKid(p: SoundPair, k: I64, j: I64) returns (i: nat)
    requires k in p.v.sn && j in ChildIds(p.db.nodes, k)
    ensures k in p.kids && i < |p.kids[k]| && p.kids[k][i].id == j
  {
    assert p.v.sn[j].parent_id == Some(k);
    assert p.v.sn[j] in p.kids[k];
    i :| 0 <= i < |p.kids[k]| && p.kids[k][i] == p.v.sn[j];
  }

  lemma SqlNode(p: SoundPair, k: I64)
    requires k in p.v.sn
    ensures k !in p.kids ==> Sql(p, k) == Null
    ensures k in p.kids ==>
              var n, f, s := p.v.sn[k], p.v.sd[p.v.sn[k].stack_node_data_id].frame, Sql(p, k);
              && s.Agg? && s.id == k && s.filename == f.file && s.line_number == f.line && s.name == f.symbol
              && s.value == n.sample_count
              && (forall i :: 0 <= i < |p.kids[k]| ==> Sql(p, p.kids[k][i].id) in s.children)
              && (forall x :: x in s.children ==> exists i :: 0 <= i < |p.kids[k]| && x == Sql(p, p.kids[k][i].id))
  {
    RootedEnds(p.db.nodes, k);
    SubtreeLevel(p.db, k);
    if k in p.kids {
      assert p.kids[k] != [];
      KidIsJoined(p, k, 0);
      var s := Sql(p, k);
      forall i | 0 <= i < |p.kids[k]| ensures Sql(p, p.kids[k][i].id) in s.children {
        KidIsJoined(p, k, i);
      }
      forall x | x in s.children ensures exists i :: 0 <= i < |p.kids[k]| && x == Sql(p, p.kids[k][i].id) {
        var j :| j in ChildIds(p.db.nodes, k) && x == Subtree(p.db, j);
        var i := JoinedIsKid(p, k, j);
        assert x == Sql(p, p.kids[k][i].id);
      }
    } else if j :| j in ChildIds(p.db.nodes, k) {
      var _ := JoinedIsKid(p, k, j);
    }
  }

  lemma RebuiltNode(p: SoundPair, k: I64)
    requires k in p.v.sn
    ensures var t := Rebuilt(p, k);
            && t.frame == p.v.sd[p.v.sn[k].stack_node_data_id].frame && t.value == p.v.sn[k].sample_count
            && (t.children.NoChildren? <==> k !in p.kids)
            && (k in p.kids ==>
                  && |t.children.value| == |p.kids[k]|
                  && forall i :: 0 <= i < |p.kids[k]| ==>
                       p.kids[k][i].id in p.v.sn && t.children.value[i] == Rebuilt(p, p.kids[k][i].id))
  {
  }

  /** The results for the listed children, in their order, are all that the object's children are. */
  lemma KidResults(p: SoundPair, k: I64) returns (subs: seq<Json>)
    requires k in p.v.sn && k in p.kids
    ensures |subs| == |p.kids[k]| && forall i :: 0 <= i < |subs| ==> subs[i] == Sql(p, p.kids[k][i].id)
    ensures Sql(p, k).Agg?
    ensures forall i :: 0 <= i < |subs| ==> subs[i] in Sql(p, k).children
    ensures forall x :: x in Sql(p, k).children ==> x in subs
  {
    SqlNode(p, k);
    subs := seq(|p.kids[k]|, i requires 0 <= i < |p.kids[k]| => Sql(p, p.kids[k][i].id));
    forall x | x in Sql(p, k).children ensures x in subs {
      var i :| 0 <= i < |p.kids[k]| && x == Sql(p, p.kids[k][i].id);
      assert subs[i] == x;
    }
  }

  /** subtree shows exactly the rebuilt graph with its leaves cut off. */
  lemma {:induction false} SubtreeShowsGraph(p: SoundPair, k: I64)
    requires k in p.v.sn
    ensures ShowsPruned(Sql(p, k), Rebuilt(p, k))
    decreases |p.v.sn| - DepthOf(p.v.sn, k), 1
  {
    SqlNode(p, k);
    RebuiltNode(p, k);
    if k in p.kids {
      var subs := KidResults(p, k);
      forall i | 0 <= i < |subs| ensures ShowsPruned(subs[i], Rebuilt(p, k).children.value[i]) {
        KidShown(p, k, i);
      }
      AllShown(subs, Sql(p, k), Rebuilt(p, k));
    }
  }

  lemma {:induction false} KidShown(p: SoundPair, k: I64, i: nat)
    requires k in p.v.sn && k in p.kids && i < |p.kids[k]|
    ensures p.kids[k][i].id in p.v.sn
    ensures ShowsPruned(Sql(p, p.kids[k][i].id), Rebuilt(p, p.kids[k][i].id))
    decreases |p.v.sn| - DepthOf(p.v.sn, k), 0
  {
    KidIsJoined(p, k, i);
    SubtreeShowsGraph(p, p.kids[k][i].id);
  }

  lemma {:induction false} AllShown(subs: seq<Json>, s: Json, t: Flame)
    requires s.Agg? && t.children.SomeChildren? && |subs| == |t.children.value|
    requires s.filename == t.frame.file && s.line_number == t.frame.line && s.name == t.frame.symbol
    requires s.value == t.value
    requires forall i :: 0 <= i < |subs| ==> subs[i] in s.children && ShowsPruned(subs[i], t.children.value[i])
    requires forall x :: x in s.children ==> x in subs
    ensures ShowsPruned(s, t)
  {
    var forest := t.children.value;
    forall i | 0 <= i < |forest| ensures IsShownIn(s.children, forest[i]) {
      assert ShowsPruned(subs[i], forest[i]);
    }
    forall x | x in s.children ensures ShowsOneOf(x, forest) {
      var i :| 0 <= i < |subs| && x == subs[i];
      assert ShowsPruned(x, forest[i]);
    }
  }

  /** DISTINCT merges leaves only: the results for two children with children of their own are different, and null
      is among the results exactly when some child is a leaf. */
  lemma DistinctMergesLeavesOnly(p: SoundPair, k: I64)
    requires k in p.v.sn && k in p.kids
    ensures var kids := p.kids[k];
            && (forall i, j :: 0 <= i < j < |kids| && kids[i].id in p.kids ==> Sql(p, kids[i].id) != Sql(p, kids[j].id))
            && Sql(p, k).Agg?
            && (Null in Sql(p, k).children <==> exists i :: 0 <= i < |kids| && kids[i].id !in p.kids)
  {
    var kids := p.kids[k];
    SqlNode(p, k);
    forall i | 0 <= i < |kids| ensures Sql(p, kids[i].id) == Null <==> kids[i].id !in p.kids {
      KidIsJoined(p, k, i);
      SqlNode(p, kids[i].id);
    }
    forall i, j | 0 <= i < j < |kids| && kids[i].id in p.kids ensures Sql(p, kids[i].id) != Sql(p, kids[j].id) {
      KidIsJoined(p, k, i);
      KidIsJoined(p, k, j);
      SqlNode(p, kids[i].id);
      SqlNode(p, kids[j].id);
      assert NODES.key(kids[i]) != NODES.key(kids[j]);
    }
  }

  lemma IntegrityFetches(db: Db, e: I64)
    requires Integrity(db)
    ensures forall k :: k in Restrict(db.nodes, e) ==>
              k in db.nodes && db.nodes[k] == Restrict(db.nodes, e)[k] && db.nodes[k].id == k
              && db.nodes[k].stack_node_data_id in db.frames
    ensures LookedUp(Restrict(db.nodes, e), db.frames, db.frames)
  {
  }

  lemma {:induction false} ForestReaches(nodes: Table<StackNode>, e: I64, k: I64, n: nat)
    requires Forest(nodes) && Reaches(nodes, k, n) && nodes[k].executable_id == e
    ensures Reaches(Restrict(nodes, e), k, n)
    decreases n
  {
    if n > 0 {
      ForestReaches(nodes, e, nodes[k].parent_id.value, n - 1);
    }
  }

  lemma ForestRestricted(nodes: Table<StackNode>, e: I64)
    requires Forest(nodes)
    ensures AllRooted(Restrict(nodes, e))
  {
    forall k | k in Restrict(nodes, e) ensures Rooted(Restrict(nodes, e), k) {
      ForestReaches(nodes, e, k, DepthOf(nodes, k));
    }
  }

  /** In any database where references resolve and nodes form a forest within each executable, both recursions are
      defined on the rows of every executable. */
  lemma ForestPair(db: Db, e: I64, kids: ChildMap)
    requires Integrity(db) && Forest(db.nodes)
    requires IsChildMap(kids, Restrict(db.nodes, e), Restrict(db.nodes, e).Keys)
    ensures Pair(db, View(Restrict(db.nodes, e), db.frames), kids).Sound()
  {
    ForestRestricted(db.nodes, e);
    IntegrityFetches(db, e);
  }

  /** So in every reachable state they are, and agree. */
  lemma SubtreeShowsReachableGraph(ids: IdScheme, batches: seq<Batch>, posts: seq<StoData>, schedule: seq<nat>, e: I64,
                                   kids: ChildMap)
    returns (p: SoundPair)
    requires Sent(ids, batches, posts) && CollisionFree(ids, TracesOf(ids, batches))
    requires var sn := Restrict(Run(posts, schedule).db.nodes, e); IsChildMap(kids, sn, sn.Keys)
    ensures var db := Run(posts, schedule).db;
            p.db == db && p.v == View(Restrict(db.nodes, e), db.frames) && p.kids == kids
    ensures forall k :: k in p.v.sn ==> ShowsPruned(Sql(p, k), Rebuilt(p, k))
  {
    var db := Run(posts, schedule).db;
    AlwaysIntegrity(posts, schedule);
    StoredNodesAreForest(ids, batches, posts, schedule);
    ForestPair(db, e, kids);
    p := Pair(db, View(Restrict(db.nodes, e), db.frames), kids);
    forall k | k in p.v.sn ensures ShowsPruned(Sql(p, k), Rebuilt(p, k)) {
      SubtreeShowsGraph(p, k);
    }
  }
}
