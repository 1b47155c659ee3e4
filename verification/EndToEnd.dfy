/** From samples to the stored trie: in every reachable state the database holds exactly the trie of the samples whose
    posts have committed their nodes. */
module EndToEnd {
  import opened Defs
  import opened Ids
  import opened Upserts
  import opened Paths
  import opened Batches
  import opened Payloads
  import opened Store
  import opened Protocol
  import opened Clients
  import opened Dag
  import opened Readback
  import opened Present
  import opened Picture

  /** The posts carry the payloads of the batches. */
  ghost predicate Sent(ids: IdScheme, batches: seq<Batch>, posts: seq<StoData>) {
    && |posts| == |batches|
    && forall i :: 0 <= i < |posts| ==> IsPayload(ids, batches[i], posts[i])
  }

  /** And none of them is truncated. */
  ghost predicate Posted(ids: IdScheme, batches: seq<Batch>, posts: seq<StoData>) {
    && Sent(ids, batches, posts)
    && forall i :: 0 <= i < |posts| ==> Untruncated(posts[i])
  }

  /** The batches whose flags are on. */
  function Select(batches: seq<Batch>, on: seq<bool>): seq<Batch>
    requires |on| == |batches|
  {
    if batches == [] then []
    else
      var n := |batches| - 1;
      Select(batches[..n], on[..n]) + if on[n] then [batches[n]] else []
  }

  /** The stacks of the posts that have committed their nodes. */
  function StoredTraces(ids: IdScheme, batches: seq<Batch>, s: System): seq<Trace>
    requires |s.progress| == |batches|
  {
    TracesOf(ids, Select(batches, Have(s.progress, 3)))
  }

  lemma SentAreClosed(ids: IdScheme, batches: seq<Batch>, posts: seq<StoData>)
    requires Sent(ids, batches, posts)
    ensures AllClosed(ids, posts)
  {
    forall i | 0 <= i < |posts| ensures Closed(ids, posts[i]) {
      PayloadsClosed(ids, batches[i], posts[i]);
    }
  }

  lemma PostedAreFromClients(ids: IdScheme, batches: seq<Batch>, posts: seq<StoData>)
    requires Posted(ids, batches, posts)
    ensures FromClients(ids, posts)
  {
    SentAreClosed(ids, batches, posts);
  }

  // ----- The stacks of all batches and of one -----

  lemma {:induction false} TracesOfMeaning(ids: IdScheme, batches: seq<Batch>)
    ensures forall i, t :: 0 <= i < |batches| && t in Traces(ids, batches[i].args, batches[i].samples) ==>
              t in TracesOf(ids, batches)
    ensures forall t :: t in TracesOf(ids, batches) ==>
              exists i :: 0 <= i < |batches| && t in Traces(ids, batches[i].args, batches[i].samples)
  {
    if batches != [] {
      var n := |batches| - 1;
      TracesOfMeaning(ids, batches[..n]);
      forall i, t | 0 <= i < |batches| && t in Traces(ids, batches[i].args, batches[i].samples)
        ensures t in TracesOf(ids, batches)
      {
        assert i < n ==> batches[..n][i] == batches[i];
      }
      forall t | t in TracesOf(ids, batches)
        ensures exists i :: 0 <= i < |batches| && t in Traces(ids, batches[i].args, batches[i].samples)
      {
        if t in TracesOf(ids, batches[..n]) {
          var i :| 0 <= i < n && t in Traces(ids, batches[..n][i].args, batches[..n][i].samples);
          assert t in Traces(ids, batches[i].args, batches[i].samples);
        } else {
          assert t in Traces(ids, batches[n].args, batches[n].samples);
        }
      }
    }
  }

  lemma {:induction false} SelectMeaning(batches: seq<Batch>, on: seq<bool>)
    requires |on| == |batches|
    ensures forall b :: b in Select(batches, on) ==> b in batches
  {
    if batches != [] {
      SelectMeaning(batches[..|batches| - 1], on[..|batches| - 1]);
    }
  }

  lemma {:induction false} SelectedCollisionFree(ids: IdScheme, batches: seq<Batch>, on: seq<bool>)
    requires |on| == |batches| && CollisionFree(ids, TracesOf(ids, batches))
    ensures CollisionFree(ids, TracesOf(ids, Select(batches, on)))
  {
    var some := Select(batches, on);
    SelectMeaning(batches, on);
    TracesOfMeaning(ids, batches);
    TracesOfMeaning(ids, some);
    forall t | t in TracesOf(ids, some) ensures t in TracesOf(ids, batches) {
      var i :| 0 <= i < |some| && t in Traces(ids, some[i].args, some[i].samples);
      assert some[i] in batches;
      var j :| 0 <= j < |batches| && batches[j] == some[i];
    }
    PartsCollisionFree(ids, TracesOf(ids, some), TracesOf(ids, batches));
  }

  lemma {:induction false} BatchOccurs(ids: IdScheme, batches: seq<Batch>, i: nat, e: I64, p: Path)
    requires i < |batches| && Occurs(Traces(ids, batches[i].args, batches[i].samples), e, p)
    ensures Occurs(TracesOf(ids, batches), e, p)
  {
    var part, all := Traces(ids, batches[i].args, batches[i].samples), TracesOf(ids, batches);
    TracesOfMeaning(ids, batches);
    var j :| 0 <= j < |part| && part[j].exe == e && p <= part[j].path;
    assert part[j] in all;
    var k :| 0 <= k < |all| && all[k] == part[j];
    assert all[k].exe == e && p <= all[k].path;
  }

  lemma {:induction false} BatchFrameOccurs(ids: IdScheme, batches: seq<Batch>, i: nat, f: Frame)
    requires i < |batches| && FrameOccurs(Traces(ids, batches[i].args, batches[i].samples), f)
    ensures FrameOccurs(TracesOf(ids, batches), f)
  {
    var part, all := Traces(ids, batches[i].args, batches[i].samples), TracesOf(ids, batches);
    TracesOfMeaning(ids, batches);
    var j :| 0 <= j < |part| && f in part[j].path;
    assert part[j] in all;
    var k :| 0 <= k < |all| && all[k] == part[j];
    assert f in all[k].path;
  }

  // ----- Without collisions the rows of all posts agree -----

  lemma {:induction false} NodeRowsAgree(ids: IdScheme, batches: seq<Batch>, i: nat, j: nat)
    requires i < |batches| && j < |batches| && CollisionFree(ids, TracesOf(ids, batches))
    ensures Agree(NODES, NodeTable(ids, batches[i]), NodeTable(ids, batches[j]))
  {
    var a, b, all := NodeTable(ids, batches[i]), NodeTable(ids, batches[j]), TracesOf(ids, batches);
    forall k | k in a && k in b ensures NODES.shape(a[k]) == NODES.shape(b[k]) {
      var e, p := NodeTableRow(ids, batches[i], k);
      var e', p' := NodeTableRow(ids, batches[j], k);
      BatchOccurs(ids, batches, i, e, p);
      BatchOccurs(ids, batches, j, e', p');
      TableKeyed(ids, batches[i]);
      TableKeyed(ids, batches[j]);
      assert Visit(ids, e, p).id == k == Visit(ids, e', p').id;
      PathIdInjective(ids, all, e, p, e', p');
    }
  }

  lemma TableKeyed(ids: IdScheme, b: Batch)
    ensures KeyedBy(NODES, NodeTable(ids, b))
    ensures forall k :: k in NodeTable(ids, b) ==> NodeTable(ids, b)[k].id == k
  {
    NodesAreLawful();
    TallyProvenance(NODES, VisitsOf(ids, Traces(ids, b.args, b.samples)));
    forall k | k in NodeTable(ids, b) ensures NodeTable(ids, b)[k].id == k {
      assert NODES.key(NodeTable(ids, b)[k]) == k;
    }
  }

  lemma {:induction false} FrameRowsAgree(ids: IdScheme, batches: seq<Batch>, i: nat, j: nat)
    requires i < |batches| && j < |batches| && CollisionFree(ids, TracesOf(ids, batches))
    ensures Agree(FRAMES, FrameTable(ids, batches[i]), FrameTable(ids, batches[j]))
  {
    var a, b := FrameTable(ids, batches[i]), FrameTable(ids, batches[j]);
    forall k | k in a && k in b ensures FRAMES.shape(a[k]) == FRAMES.shape(b[k]) {
      FrameTableRow(ids, batches[i], k);
      FrameTableRow(ids, batches[j], k);
      BatchFrameOccurs(ids, batches, i, a[k].frame);
      BatchFrameOccurs(ids, batches, j, b[k].frame);
    }
  }

  lemma PostedTables(ids: IdScheme, batches: seq<Batch>, posts: seq<StoData>)
    requires Posted(ids, batches, posts)
    ensures forall i :: 0 <= i < |posts| ==> NodeTables(posts)[i] == NodeTable(ids, batches[i])
    ensures forall i :: 0 <= i < |posts| ==> FrameTables(posts)[i] == FrameTable(ids, batches[i])
  {
    forall i | 0 <= i < |posts|
      ensures NodeTables(posts)[i] == NodeTable(ids, batches[i]) && FrameTables(posts)[i] == FrameTable(ids, batches[i])
    {
      EnumerationIsTally(NODES, posts[i].stack_nodes, NodeTable(ids, batches[i]));
      EnumerationIsTally(FRAMES, posts[i].stack_node_datas, FrameTable(ids, batches[i]));
    }
  }

  lemma {:induction false} PostedAgree(ids: IdScheme, batches: seq<Batch>, posts: seq<StoData>)
    requires Posted(ids, batches, posts) && CollisionFree(ids, TracesOf(ids, batches))
    ensures AllAgree(NODES, NodeTables(posts)) && AllAgree(FRAMES, FrameTables(posts))
  {
    PostedTables(ids, batches, posts);
    forall i, j | 0 <= i < |posts| && 0 <= j < |posts|
      ensures Agree(NODES, NodeTables(posts)[i], NodeTables(posts)[j])
      ensures Agree(FRAMES, FrameTables(posts)[i], FrameTables(posts)[j])
    {
      NodeRowsAgree(ids, batches, i, j);
      FrameRowsAgree(ids, batches, i, j);
    }
  }

  // ----- The stored nodes are the tally of the committed stacks -----

  lemma {:induction false} LedgerIsTally(ids: IdScheme, batches: seq<Batch>, ms: seq<Table<StackNode>>, on: seq<bool>)
    requires |ms| == |batches| == |on|
    requires forall i :: 0 <= i < |ms| ==> ms[i] == NodeTable(ids, batches[i])
    ensures Ledger(NODES, ms, on) == UpsertAll(NODES, map[], VisitsOf(ids, TracesOf(ids, Select(batches, on))))
  {
    if ms != [] {
      var n := |ms| - 1;
      var some, b := Select(batches[..n], on[..n]), batches[n];
      LedgerIsTally(ids, batches[..n], ms[..n], on[..n]);
      if on[n] {
        assert (some + [b])[..|some|] == some;
        VisitsOfAppend(ids, TracesOf(ids, some), Traces(ids, b.args, b.samples));
        NodesTallyAppend(VisitsOf(ids, TracesOf(ids, some)), VisitsOf(ids, Traces(ids, b.args, b.samples)));
      } else {
        assert Select(batches, on) == some;
      }
    }
  }

  lemma {:induction false} NodesTallyAppend(xs: seq<StackNode>, ys: seq<StackNode>)
    ensures UpsertAll(NODES, map[], xs + ys) == Merge(NODES, UpsertAll(NODES, map[], xs), UpsertAll(NODES, map[], ys))
  {
    NodesAreLawful();
    TallyAppend(NODES, xs, ys);
  }

  /** In every reachable state the stored nodes are the tally of the visits of the committed stacks, in whatever
      batches they came and however the posts were interleaved. */
  lemma {:induction false} StoredNodes(ids: IdScheme, batches: seq<Batch>, posts: seq<StoData>, schedule: seq<nat>)
    requires Posted(ids, batches, posts) && CollisionFree(ids, TracesOf(ids, batches))
    ensures var s := Run(posts, schedule);
            s.db.nodes == UpsertAll(NODES, map[], VisitsOf(ids, StoredTraces(ids, batches, s)))
  {
    PostedAreFromClients(ids, batches, posts);
    PostedAgree(ids, batches, posts);
    PostedTables(ids, batches, posts);
    NodesAreLedger(ids, posts, schedule);
    LedgerIsTally(ids, batches, NodeTables(posts), Have(Run(posts, schedule).progress, 3));
  }

  // ----- The stored frames -----

  lemma {:induction false} InsertFramesProvenance(t: Table<StackNodeData>, rows: seq<StackNodeData>, k: I64)
    requires k in InsertFrames(t, rows)
    ensures k in t || InsertFrames(t, rows)[k] in rows
  {
    if rows != [] && k in InsertFrames(t, rows[..|rows| - 1]) {
      InsertFramesProvenance(t, rows[..|rows| - 1], k);
    }
  }

  /** Whatever was posted, a stored frame is one that some post brought. */
  lemma {:induction false} FramesFromPosts(posts: seq<StoData>, schedule: seq<nat>, k: I64) returns (i: nat)
    requires k in Run(posts, schedule).db.frames
    ensures i < |posts| && Run(posts, schedule).db.frames[k] in posts[i].stack_node_datas
  {
    var n := |schedule| - 1;
    var was, j := Run(posts, schedule[..n]), schedule[n];
    if k in was.db.frames {
      i := FramesFromPosts(posts, schedule[..n], k);
      if j < |posts| {
        InsertFramesKeeps(was.db.frames, Taken(posts[j].stack_node_datas));
      }
    } else {
      i := j;
      InsertFramesProvenance(was.db.frames, Taken(posts[j].stack_node_datas), k);
    }
  }

  /** A frame of a post that has committed its frames is stored, under its id and unaltered. */
  lemma {:induction false} StoredFrames(ids: IdScheme, batches: seq<Batch>, posts: seq<StoData>, schedule: seq<nat>,
                                        i: nat, f: Frame)
    requires Posted(ids, batches, posts) && CollisionFree(ids, TracesOf(ids, batches))
    requires i < |posts| && Run(posts, schedule).progress[i].committed >= 1
    requires FrameOccurs(Traces(ids, batches[i].args, batches[i].samples), f)
    ensures var frames := Run(posts, schedule).db.frames;
            ids.frame(f) in frames && frames[ids.frame(f)] == FrameRow(ids, f)
  {
    var k, frames, rows := ids.frame(f), Run(posts, schedule).db.frames, posts[i].stack_node_datas;
    PostedAreFromClients(ids, batches, posts);
    AlwaysHealthy(ids, posts, schedule);
    FrameIsPosted(ids, batches[i], posts[i], f);
    assert PostHealthy(posts[i], Run(posts, schedule).progress[i], Run(posts, schedule).db);
    AlwaysContentKeyed(ids, posts, schedule);
    var j := FramesFromPosts(posts, schedule, k);
    PostedFrameOccurs(ids, batches[j], posts[j], frames[k]);
    BatchFrameOccurs(ids, batches, j, frames[k].frame);
    BatchFrameOccurs(ids, batches, i, f);
  }

  lemma {:induction false} FrameIsPosted(ids: IdScheme, b: Batch, post: StoData, f: Frame)
    requires IsPayload(ids, b, post) && FrameOccurs(Traces(ids, b.args, b.samples), f)
    ensures exists r :: r in post.stack_node_datas && r.id == ids.frame(f)
  {
    var rows := FrameRowsOf(ids, Traces(ids, b.args, b.samples));
    FrameRowsOfMeaning(ids, Traces(ids, b.args, b.samples));
    FramesAreLawful();
    TallyHas(FRAMES, rows, FrameRow(ids, f));
    EnumerationKeys(FRAMES, post.stack_node_datas, FrameTable(ids, b), ids.frame(f));
    var i :| 0 <= i < |post.stack_node_datas| && FRAMES.key(post.stack_node_datas[i]) == ids.frame(f);
    assert post.stack_node_datas[i] in post.stack_node_datas;
  }

  lemma {:induction false} PostedFrameOccurs(ids: IdScheme, b: Batch, post: StoData, r: StackNodeData)
    requires IsPayload(ids, b, post) && r in post.stack_node_datas
    ensures FrameOccurs(Traces(ids, b.args, b.samples), r.frame)
  {
    var i :| 0 <= i < |post.stack_node_datas| && post.stack_node_datas[i] == r;
    assert FRAMES.key(post.stack_node_datas[i]) in FrameTable(ids, b);
    FrameTableRow(ids, b, r.id);
  }

  // ----- What a reader finds -----

  /** The rows selected for one executable. */
  function Restrict(nodes: Table<StackNode>, e: I64): Table<StackNode> {
    map k | k in nodes && nodes[k].executable_id == e :: nodes[k]
  }

  lemma {:induction false} SelectedTrace(ids: IdScheme, batches: seq<Batch>, on: seq<bool>, t: Trace) returns (i: nat)
    requires |on| == |batches| && t in TracesOf(ids, Select(batches, on))
    ensures i < |batches| && on[i] && t in Traces(ids, batches[i].args, batches[i].samples)
  {
    var n := |batches| - 1;
    var some := Select(batches[..n], on[..n]);
    assert !on[n] ==> Select(batches, on) == some;
    assert (some + [batches[n]])[..|some|] == some;
    if t in TracesOf(ids, some) {
      i := SelectedTrace(ids, batches[..n], on[..n], t);
    } else {
      i := n;
    }
  }

  /** The last frame of a committed path is stored, now and at any later time. */
  lemma {:induction false} StoredLastFrame(ids: IdScheme, batches: seq<Batch>, posts: seq<StoData>, schedule: seq<nat>,
                                           later: seq<nat>, e: I64, q: Path)
    requires Posted(ids, batches, posts) && CollisionFree(ids, TracesOf(ids, batches))
    requires Occurs(StoredTraces(ids, batches, Run(posts, schedule)), e, q)
    ensures var k, frames := ids.frame(q[|q| - 1]), Run(posts, schedule + later).db.frames;
            k in frames && frames[k].frame == q[|q| - 1]
  {
    var s := Run(posts, schedule);
    var traces := StoredTraces(ids, batches, s);
    LastFrameOccurs(traces, e, q);
    var j :| 0 <= j < |traces| && q[|q| - 1] in traces[j].path;
    var i := SelectedTrace(ids, batches, Have(s.progress, 3), traces[j]);
    var own := Traces(ids, batches[i].args, batches[i].samples);
    var l :| 0 <= l < |own| && own[l] == traces[j];
    assert FrameOccurs(own, q[|q| - 1]);
    StoredFrames(ids, batches, posts, schedule, i, q[|q| - 1]);
    RunsGrow(posts, schedule, later);
  }

  /** A reader that selects the nodes of e in one reachable state, and looks their frames up in that or any later one,
      finds exactly the stacks of e that had been committed when it selected the nodes. */
  lemma {:induction false} ReadersFindStacks(ids: IdScheme, batches: seq<Batch>, posts: seq<StoData>,
                                             schedule: seq<nat>, later: seq<nat>, e: I64, sd: Table<StackNodeData>)
    requires Posted(ids, batches, posts) && CollisionFree(ids, TracesOf(ids, batches))
    requires LookedUp(Restrict(Run(posts, schedule).db.nodes, e), sd, Run(posts, schedule + later).db.frames)
    ensures var s := Run(posts, schedule);
            && CollisionFree(ids, StoredTraces(ids, batches, s))
            && Stores(ids, StoredTraces(ids, batches, s), e, View(Restrict(s.db.nodes, e), sd))
  {
    var s := Run(posts, schedule);
    var traces, v := StoredTraces(ids, batches, s), View(Restrict(s.db.nodes, e), sd);
    SelectedCollisionFree(ids, batches, Have(s.progress, 3));
    StoredNodes(ids, batches, posts, schedule);
    TallyIsTrie(ids, traces);
    forall q | Occurs(traces, e, q) ensures NodeStored(ids, traces, e, v, q) {
      StoredLastFrame(ids, batches, posts, schedule, later, e, q);
      assert v.sn[PathId(ids, e, q).value].stack_node_data_id == ids.frame(q[|q| - 1]);
    }
    forall k | k in v.sn ensures exists q :: Occurs(traces, e, q) && PathId(ids, e, q) == Some(k) {
      var e', q :| Occurs(traces, e', q) && PathId(ids, e', q) == Some(k);
      assert s.db.nodes[k] == Visit(ids, e', q).(sample_count := CountPrefix(PathsOf(traces, e'), q));
    }
  }

  /** Each node a reader selects has its frame, now and at any later time: the second lookup of build_dag never
      fails, whatever was posted. */
  lemma {:induction false} FramesCanBeLookedUp(posts: seq<StoData>, schedule: seq<nat>, later: seq<nat>, k: I64)
    requires k in Run(posts, schedule).db.nodes
    ensures Run(posts, schedule).db.nodes[k].stack_node_data_id in Run(posts, schedule + later).db.frames
    ensures k in Run(posts, schedule + later).db.nodes
  {
    AlwaysIntegrity(posts, schedule);
    RunsGrow(posts, schedule, later);
  }

  /** The answer is made of what build_dag rebuilds from the rows of e in one state of the database. */
  ghost predicate Answers(answer: D3FlamegraphData, basename: Text, db: Db, e: I64) {
    exists forest :: IsRebuild(forest, Restrict(db.nodes, e), db.frames) && answer == Answer(basename, forest)
  }

  /** Made of a reachable state, the answer depicts exactly the stacks of e that have been committed by then. */
  lemma {:induction false} AnswersDepict(ids: IdScheme, batches: seq<Batch>, posts: seq<StoData>, schedule: seq<nat>,
                                         e: I64, answer: D3FlamegraphData, basename: Text)
    requires Posted(ids, batches, posts) && CollisionFree(ids, TracesOf(ids, batches))
    requires Answers(answer, basename, Run(posts, schedule).db, e)
    ensures Depicts(answer, basename, PathsOf(StoredTraces(ids, batches, Run(posts, schedule)), e))
  {
    var s := Run(posts, schedule);
    var sn := Restrict(s.db.nodes, e);
    var forest :| IsRebuild(forest, sn, s.db.frames) && answer == Answer(basename, forest);
    assert schedule + [] == schedule;
    IntegrityLooksUp(posts, schedule, e);
    ReadersFindStacks(ids, batches, posts, schedule, [], e, s.db.frames);
    RebuildsAreTries(ids, StoredTraces(ids, batches, s), e, View(sn, s.db.frames), forest);
    TriesAreDepicted(basename, forest, PathsOf(StoredTraces(ids, batches, s), e));
  }

  /** Whatever batches the posts carry, if they are not truncated and nothing in them collides, the answer depicts the
      stacks committed in state s. */
  ghost predicate DepictsCommitted(answer: D3FlamegraphData, basename: Text, posts: seq<StoData>, s: System, e: I64)
    requires |s.progress| == |posts|
  {
    forall ids, batches :: Posted(ids, batches, posts) && CollisionFree(ids, TracesOf(ids, batches)) ==>
      Depicts(answer, basename, PathsOf(StoredTraces(ids, batches, s), e))
  }

  lemma {:induction false} AnswersDepictCommitted(posts: seq<StoData>, schedule: seq<nat>, e: I64,
                                                  answer: D3FlamegraphData, basename: Text)
    requires Answers(answer, basename, Run(posts, schedule).db, e)
    ensures DepictsCommitted(answer, basename, posts, Run(posts, schedule), e)
  {
    forall ids, batches | Posted(ids, batches, posts) && CollisionFree(ids, TracesOf(ids, batches))
      ensures Depicts(answer, basename, PathsOf(StoredTraces(ids, batches, Run(posts, schedule)), e))
    {
      AnswersDepict(ids, batches, posts, schedule, e, answer, basename);
    }
  }

  /** Whatever was posted, the answer shows the rows of e, from those without a parent downwards. */
  lemma {:induction false} AnswersShowRows(posts: seq<StoData>, schedule: seq<nat>, e: I64, answer: D3FlamegraphData,
                                           basename: Text)
    requires Answers(answer, basename, Run(posts, schedule).db, e)
    ensures var db := Run(posts, schedule).db; AnswersFrom(answer, basename, Restrict(db.nodes, e), db.frames)
  {
    var db := Run(posts, schedule).db;
    AlwaysIntegrity(posts, schedule);
    var forest :| IsRebuild(forest, Restrict(db.nodes, e), db.frames) && answer == Answer(basename, forest);
    RebuildsShowRows(basename, forest, Restrict(db.nodes, e), db.frames);
  }

  lemma {:induction false} IntegrityLooksUp(posts: seq<StoData>, schedule: seq<nat>, e: I64)
    ensures var db := Run(posts, schedule).db; LookedUp(Restrict(db.nodes, e), db.frames, db.frames)
  {
    AlwaysIntegrity(posts, schedule);
  }
}
