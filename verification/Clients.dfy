/** The protocol when the posts come from clients: no transaction fails but that of an empty payload, and the
    database is a function of how far each post has come, whatever the interleaving. */
module Clients {
  import opened Defs
  import opened Ids
  import opened Upserts
  import opened Batches
  import opened Payloads
  import opened Store
  import opened Protocol

  predicate Untruncated(p: StoData) {
    |p.stack_node_datas| <= BIND_LIMIT / 4 && |p.stack_nodes| <= BIND_LIMIT / 4
  }

  ghost predicate AllClosed(ids: IdScheme, posts: seq<StoData>) {
    forall i :: 0 <= i < |posts| ==> Closed(ids, posts[i])
  }

  /** Untruncated posts of clients. */
  ghost predicate FromClients(ids: IdScheme, posts: seq<StoData>) {
    AllClosed(ids, posts) && forall i :: 0 <= i < |posts| ==> Untruncated(posts[i])
  }

  // ----- Frames -----

  ghost predicate ContentKeyed(ids: IdScheme, t: Table<StackNodeData>) {
    forall k :: k in t ==> t[k].id == k && t[k] == FrameRow(ids, t[k].frame)
  }

  /** When ids are ids of contents, the second unique index never rejects a row that the primary key accepts. */
  lemma {:induction false} InsertFramesIsUpsert(ids: IdScheme, t: Table<StackNodeData>, rows: seq<StackNodeData>)
    requires ContentKeyed(ids, t) && forall r :: r in rows ==> r == FrameRow(ids, r.frame)
    ensures InsertFrames(t, rows) == UpsertAll(FRAMES, t, rows)
    ensures ContentKeyed(ids, InsertFrames(t, rows))
    ensures forall r :: r in rows ==> r.id in InsertFrames(t, rows)
  {
    if rows != [] {
      var n := |rows| - 1;
      var u, r := InsertFrames(t, rows[..n]), rows[n];
      assert forall s :: s in rows[..n] ==> s in rows;
      InsertFramesIsUpsert(ids, t, rows[..n]);
      ConflictIsSameId(ids, u, r);
    }
  }

  lemma ConflictIsSameId(ids: IdScheme, t: Table<StackNodeData>, r: StackNodeData)
    requires ContentKeyed(ids, t) && r == FrameRow(ids, r.frame)
    ensures Conflicts(t, r) <==> r.id in t
  {
  }

  lemma {:induction false} AlwaysContentKeyed(ids: IdScheme, posts: seq<StoData>, schedule: seq<nat>)
    requires FromClients(ids, posts)
    ensures ContentKeyed(ids, Run(posts, schedule).db.frames)
  {
    if schedule != [] {
      var n := |schedule| - 1;
      var was, i := Run(posts, schedule[..n]), schedule[n];
      AlwaysContentKeyed(ids, posts, schedule[..n]);
      if i < |posts| {
        InsertFramesIsUpsert(ids, was.db.frames, posts[i].stack_node_datas);
      }
    }
  }

  // ----- No transaction fails but that of an empty payload -----

  /** What a post has committed is there, and it has failed only if it had no frames to store. */
  ghost predicate PostHealthy(post: StoData, p: Progress, db: Db) {
    && p.committed <= 3
    && (p.failed ==> p.committed == 0 && post.stack_node_datas == [])
    && (p.committed >= 1 ==>
          post.stack_node_datas != [] && forall r :: r in post.stack_node_datas ==> r.id in db.frames)
    && (p.committed >= 2 ==> forall r :: r in post.profiled_binaries ==> r.id in db.executables)
  }

  lemma FramesCommit(ids: IdScheme, post: StoData, db: Db)
    requires Closed(ids, post) && Untruncated(post) && ContentKeyed(ids, db.frames)
    ensures FramesTx(db, post.stack_node_datas).None? <==> post.stack_node_datas == []
    ensures post.stack_node_datas != [] ==>
              forall r :: r in post.stack_node_datas ==> r.id in FramesTx(db, post.stack_node_datas).value.frames
  {
    InsertFramesIsUpsert(ids, db.frames, post.stack_node_datas);
  }

  lemma {:induction false} UpsertAllHas<R>(rule: Rule<R>, t: Table<R>, rows: seq<R>)
    ensures forall r :: r in rows ==> rule.key(r) in UpsertAll(rule, t, rows)
  {
    if rows != [] {
      var n := |rows| - 1;
      UpsertAllHas(rule, t, rows[..n]);
      assert rows == rows[..n] + [rows[n]];
    }
  }

  lemma ExecutablesCommit(ids: IdScheme, post: StoData, db: Db)
    requires Closed(ids, post) && post.stack_node_datas != []
    ensures ExecutablesTx(db, post.profiled_binaries).Some?
    ensures forall r :: r in post.profiled_binaries ==>
              r.id in ExecutablesTx(db, post.profiled_binaries).value.executables
  {
    assert post.stack_nodes[0] in post.stack_nodes;
    assert ReferencesWithin(post, post.stack_nodes[0]);
    UpsertAllHas(EXECUTABLES, db.executables, post.profiled_binaries);
    forall r | r in post.profiled_binaries
      ensures r.id in UpsertAll(EXECUTABLES, db.executables, post.profiled_binaries) {
      assert EXECUTABLES.key(r) == r.id;
    }
  }

  /** The node transaction of a client's post always commits: by then all that its rows refer to is stored. */
  lemma NodesCommit(ids: IdScheme, post: StoData, db: Db)
    requires Closed(ids, post) && Untruncated(post) && PostHealthy(post, Progress(2, false), db)
    ensures NodesTx(db, post.stack_nodes) == Some(db.(nodes := UpsertAll(NODES, db.nodes, post.stack_nodes)))
  {
    var rows := post.stack_nodes;
    var after := db.(nodes := UpsertAll(NODES, db.nodes, rows));
    UpsertAllHas(NODES, db.nodes, rows);
    forall i | 0 <= i < |rows| ensures References(after, rows[i]) {
      assert rows[i] in rows;
      assert ReferencesWithin(post, rows[i]);
      if rows[i].parent_id.Some? {
        var j :| 0 <= j < |rows| && NODES.key(rows[j]) == rows[i].parent_id.value;
        assert rows[j] in rows;
      }
      var j :| 0 <= j < |post.stack_node_datas| && FRAMES.key(post.stack_node_datas[j]) == rows[i].stack_node_data_id;
      assert post.stack_node_datas[j] in post.stack_node_datas;
      var l :| 0 <= l < |post.profiled_binaries| && EXECUTABLES.key(post.profiled_binaries[l]) == rows[i].executable_id;
      assert post.profiled_binaries[l] in post.profiled_binaries;
    }
  }

  lemma HealthGrows(post: StoData, p: Progress, a: Db, b: Db)
    requires PostHealthy(post, p, a) && Grows(a, b)
    ensures PostHealthy(post, p, b)
  {
  }

  lemma StepHealthy(ids: IdScheme, posts: seq<StoData>, s: System, i: nat)
    requires FromClients(ids, posts) && |s.progress| == |posts| && i < |posts|
    requires ContentKeyed(ids, s.db.frames) && PostHealthy(posts[i], s.progress[i], s.db)
    ensures PostHealthy(posts[i], Step(posts, s, i).progress[i], Step(posts, s, i).db)
    ensures Grows(s.db, Step(posts, s, i).db)
  {
    var post, p := posts[i], s.progress[i];
    if !Finished(p) {
      if p.committed == 0 {
        FramesCommit(ids, post, s.db);
      } else if p.committed == 1 {
        ExecutablesCommit(ids, post, s.db);
      } else {
        NodesCommit(ids, post, s.db);
      }
      if Transact(s.db, post, p.committed).Some? {
        TransactGrows(s.db, post, p.committed);
        HealthGrows(post, p, s.db, Step(posts, s, i).db);
      }
    }
  }

  /** In every interleaving the only post that ever fails is one without frames, and it fails at once. */
  lemma {:induction false} AlwaysHealthy(ids: IdScheme, posts: seq<StoData>, schedule: seq<nat>)
    requires FromClients(ids, posts)
    ensures var s := Run(posts, schedule);
            forall i :: 0 <= i < |posts| ==> PostHealthy(posts[i], s.progress[i], s.db)
  {
    if schedule != [] {
      var n := |schedule| - 1;
      var was, i, s := Run(posts, schedule[..n]), schedule[n], Run(posts, schedule);
      AlwaysHealthy(ids, posts, schedule[..n]);
      AlwaysContentKeyed(ids, posts, schedule[..n]);
      if i < |posts| {
        StepHealthy(ids, posts, was, i);
        forall j | 0 <= j < |posts| ensures PostHealthy(posts[j], s.progress[j], s.db) {
          if j != i {
            HealthGrows(posts[j], was.progress[j], was.db, s.db);
          }
        }
      }
    }
  }

  // ----- Truncated posts get past their executables as well -----

  /** A post without frames fails at once; any other can fail at its nodes only. */
  ghost predicate UnderWay(post: StoData, p: Progress) {
    && p.committed <= 3
    && (p.committed >= 1 ==> post.stack_node_datas != [])
    && (p.failed ==> if post.stack_node_datas == [] then p.committed == 0 else p.committed == 2)
  }

  lemma StepUnderWay(ids: IdScheme, posts: seq<StoData>, s: System, i: nat)
    requires AllClosed(ids, posts) && |s.progress| == |posts| && i < |posts| && UnderWay(posts[i], s.progress[i])
    ensures UnderWay(posts[i], Step(posts, s, i).progress[i])
  {
    var post, p := posts[i], s.progress[i];
    if p.committed == 0 {
      StatementsFailExactly(s.db, post.stack_node_datas, post.profiled_binaries);
    } else if p.committed == 1 {
      ExecutablesCommit(ids, post, s.db);
    }
  }

  lemma {:induction false} AlwaysUnderWay(ids: IdScheme, posts: seq<StoData>, schedule: seq<nat>)
    requires AllClosed(ids, posts)
    ensures var s := Run(posts, schedule); forall i :: 0 <= i < |posts| ==> UnderWay(posts[i], s.progress[i])
  {
    if schedule != [] {
      var n := |schedule| - 1;
      var was, i := Run(posts, schedule[..n]), schedule[n];
      AlwaysUnderWay(ids, posts, schedule[..n]);
      if i < |posts| {
        StepUnderWay(ids, posts, was, i);
      }
    }
  }

  lemma {:induction false} BegunHasFrames(ids: IdScheme, posts: seq<StoData>, schedule: seq<nat>, i: nat)
    requires AllClosed(ids, posts) && i < |posts| && Run(posts, schedule).progress[i].committed >= 1
    ensures posts[i].stack_node_datas != [] && |posts[i].profiled_binaries| <= 1
  {
    AlwaysUnderWay(ids, posts, schedule);
    assert UnderWay(posts[i], Run(posts, schedule).progress[i]);
  }

  // ----- The database is a ledger of what has been committed -----

  function NodeTables(posts: seq<StoData>): seq<Table<StackNode>> {
    seq(|posts|, i requires 0 <= i < |posts| => UpsertAll(NODES, map[], posts[i].stack_nodes))
  }

  function FrameTables(posts: seq<StoData>): seq<Table<StackNodeData>> {
    seq(|posts|, i requires 0 <= i < |posts| => UpsertAll(FRAMES, map[], posts[i].stack_node_datas))
  }

  /** A post without frames never comes to store its executables. */
  function ExecutableTables(posts: seq<StoData>): seq<Table<Executable>> {
    seq(|posts|, i requires 0 <= i < |posts| =>
      if posts[i].stack_node_datas == [] then map[]
      else UpsertAll(EXECUTABLES, map[], posts[i].profiled_binaries))
  }

  lemma {:induction false} EmptyLedger<R>(rule: Rule<R>, ms: seq<Table<R>>, on: seq<bool>)
    requires |ms| == |on| && forall i :: 0 <= i < |on| ==> !on[i]
    ensures Ledger(rule, ms, on) == map[]
  {
    if ms != [] {
      EmptyLedger(rule, ms[..|ms| - 1], on[..|on| - 1]);
    }
  }

  lemma LedgerUpserts<R(!new)>(rule: Rule<R>, ms: seq<Table<R>>, on: seq<bool>, i: nat, rows: seq<R>)
    requires Lawful(rule) && AllAgree(rule, ms) && |ms| == |on| && i < |on| && !on[i]
    requires ms[i] == UpsertAll(rule, map[], rows)
    ensures Ledger(rule, ms, on[i := true]) == UpsertAll(rule, Ledger(rule, ms, on), rows)
  {
    LedgerPosts(rule, ms, on, i);
    UpsertAllIsMerge(rule, Ledger(rule, ms, on), rows);
  }

  lemma NodeLedgerUpserts(ms: seq<Table<StackNode>>, on: seq<bool>, i: nat, rows: seq<StackNode>)
    requires AllAgree(NODES, ms) && |ms| == |on| && i < |on| && !on[i] && ms[i] == UpsertAll(NODES, map[], rows)
    ensures Ledger(NODES, ms, on[i := true]) == UpsertAll(NODES, Ledger(NODES, ms, on), rows)
  {
    NodesAreLawful();
    LedgerUpserts(NODES, ms, on, i, rows);
  }

  lemma ExecutableLedgerUpserts(ms: seq<Table<Executable>>, on: seq<bool>, i: nat, rows: seq<Executable>)
    requires AllAgree(EXECUTABLES, ms) && |ms| == |on| && i < |on| && !on[i]
    requires ms[i] == UpsertAll(EXECUTABLES, map[], rows)
    ensures Ledger(EXECUTABLES, ms, on[i := true]) == UpsertAll(EXECUTABLES, Ledger(EXECUTABLES, ms, on), rows)
  {
    ExecutablesAreLawful();
    LedgerUpserts(EXECUTABLES, ms, on, i, rows);
  }

  lemma {:induction false} NodesAreLedger(ids: IdScheme, posts: seq<StoData>, schedule: seq<nat>)
    requires FromClients(ids, posts) && AllAgree(NODES, NodeTables(posts))
    ensures var s := Run(posts, schedule); s.db.nodes == Ledger(NODES, NodeTables(posts), Have(s.progress, 3))
  {
    if schedule == [] {
      EmptyLedger(NODES, NodeTables(posts), Have(Run(posts, schedule).progress, 3));
    } else {
      var n := |schedule| - 1;
      var was, i := Run(posts, schedule[..n]), schedule[n];
      NodesAreLedger(ids, posts, schedule[..n]);
      if i < |posts| && !Finished(was.progress[i]) {
        HaveStep(was.progress, i, 3);
        if was.progress[i].committed == 2 {
          NodeLedgerUpserts(NodeTables(posts), Have(was.progress, 3), i, posts[i].stack_nodes);
        }
      }
    }
  }

  lemma {:induction false} FramesAreLedger(ids: IdScheme, posts: seq<StoData>, schedule: seq<nat>)
    requires FromClients(ids, posts) && AllAgree(FRAMES, FrameTables(posts))
    ensures var s := Run(posts, schedule); s.db.frames == Ledger(FRAMES, FrameTables(posts), Have(s.progress, 1))
  {
    if schedule == [] {
      EmptyLedger(FRAMES, FrameTables(posts), Have(Run(posts, schedule).progress, 1));
    } else {
      var n := |schedule| - 1;
      var was, i := Run(posts, schedule[..n]), schedule[n];
      FramesAreLedger(ids, posts, schedule[..n]);
      if i < |posts| && !Finished(was.progress[i]) {
        HaveStep(was.progress, i, 1);
        if was.progress[i].committed == 0 {
          AlwaysContentKeyed(ids, posts, schedule[..n]);
          InsertFramesIsUpsert(ids, was.db.frames, posts[i].stack_node_datas);
          LedgerUpserts(FRAMES, FrameTables(posts), Have(was.progress, 1), i, posts[i].stack_node_datas);
        }
      }
    }
  }

  lemma {:induction false} ExecutablesAreLedger(ids: IdScheme, posts: seq<StoData>, schedule: seq<nat>)
    requires AllClosed(ids, posts) && AllAgree(EXECUTABLES, ExecutableTables(posts))
    ensures var s := Run(posts, schedule);
            s.db.executables == Ledger(EXECUTABLES, ExecutableTables(posts), Have(s.progress, 2))
  {
    if schedule == [] {
      EmptyLedger(EXECUTABLES, ExecutableTables(posts), Have(Run(posts, schedule).progress, 2));
    } else {
      var n := |schedule| - 1;
      var was, i := Run(posts, schedule[..n]), schedule[n];
      ExecutablesAreLedger(ids, posts, schedule[..n]);
      if i < |posts| && was.progress[i].committed == 1 {
        BegunHasFrames(ids, posts, schedule[..n], i);
      }
      ExecutableLedgerStep(posts, was, i);
    }
  }

  lemma ExecutableLedgerStep(posts: seq<StoData>, s: System, i: nat)
    requires |s.progress| == |posts| && AllAgree(EXECUTABLES, ExecutableTables(posts))
    requires s.db.executables == Ledger(EXECUTABLES, ExecutableTables(posts), Have(s.progress, 2))
    requires i < |posts| && s.progress[i].committed == 1 ==>
               posts[i].stack_node_datas != [] && |posts[i].profiled_binaries| <= 1
    ensures var after := Step(posts, s, i);
            after.db.executables == Ledger(EXECUTABLES, ExecutableTables(posts), Have(after.progress, 2))
  {
    if i < |posts| && !Finished(s.progress[i]) {
      HaveStep(s.progress, i, 2);
      if s.progress[i].committed == 1 {
        ExecutableLedgerUpserts(ExecutableTables(posts), Have(s.progress, 2), i, posts[i].profiled_binaries);
      }
    }
  }

  /** Rows that share an id agree on all that is not a counter. */
  ghost predicate PostsAgree(posts: seq<StoData>) {
    && AllAgree(NODES, NodeTables(posts))
    && AllAgree(FRAMES, FrameTables(posts))
    && AllAgree(EXECUTABLES, ExecutableTables(posts))
  }

  /** Whatever the interleaving, the database depends only on how far each post has come. */
  lemma {:induction false} ProgressDecides(ids: IdScheme, posts: seq<StoData>, one: seq<nat>, other: seq<nat>)
    requires FromClients(ids, posts) && PostsAgree(posts)
    requires Run(posts, one).progress == Run(posts, other).progress
    ensures Run(posts, one).db == Run(posts, other).db
  {
    NodesAreLedger(ids, posts, one);
    NodesAreLedger(ids, posts, other);
    FramesAreLedger(ids, posts, one);
    FramesAreLedger(ids, posts, other);
    ExecutablesAreLedger(ids, posts, one);
    ExecutablesAreLedger(ids, posts, other);
  }

  ghost predicate AllFinished(s: System) {
    forall i :: 0 <= i < |s.progress| ==> Finished(s.progress[i])
  }

  /** The first k turns when each post takes its three turns before the next one begins. */
  function Turns(k: nat): seq<nat> {
    if k == 0 then [] else Turns(k - 1) + [(k - 1) / 3]
  }

  function OneByOne(n: nat): seq<nat> {
    Turns(3 * n)
  }

  /** Post i, and no other, has come one transaction forward or has failed, unless it was finished. */
  ghost predicate Advances(p: seq<Progress>, q: seq<Progress>, i: nat) {
    && |p| == |q| && i < |p|
    && (forall j :: 0 <= j < |p| && j != i ==> q[j] == p[j])
    && (Finished(p[i]) ==> q[i] == p[i])
    && (Finished(q[i]) || q[i] == Progress(p[i].committed + 1, false))
  }

  lemma {:induction false} RunAdvances(posts: seq<StoData>, schedule: seq<nat>, longer: seq<nat>, i: nat)
    requires i < |posts| && longer == schedule + [i]
    ensures Advances(Run(posts, schedule).progress, Run(posts, longer).progress, i)
  {
  }

  /** Post i has had its share of the first k turns. */
  predicate AfterTurns(p: Progress, i: nat, k: nat) {
    Finished(p) || p.committed >= k - 3 * i
  }

  predicate AllAfterTurns(progress: seq<Progress>, k: nat) {
    forall i :: 0 <= i < |progress| ==> AfterTurns(progress[i], i, k)
  }

  lemma OneTurn(p: seq<Progress>, q: seq<Progress>, k: nat)
    requires k > 0 && Advances(p, q, (k - 1) / 3) && AllAfterTurns(p, k - 1)
    ensures AllAfterTurns(q, k)
  {
  }

  lemma {:induction false} NextTurn(schedule: seq<nat>, k: nat)
    requires k > 0
    ensures schedule + Turns(k) == schedule + Turns(k - 1) + [(k - 1) / 3]
  {
  }

  lemma {:induction false} TurnsFinish(posts: seq<StoData>, schedule: seq<nat>, k: nat)
    requires k <= 3 * |posts|
    ensures AllAfterTurns(Run(posts, schedule + Turns(k)).progress, k)
  {
    if k == 0 {
      NothingDue(Run(posts, schedule + Turns(0)).progress);
    } else {
      TurnsFinish(posts, schedule, k - 1);
      NextTurn(schedule, k);
      PostTurn(posts, schedule + Turns(k - 1), schedule + Turns(k), k);
    }
  }

  lemma NothingDue(progress: seq<Progress>)
    ensures AllAfterTurns(progress, 0)
  {
  }

  lemma {:induction false} PostTurn(posts: seq<StoData>, before: seq<nat>, after: seq<nat>, k: nat)
    requires 0 < k <= 3 * |posts| && after == before + [(k - 1) / 3]
    requires AllAfterTurns(Run(posts, before).progress, k - 1)
    ensures AllAfterTurns(Run(posts, after).progress, k)
  {
    RunAdvances(posts, before, after, (k - 1) / 3);
    OneTurn(Run(posts, before).progress, Run(posts, after).progress, k);
  }

  /** From any reachable state, whatever was posted, three turns for each post finish all of them. */
  lemma {:induction false} CanAlwaysFinish(posts: seq<StoData>, schedule: seq<nat>)
    ensures AllFinished(Run(posts, schedule + OneByOne(|posts|)))
  {
    TurnsFinish(posts, schedule, 3 * |posts|);
    var progress := Run(posts, schedule + OneByOne(|posts|)).progress;
    forall i | 0 <= i < |progress| ensures Finished(progress[i]) {
      assert AfterTurns(progress[i], i, 3 * |posts|);
    }
  }

  /** A finished post of a client has stored everything, or had no frames and has stored nothing. */
  lemma FinishedMeans(post: StoData, p: Progress, db: Db)
    requires PostHealthy(post, p, db) && Finished(p)
    ensures p == if post.stack_node_datas == [] then Progress(0, true) else Progress(3, false)
  {
  }

  /** And once all posts are finished, not even on that: every complete interleaving ends in the state that the posts
      reach when they are carried out one after the other. */
  lemma {:induction false} InterleavingsAgree(ids: IdScheme, posts: seq<StoData>, schedule: seq<nat>)
    requires FromClients(ids, posts) && PostsAgree(posts)
    requires AllFinished(Run(posts, schedule))
    ensures AllFinished(Run(posts, OneByOne(|posts|)))
    ensures Run(posts, schedule) == Run(posts, OneByOne(|posts|))
  {
    var serial := OneByOne(|posts|);
    CanAlwaysFinish(posts, []);
    assert [] + serial == serial;
    AlwaysHealthy(ids, posts, schedule);
    AlwaysHealthy(ids, posts, serial);
    forall i | 0 <= i < |posts| ensures Run(posts, schedule).progress[i] == Run(posts, serial).progress[i] {
      FinishedMeans(posts[i], Run(posts, schedule).progress[i], Run(posts, schedule).db);
      FinishedMeans(posts[i], Run(posts, serial).progress[i], Run(posts, serial).db);
    }
    ProgressDecides(ids, posts, schedule, serial);
  }
}
