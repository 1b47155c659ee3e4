/** What does and what does not depend on the order in which transactions of different posts are carried out. */
module Independence {
  import opened Defs
  import opened Ids
  import opened Upserts
  import opened Paths
  import opened Batches
  import opened Payloads
  import opened Store
  import opened Protocol
  import opened Clients
  import opened EndToEnd
  import opened Counters

  // ----- Nodes and frames -----

  /** Complete interleavings bring each post equally far. */
  lemma {:induction false} SameProgress(ids: IdScheme, batches: seq<Batch>, posts: seq<StoData>, one: seq<nat>,
                                        other: seq<nat>)
    requires Posted(ids, batches, posts) && AllFinished(Run(posts, one)) && AllFinished(Run(posts, other))
    ensures Run(posts, one).progress == Run(posts, other).progress
  {
    FinalProgress(ids, batches, posts, one);
    FinalProgress(ids, batches, posts, other);
  }

  /** Without collisions among nodes and frames, all complete interleavings end in the same nodes and frames. */
  lemma {:induction false} NodesAndFramesAgree(ids: IdScheme, batches: seq<Batch>, posts: seq<StoData>, one: seq<nat>,
                                               other: seq<nat>)
    requires Posted(ids, batches, posts) && CollisionFree(ids, TracesOf(ids, batches))
    requires AllFinished(Run(posts, one)) && AllFinished(Run(posts, other))
    ensures Run(posts, one).db.nodes == Run(posts, other).db.nodes
    ensures Run(posts, one).db.frames == Run(posts, other).db.frames
  {
    SameProgress(ids, batches, posts, one, other);
    PostedAreFromClients(ids, batches, posts);
    PostedAgree(ids, batches, posts);
    NodesAreLedger(ids, posts, one);
    NodesAreLedger(ids, posts, other);
    FramesAreLedger(ids, posts, one);
    FramesAreLedger(ids, posts, other);
  }

  // ----- The counters of the executables -----

  /** The rows of e, if there are any, have the same counters. */
  ghost predicate SameCounters(a: Table<Executable>, b: Table<Executable>, e: I64) {
    && (e in a <==> e in b)
    && (e in a ==>
          && a[e].sample_count == b[e].sample_count
          && a[e].raw_data_size == b[e].raw_data_size
          && a[e].processed_data_size == b[e].processed_data_size)
  }

  lemma {:induction false} WeightsAgree(posts: seq<StoData>, one: seq<nat>, other: seq<nat>, weight: Executable -> int,
                                        e: I64)
    requires Have(Run(posts, one).progress, 2) == Have(Run(posts, other).progress, 2) && Additive(EXECUTABLES, weight)
    requires forall r: Executable :: r.id != e ==> weight(r) == 0
    ensures var a, b := Run(posts, one).db.executables, Run(posts, other).db.executables;
            (if e in a then weight(a[e]) else 0) == (if e in b then weight(b[e]) else 0)
  {
    WeightsAdditive(e);
    AlwaysConserved(posts, one, NODE_COUNT, weight);
    AlwaysConserved(posts, other, NODE_COUNT, weight);
    TotalOfKey(Run(posts, one).db.executables, weight, e);
    TotalOfKey(Run(posts, other).db.executables, weight, e);
  }

  /** Truncation and collisions or not, all complete interleavings end in the same executables with the same
      counters. */
  lemma {:induction false} CountersAgree(ids: IdScheme, batches: seq<Batch>, posts: seq<StoData>, one: seq<nat>,
                                         other: seq<nat>, e: I64)
    requires Sent(ids, batches, posts) && AllFinished(Run(posts, one)) && AllFinished(Run(posts, other))
    ensures SameCounters(Run(posts, one).db.executables, Run(posts, other).db.executables, e)
  {
    FinalExecutables(ids, batches, posts, one);
    FinalExecutables(ids, batches, posts, other);
    WeightsAdditive(e);
    WeightsAgree(posts, one, other, CountFor(e), e);
    WeightsAgree(posts, one, other, RawFor(e), e);
    WeightsAgree(posts, one, other, ProcessedFor(e), e);
    AlwaysPositive(ids, batches, posts, one);
    AlwaysPositive(ids, batches, posts, other);
    ExecutablesKeyed(posts, one, e);
    ExecutablesKeyed(posts, other, e);
  }

  lemma {:induction false} ExecutablesKeyed(posts: seq<StoData>, schedule: seq<nat>, e: I64)
    ensures var t := Run(posts, schedule).db.executables; e in t ==> t[e].id == e
  {
    WeightsAdditive(e);
    AlwaysConserved(posts, schedule, NODE_COUNT, CountFor(e));
    var t := Run(posts, schedule).db.executables;
    assert e in t ==> EXECUTABLES.key(t[e]) == e;
  }

  // ----- What the executables show besides -----

  /** No two profiled programs of batches with frames share an id, unless they are the same. The event is no part of
      the id, so this also says that a program is sampled on one event only. */
  ghost predicate ProgramsFaithful(ids: IdScheme, batches: seq<Batch>) {
    forall i, j :: 0 <= i < |batches| && 0 <= j < |batches| && SamePrograms(ids, batches[i], batches[j]) ==>
      batches[i].args == batches[j].args
  }

  /** Both batches have frames, and their programs have one id. */
  predicate SamePrograms(ids: IdScheme, a: Batch, b: Batch) {
    FrameCount(a.samples) > 0 && FrameCount(b.samples) > 0 && ids.exe(a.args) == ids.exe(b.args)
  }

  lemma ExecutableTableShape(ids: IdScheme, b: Batch, p: StoData, k: I64)
    requires IsPayload(ids, b, p) && k in UpsertAll(EXECUTABLES, map[], p.profiled_binaries)
    ensures k == ids.exe(b.args)
    ensures EXECUTABLES.shape(UpsertAll(EXECUTABLES, map[], p.profiled_binaries)[k]) == Profiled(ids, b.args)
  {
    var m :| Enumerates(EXECUTABLES, p.profiled_binaries, ExecutableTable(ids, b, m));
    EnumerationIsTally(EXECUTABLES, p.profiled_binaries, ExecutableTable(ids, b, m));
    ExecutableTableRow(ids, b, m, k);
  }

  /** The executable rows of a post with frames are one row, with the batch's program. */
  lemma ProgramPosted(ids: IdScheme, b: Batch, p: StoData)
    requires IsPayload(ids, b, p) && FrameCount(b.samples) > 0
    ensures var t := UpsertAll(EXECUTABLES, map[], p.profiled_binaries);
            && p.profiled_binaries != []
            && ids.exe(b.args) in t && EXECUTABLES.shape(t[ids.exe(b.args)]) == Profiled(ids, b.args)
  {
    PayloadsClosed(ids, b, p);
    PayloadHasFrames(ids, b, p);
    assert p.stack_nodes[0] in p.stack_nodes;
    assert ReferencesWithin(p, p.stack_nodes[0]);
    UpsertAllHas(EXECUTABLES, map[], p.profiled_binaries);
    assert EXECUTABLES.key(p.profiled_binaries[0]) in UpsertAll(EXECUTABLES, map[], p.profiled_binaries);
    ExecutableTableShape(ids, b, p, p.profiled_binaries[0].id);
  }

  /** The executable rows of all posts agree exactly when the programs are faithful. */
  lemma ExecutableRowsAgreeExactly(ids: IdScheme, batches: seq<Batch>, posts: seq<StoData>)
    requires Sent(ids, batches, posts)
    ensures AllAgree(EXECUTABLES, ExecutableTables(posts)) <==> ProgramsFaithful(ids, batches)
  {
    var ms := ExecutableTables(posts);
    if ProgramsFaithful(ids, batches) {
      forall i, j | 0 <= i < |posts| && 0 <= j < |posts| ensures Agree(EXECUTABLES, ms[i], ms[j]) {
        FaithfulRowsAgree(ids, batches, posts, i, j);
      }
    }
    if AllAgree(EXECUTABLES, ms) {
      forall i, j | 0 <= i < |batches| && 0 <= j < |batches| && SamePrograms(ids, batches[i], batches[j])
        ensures batches[i].args == batches[j].args
      {
        AgreeingPrograms(ids, batches, posts, i, j);
      }
    }
  }

  lemma FaithfulRowsAgree(ids: IdScheme, batches: seq<Batch>, posts: seq<StoData>, i: nat, j: nat)
    requires Sent(ids, batches, posts) && ProgramsFaithful(ids, batches) && i < |posts| && j < |posts|
    ensures Agree(EXECUTABLES, ExecutableTables(posts)[i], ExecutableTables(posts)[j])
  {
    var ms := ExecutableTables(posts);
    forall k | k in ms[i] && k in ms[j] ensures EXECUTABLES.shape(ms[i][k]) == EXECUTABLES.shape(ms[j][k]) {
      ExecutableTableShape(ids, batches[i], posts[i], k);
      ExecutableTableShape(ids, batches[j], posts[j], k);
      PayloadHasFrames(ids, batches[i], posts[i]);
      PayloadHasFrames(ids, batches[j], posts[j]);
      assert SamePrograms(ids, batches[i], batches[j]);
    }
  }

  lemma AgreeingPrograms(ids: IdScheme, batches: seq<Batch>, posts: seq<StoData>, i: nat, j: nat)
    requires Sent(ids, batches, posts) && i < |posts| && j < |posts| && SamePrograms(ids, batches[i], batches[j])
    requires Agree(EXECUTABLES, ExecutableTables(posts)[i], ExecutableTables(posts)[j])
    ensures batches[i].args == batches[j].args
  {
    ProgramPosted(ids, batches[i], posts[i]);
    ProgramPosted(ids, batches[j], posts[j]);
    PayloadHasFrames(ids, batches[i], posts[i]);
    PayloadHasFrames(ids, batches[j], posts[j]);
    ProfiledInjective(ids, batches[i].args, batches[j].args);
  }

  lemma ProfiledInjective(ids: IdScheme, a: Args, b: Args)
    ensures Profiled(ids, a) == Profiled(ids, b) <==> a == b
  {
  }

  /** The first two transactions of a post that has frames, carried out before all others. */
  lemma {:induction false} FirstWins(ids: IdScheme, batches: seq<Batch>, posts: seq<StoData>, i: nat)
    requires Sent(ids, batches, posts) && i < |posts| && FrameCount(batches[i].samples) > 0
    ensures var t := Run(posts, [i, i]).db.executables; var k := ids.exe(batches[i].args);
            k in t && EXECUTABLES.shape(t[k]) == Profiled(ids, batches[i].args)
  {
    var p := posts[i];
    OneTurnMore(posts, [], i);
    OneTurnMore(posts, [i], i);
    assert [] + [i] == [i] && [i] + [i] == [i, i];
    PayloadsClosed(ids, batches[i], p);
    PayloadHasFrames(ids, batches[i], p);
    StatementsFailExactly(EMPTY, p.stack_node_datas, p.profiled_binaries);
    var db := Run(posts, [i]).db;
    assert Run(posts, [i]).progress[i] == Progress(1, false) && db.executables == map[];
    ExecutablesCommit(ids, p, db);
    ProgramPosted(ids, batches[i], p);
  }

  /** The complete interleaving that begins with post i. */
  function Beginning(i: nat, n: nat): seq<nat> {
    [i, i, i] + OneByOne(n)
  }

  /** The row that comes first keeps its event, version and name to the end. */
  lemma {:induction false} FirstStays(ids: IdScheme, batches: seq<Batch>, posts: seq<StoData>, i: nat)
    requires Sent(ids, batches, posts) && i < |posts| && FrameCount(batches[i].samples) > 0
    ensures AllFinished(Run(posts, Beginning(i, |posts|)))
    ensures var t, args := Run(posts, Beginning(i, |posts|)).db.executables, batches[i].args;
            && ids.exe(args) in t
            && t[ids.exe(args)].event == args.event
            && t[ids.exe(args)].build_id == args.version
            && t[ids.exe(args)].basename == args.binary
  {
    CanAlwaysFinish(posts, [i, i, i]);
    FirstWins(ids, batches, posts, i);
    RunsGrow(posts, [i, i], [i] + OneByOne(|posts|));
    assert [i, i] + ([i] + OneByOne(|posts|)) == Beginning(i, |posts|);
    ProgramOfShape(ids, batches[i].args, Run(posts, Beginning(i, |posts|)).db.executables);
  }

  lemma ProgramOfShape(ids: IdScheme, args: Args, t: Table<Executable>)
    requires ids.exe(args) in t && EXECUTABLES.shape(t[ids.exe(args)]) == Profiled(ids, args)
    ensures var r := t[ids.exe(args)]; r.event == args.event && r.build_id == args.version && r.basename == args.binary
  {
    var r := t[ids.exe(args)];
    assert EXECUTABLES.shape(r) == r.(sample_count := 0, raw_data_size := 0, processed_data_size := 0);
  }

  /** All complete interleavings end in the same executables. */
  ghost predicate OrderDoesNotShow(posts: seq<StoData>) {
    forall one, other :: AllFinished(Run(posts, one)) && AllFinished(Run(posts, other)) ==>
      Run(posts, one).db.executables == Run(posts, other).db.executables
  }

  /** Truncation and collisions or not: which programs the executables show in the end does not depend on the order of
      the posts exactly when no two different programs of batches with frames share an id. */
  lemma OrderShowsExactly(ids: IdScheme, batches: seq<Batch>, posts: seq<StoData>)
    requires Sent(ids, batches, posts)
    ensures OrderDoesNotShow(posts) <==> ProgramsFaithful(ids, batches)
  {
    if ProgramsFaithful(ids, batches) {
      forall one, other | AllFinished(Run(posts, one)) && AllFinished(Run(posts, other))
        ensures Run(posts, one).db.executables == Run(posts, other).db.executables
      {
        FaithfulExecutables(ids, batches, posts, one, other);
      }
    }
    if OrderDoesNotShow(posts) {
      forall i, j | 0 <= i < |batches| && 0 <= j < |batches| && SamePrograms(ids, batches[i], batches[j])
        ensures batches[i].args == batches[j].args
      {
        FirstStays(ids, batches, posts, i);
        FirstStays(ids, batches, posts, j);
      }
    }
  }

  lemma {:induction false} FaithfulExecutables(ids: IdScheme, batches: seq<Batch>, posts: seq<StoData>, one: seq<nat>,
                                               other: seq<nat>)
    requires Sent(ids, batches, posts) && ProgramsFaithful(ids, batches)
    requires AllFinished(Run(posts, one)) && AllFinished(Run(posts, other))
    ensures Run(posts, one).db.executables == Run(posts, other).db.executables
  {
    SentAreClosed(ids, batches, posts);
    ExecutableRowsAgreeExactly(ids, batches, posts);
    FinalExecutables(ids, batches, posts, one);
    FinalExecutables(ids, batches, posts, other);
    ExecutablesAreLedger(ids, posts, one);
    ExecutablesAreLedger(ids, posts, other);
  }

  /** Where a stored executable comes from: a batch with frames has the program that the row shows. */
  lemma {:induction false} StoredProgram(ids: IdScheme, batches: seq<Batch>, posts: seq<StoData>, schedule: seq<nat>,
                                         k: I64)
    returns (i: nat)
    requires Sent(ids, batches, posts) && k in Run(posts, schedule).db.executables
    ensures i < |batches| && FrameCount(batches[i].samples) > 0 && ids.exe(batches[i].args) == k
    ensures EXECUTABLES.shape(Run(posts, schedule).db.executables[k]) == Profiled(ids, batches[i].args)
    ensures var r, args := Run(posts, schedule).db.executables[k], batches[i].args;
            r.event == args.event && r.build_id == args.version && r.basename == args.binary
  {
    var n := |schedule| - 1;
    var was, j := Run(posts, schedule[..n]), schedule[n];
    if k in was.db.executables {
      i := StoredProgram(ids, batches, posts, schedule[..n], k);
      assert schedule == schedule[..n] + [j];
      RunsGrow(posts, schedule[..n], [j]);
    } else {
      i := j;
      ProgramBrought(ids, batches, posts, schedule[..n], j, k);
    }
  }

  /** Only the second transaction of a post brings an executable. */
  lemma StepBrings(posts: seq<StoData>, s: System, j: nat, k: I64)
    requires |s.progress| == |posts| && k !in s.db.executables && k in Step(posts, s, j).db.executables
    ensures j < |posts| && s.progress[j].committed == 1
    ensures Step(posts, s, j).db.executables
         == UpsertAll(EXECUTABLES, s.db.executables, Taken(posts[j].profiled_binaries))
  {
  }

  lemma {:induction false} ProgramBrought(ids: IdScheme, batches: seq<Batch>, posts: seq<StoData>, schedule: seq<nat>,
                                          j: nat, k: I64)
    requires Sent(ids, batches, posts)
    requires var was := Run(posts, schedule);
             k !in was.db.executables && k in Step(posts, was, j).db.executables
    ensures j < |batches| && FrameCount(batches[j].samples) > 0 && ids.exe(batches[j].args) == k
    ensures EXECUTABLES.shape(Step(posts, Run(posts, schedule), j).db.executables[k]) == Profiled(ids, batches[j].args)
  {
    var was := Run(posts, schedule);
    StepBrings(posts, was, j, k);
    SentAreClosed(ids, batches, posts);
    AlwaysUnderWay(ids, posts, schedule);
    assert UnderWay(posts[j], was.progress[j]);
    PayloadHasFrames(ids, batches[j], posts[j]);
    BroughtBy(was.db.executables, posts[j].profiled_binaries, k);
    ExecutableTableShape(ids, batches[j], posts[j], k);
  }

  lemma {:induction false} BroughtBy(t: Table<Executable>, rows: seq<Executable>, k: I64)
    requires |rows| <= 1 && k !in t && k in UpsertAll(EXECUTABLES, t, rows)
    ensures k in UpsertAll(EXECUTABLES, map[], rows)
    ensures UpsertAll(EXECUTABLES, map[], rows)[k] == UpsertAll(EXECUTABLES, t, rows)[k]
  {
    if rows != [] {
      assert rows[..|rows| - 1] == [];
    }
  }

  // ----- The whole database -----

  /** All complete interleavings end in one state. */
  ghost predicate OrderDoesNotMatter(posts: seq<StoData>) {
    forall one, other :: AllFinished(Run(posts, one)) && AllFinished(Run(posts, other)) ==>
      Run(posts, one) == Run(posts, other)
  }

  /** The three transactions of a client's post in a row upsert all its rows. */
  lemma {:induction false} WholePost(ids: IdScheme, posts: seq<StoData>, schedule: seq<nat>, i: nat)
    requires FromClients(ids, posts) && i < |posts| && posts[i].stack_node_datas != []
    requires Run(posts, schedule).progress[i] == Progress(0, false)
    ensures var db, p := Run(posts, schedule).db, posts[i];
            Run(posts, schedule + [i, i, i]).db ==
            Db(UpsertAll(FRAMES, db.frames, p.stack_node_datas),
               UpsertAll(EXECUTABLES, db.executables, p.profiled_binaries),
               UpsertAll(NODES, db.nodes, p.stack_nodes))
    ensures forall j :: 0 <= j < |posts| && j != i ==>
              Run(posts, schedule + [i, i, i]).progress[j] == Run(posts, schedule).progress[j]
  {
    FirstTwo(ids, posts, schedule, i);
    OneTurnMore(posts, schedule + [i, i], i);
    assert schedule + [i, i] + [i] == schedule + [i, i, i];
    AlwaysHealthy(ids, posts, schedule + [i, i]);
    var s := Run(posts, schedule + [i, i]);
    assert PostHealthy(posts[i], s.progress[i], s.db);
    NodesCommit(ids, posts[i], s.db);
  }

  lemma {:induction false} FirstTwo(ids: IdScheme, posts: seq<StoData>, schedule: seq<nat>, i: nat)
    requires FromClients(ids, posts) && i < |posts| && posts[i].stack_node_datas != []
    requires Run(posts, schedule).progress[i] == Progress(0, false)
    ensures var db, p := Run(posts, schedule).db, posts[i];
            Run(posts, schedule + [i, i]).db ==
            Db(UpsertAll(FRAMES, db.frames, p.stack_node_datas),
               UpsertAll(EXECUTABLES, db.executables, p.profiled_binaries), db.nodes)
    ensures Run(posts, schedule + [i, i]).progress == Run(posts, schedule).progress[i := Progress(2, false)]
  {
    OneTurnMore(posts, schedule + [i], i);
    assert schedule + [i] + [i] == schedule + [i, i];
    FirstOne(ids, posts, schedule, i);
    ExecutablesCommit(ids, posts[i], Run(posts, schedule + [i]).db);
  }

  lemma {:induction false} FirstOne(ids: IdScheme, posts: seq<StoData>, schedule: seq<nat>, i: nat)
    requires FromClients(ids, posts) && i < |posts| && posts[i].stack_node_datas != []
    requires Run(posts, schedule).progress[i] == Progress(0, false)
    ensures var was := Run(posts, schedule);
            Run(posts, schedule + [i]) ==
            System(was.db.(frames := UpsertAll(FRAMES, was.db.frames, posts[i].stack_node_datas)),
                   was.progress[i := Progress(1, false)])
  {
    OneTurnMore(posts, schedule, i);
    AlwaysContentKeyed(ids, posts, schedule);
    InsertFramesIsUpsert(ids, Run(posts, schedule).db.frames, posts[i].stack_node_datas);
    FramesCommit(ids, posts[i], Run(posts, schedule).db);
  }

  /** What it leaves behind stays, but for the counters. */
  lemma {:induction false} FirstPostStays(ids: IdScheme, posts: seq<StoData>, i: nat)
    requires FromClients(ids, posts) && i < |posts| && posts[i].stack_node_datas != []
    ensures var s := Run(posts, Beginning(i, |posts|));
            && AllFinished(s)
            && KeepsShapes(NODES, NodeTables(posts)[i], s.db.nodes)
            && KeepsShapes(FRAMES, FrameTables(posts)[i], s.db.frames)
            && KeepsShapes(EXECUTABLES, ExecutableTables(posts)[i], s.db.executables)
  {
    CanAlwaysFinish(posts, [i, i, i]);
    WholePost(ids, posts, [], i);
    assert [] + [i, i, i] == [i, i, i];
    RunsGrow(posts, [i, i, i], OneByOne(|posts|));
  }

  lemma FramelessRefersNowhere(p: StoData, r: StackNode)
    requires p.stack_node_datas == []
    ensures !ReferencesWithin(p, r)
  {
  }

  lemma FramelessTablesEmpty(ids: IdScheme, posts: seq<StoData>, i: nat)
    requires FromClients(ids, posts) && i < |posts| && posts[i].stack_node_datas == []
    ensures NodeTables(posts)[i] == map[] && FrameTables(posts)[i] == map[] && ExecutableTables(posts)[i] == map[]
  {
    if posts[i].stack_nodes != [] {
      assert posts[i].stack_nodes[0] in posts[i].stack_nodes;
      FramelessRefersNowhere(posts[i], posts[i].stack_nodes[0]);
    }
  }

  lemma KeptAgree<R(!new)>(rule: Rule<R>, a: Table<R>, b: Table<R>, t: Table<R>)
    requires KeepsShapes(rule, a, t) && KeepsShapes(rule, b, t)
    ensures forall k :: k in a && k in b ==> rule.shape(a[k]) == rule.shape(b[k])
  {
  }

  lemma FirstPostsAgree(ids: IdScheme, posts: seq<StoData>, i: nat, j: nat)
    requires FromClients(ids, posts) && OrderDoesNotMatter(posts) && i < |posts| && j < |posts|
    ensures Agree(NODES, NodeTables(posts)[i], NodeTables(posts)[j])
    ensures Agree(FRAMES, FrameTables(posts)[i], FrameTables(posts)[j])
    ensures Agree(EXECUTABLES, ExecutableTables(posts)[i], ExecutableTables(posts)[j])
  {
    if posts[i].stack_node_datas == [] {
      FramelessTablesEmpty(ids, posts, i);
    } else if posts[j].stack_node_datas == [] {
      FramelessTablesEmpty(ids, posts, j);
    } else {
      FirstPostStays(ids, posts, i);
      FirstPostStays(ids, posts, j);
      var db := Run(posts, Beginning(i, |posts|)).db;
      KeptAgree(NODES, NodeTables(posts)[i], NodeTables(posts)[j], db.nodes);
      KeptAgree(FRAMES, FrameTables(posts)[i], FrameTables(posts)[j], db.frames);
      KeptAgree(EXECUTABLES, ExecutableTables(posts)[i], ExecutableTables(posts)[j], db.executables);
    }
  }

  /** For posts of clients, collisions or not: the order of the transactions makes no difference to the final database
      exactly when rows that share an id agree on all that is not a counter. */
  lemma OrderMattersExactly(ids: IdScheme, posts: seq<StoData>)
    requires FromClients(ids, posts)
    ensures OrderDoesNotMatter(posts) <==> PostsAgree(posts)
  {
    if PostsAgree(posts) {
      forall one, other | AllFinished(Run(posts, one)) && AllFinished(Run(posts, other))
        ensures Run(posts, one) == Run(posts, other)
      {
        InterleavingsAgree(ids, posts, one);
        InterleavingsAgree(ids, posts, other);
      }
    }
    if OrderDoesNotMatter(posts) {
      forall i, j | 0 <= i < |posts| && 0 <= j < |posts|
        ensures Agree(NODES, NodeTables(posts)[i], NodeTables(posts)[j])
        ensures Agree(FRAMES, FrameTables(posts)[i], FrameTables(posts)[j])
        ensures Agree(EXECUTABLES, ExecutableTables(posts)[i], ExecutableTables(posts)[j])
      {
        FirstPostsAgree(ids, posts, i, j);
      }
    }
  }

  /** So where nodes and frames do not collide, it is the programs that decide. */
  lemma {:induction false} ProgramsDecideOrder(ids: IdScheme, batches: seq<Batch>, posts: seq<StoData>)
    requires Posted(ids, batches, posts) && CollisionFree(ids, TracesOf(ids, batches))
    ensures OrderDoesNotMatter(posts) <==> ProgramsFaithful(ids, batches)
  {
    PostedAreFromClients(ids, batches, posts);
    PostedAgree(ids, batches, posts);
    ExecutableRowsAgreeExactly(ids, batches, posts);
    OrderMattersExactly(ids, posts);
  }
}
