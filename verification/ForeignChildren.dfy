/** What a collision between two executables does to the two readers. */
module ForeignChildren {
  import opened Defs
  import opened Ids
  import opened Upserts
  import opened Paths
  import opened Batches
  import opened Store
  import opened Protocol
  import opened Clients
  import opened Trie
  import opened Dag
  import opened EndToEnd
  import opened Counters
  import opened Independence
  import opened Circles
  import opened Subtree

  const A: Frame := Frame([0x61], None, None)
  const B: Frame := Frame([0x62], None, None)

  /** Ids that tell the executables apart, and the frames, but not the roots of two executables. */
  const COLLIDING: IdScheme :=
    IdScheme((f: Frame) => if f == A then 1 else 2,
             (p: Option<I64>, d: I64, e: I64) => if p.None? then 10 else 20,
             (text: Text) => if text == [0x61] then 1 else 2)

  const FIRST: Batch := Batch(Args([0x61], None, []), [[Address([A], 0)]])
  const SECOND: Batch := Batch(Args([0x62], None, []), [[Address([B], 0), Address([A], 0)]])

  const FIRST_POST: StoData :=
    StoData([StackNode(10, None, 1, 1, 1)], [StackNodeData(1, A)], [Executable(1, [], None, [0x61], 1, 0, 0)])

  const SECOND_POST: StoData :=
    StoData([StackNode(10, None, 1, 2, 1), StackNode(20, Some(10), 2, 2, 1)],
            [StackNodeData(1, A), StackNodeData(2, B)],
            [Executable(2, [], None, [0x62], 2, 0, 0)])

  lemma {:induction false} TwoUpserts<R>(rule: Rule<R>, t: Table<R>, r: R, s: R)
    ensures UpsertAll(rule, t, [r]) == Upsert(rule, t, r)
    ensures UpsertAll(rule, t, [r, s]) == Upsert(rule, Upsert(rule, t, r), s)
  {
    assert [r][..|[r]| - 1] == [];
    assert [r, s][..|[r, s]| - 1] == [r];
    assert UpsertAll(rule, t, [r]) == Upsert(rule, UpsertAll(rule, t, []), r);
  }

  lemma {:induction false} TwoVisits(ids: IdScheme, e: I64)
    ensures Visits(ids, e, [A]) == [Visit(ids, e, [A])]
    ensures Visits(ids, e, [A, B]) == [Visit(ids, e, [A]), Visit(ids, e, [A, B])]
    ensures FrameRows(ids, [A]) == [FrameRow(ids, A)]
    ensures FrameRows(ids, [A, B]) == [FrameRow(ids, A), FrameRow(ids, B)]
  {
    assert [A][..|[A]| - 1] == [];
    assert [A, B][..|[A, B]| - 1] == [A];
    assert Visits(ids, e, [A]) == Visits(ids, e, []) + [Visit(ids, e, [A])];
    assert FrameRows(ids, [A]) == FrameRows(ids, []) + [FrameRow(ids, A)];
  }

  lemma {:induction false} OneTrace(ids: IdScheme, t: Trace)
    ensures VisitsOf(ids, [t]) == Visits(ids, t.exe, t.path) && FrameRowsOf(ids, [t]) == FrameRows(ids, t.path)
  {
    assert [t][..|[t]| - 1] == [];
  }

  lemma RootsFirst()
    ensures RootFirst(FIRST.samples[0]) == [A]
    ensures RootFirst(SECOND.samples[0]) == [A, B]
  {
    var one := FIRST.samples[0];
    assert one[1..] == [] && RootFirst(one) == RootFirst(one[1..]) + one[0].frames;
    var sample, rest := SECOND.samples[0], [Address([A], 0)];
    assert sample[1..] == rest && rest[1..] == [];
    assert RootFirst(rest) == RootFirst(rest[1..]) + rest[0].frames;
    assert RootFirst(sample) == RootFirst(rest) + [B];
  }

  /** What the two batches sample. */
  lemma SampledTraces()
    ensures Traces(COLLIDING, FIRST.args, FIRST.samples) == [Trace(1, [A])]
    ensures Traces(COLLIDING, SECOND.args, SECOND.samples) == [Trace(2, [A, B])]
  {
    OneSample(COLLIDING, FIRST.args, FIRST.samples[0]);
    OneSample(COLLIDING, SECOND.args, SECOND.samples[0]);
    RootsFirst();
    assert ProgramBytes(FIRST.args) == [0x61] && ProgramBytes(SECOND.args) == [0x62];
  }

  lemma ConcreteVisits()
    ensures Visit(COLLIDING, 1, [A]) == StackNode(10, None, 1, 1, 1)
    ensures Visit(COLLIDING, 2, [A]) == StackNode(10, None, 1, 2, 1)
    ensures Visit(COLLIDING, 2, [A, B]) == StackNode(20, Some(10), 2, 2, 1)
  {
    assert [A][..|[A]| - 1] == [] && [A, B][..|[A, B]| - 1] == [A];
  }

  lemma FirstTables()
    ensures NodeTable(COLLIDING, FIRST) == map[10 := FIRST_POST.stack_nodes[0]]
    ensures FrameTable(COLLIDING, FIRST) == map[1 := FIRST_POST.stack_node_datas[0]]
  {
    SampledTraces();
    ConcreteVisits();
    OneTrace(COLLIDING, Trace(1, [A]));
    TwoVisits(COLLIDING, 1);
    TwoUpserts(NODES, map[], FIRST_POST.stack_nodes[0], FIRST_POST.stack_nodes[0]);
    TwoUpserts(FRAMES, map[], FIRST_POST.stack_node_datas[0], FIRST_POST.stack_node_datas[0]);
  }

  lemma SecondTables()
    ensures NodeTable(COLLIDING, SECOND) == map[10 := SECOND_POST.stack_nodes[0], 20 := SECOND_POST.stack_nodes[1]]
    ensures FrameTable(COLLIDING, SECOND)
         == map[1 := SECOND_POST.stack_node_datas[0], 2 := SECOND_POST.stack_node_datas[1]]
  {
    SampledTraces();
    ConcreteVisits();
    OneTrace(COLLIDING, Trace(2, [A, B]));
    TwoVisits(COLLIDING, 2);
    TwoUpserts(NODES, map[], SECOND_POST.stack_nodes[0], SECOND_POST.stack_nodes[1]);
    TwoUpserts(FRAMES, map[], SECOND_POST.stack_node_datas[0], SECOND_POST.stack_node_datas[1]);
  }

  lemma FirstExecutable()
    ensures ExecutableTable(COLLIDING, FIRST, 0) == map[1 := FIRST_POST.profiled_binaries[0]]
  {
    var sample := FIRST.samples[0];
    OneSample(COLLIDING, FIRST.args, sample);
    assert sample[1..] == [] && ProgramBytes(FIRST.args) == [0x61];
    var row := ExecutableRow(COLLIDING, FIRST.args, sample[0]);
    assert SampleRows(COLLIDING, FIRST.args, sample) == [row];
    TwoUpserts(EXECUTABLES, map[], row, row);
  }

  lemma SecondExecutable()
    ensures ExecutableTable(COLLIDING, SECOND, 0) == map[2 := SECOND_POST.profiled_binaries[0]]
  {
    var sample := SECOND.samples[0];
    OneSample(COLLIDING, SECOND.args, sample);
    assert sample[1..][1..] == [] && ProgramBytes(SECOND.args) == [0x62];
    var row := ExecutableRow(COLLIDING, SECOND.args, sample[0]);
    assert SampleRows(COLLIDING, SECOND.args, sample[1..]) == [row];
    assert SampleRows(COLLIDING, SECOND.args, sample) == [row, row];
    TwoUpserts(EXECUTABLES, map[], row, row);
  }

  lemma FirstIsPayload()
    ensures IsPayload(COLLIDING, FIRST, FIRST_POST)
  {
    FirstTables();
    FirstExecutable();
    assert Enumerates(EXECUTABLES, FIRST_POST.profiled_binaries, ExecutableTable(COLLIDING, FIRST, 0));
  }

  lemma TwoEnumerated<R>(rule: Rule<R>, r: R, s: R)
    requires rule.key(r) != rule.key(s)
    ensures Enumerates(rule, [r, s], map[rule.key(r) := r, rule.key(s) := s])
  {
  }

  lemma SecondIsPayload()
    ensures IsPayload(COLLIDING, SECOND, SECOND_POST)
  {
    SecondTables();
    SecondExecutable();
    TwoEnumerated(NODES, SECOND_POST.stack_nodes[0], SECOND_POST.stack_nodes[1]);
    TwoEnumerated(FRAMES, SECOND_POST.stack_node_datas[0], SECOND_POST.stack_node_datas[1]);
    assert Enumerates(EXECUTABLES, SECOND_POST.profiled_binaries, ExecutableTable(COLLIDING, SECOND, 0));
  }

  lemma BothPosted(ids: IdScheme, a: Batch, b: Batch, p: StoData, q: StoData)
    requires IsPayload(ids, a, p) && IsPayload(ids, b, q) && Untruncated(p) && Untruncated(q)
    ensures Posted(ids, [a, b], [p, q])
  {
  }

  lemma ConcretePayloads()
    ensures Posted(COLLIDING, [FIRST, SECOND], [FIRST_POST, SECOND_POST])
  {
    FirstIsPayload();
    SecondIsPayload();
    BothPosted(COLLIDING, FIRST, SECOND, FIRST_POST, SECOND_POST);
  }

  const STORED: Table<StackNode> := map[10 := StackNode(10, None, 1, 1, 2), 20 := StackNode(20, Some(10), 2, 2, 1)]

  lemma StoredTogether()
    ensures UpsertAll(NODES, UpsertAll(NODES, map[], FIRST_POST.stack_nodes), SECOND_POST.stack_nodes) == STORED
  {
    var one := FIRST_POST.stack_nodes[0];
    TwoUpserts(NODES, map[], one, one);
    TwoUpserts(NODES, map[10 := one], SECOND_POST.stack_nodes[0], SECOND_POST.stack_nodes[1]);
  }

  lemma {:induction false} OneAlone(ids: IdScheme, p: StoData, q: StoData)
    requires FromClients(ids, [p, q]) && p.stack_node_datas != []
    ensures var s := Run([p, q], [0, 0, 0]);
            s.db.nodes == UpsertAll(NODES, map[], p.stack_nodes) && s.progress[1] == Progress(0, false)
  {
    assert Run([p, q], []) == System(EMPTY, [Progress(0, false), Progress(0, false)]);
    WholePost(ids, [p, q], [], 0);
    assert [] + [0, 0, 0] == [0, 0, 0];
  }

  lemma {:induction false} OneThenTheOther(ids: IdScheme, p: StoData, q: StoData)
    requires FromClients(ids, [p, q]) && p.stack_node_datas != [] && q.stack_node_datas != []
    ensures Run([p, q], [0, 0, 0, 1, 1, 1]).db.nodes
         == UpsertAll(NODES, UpsertAll(NODES, map[], p.stack_nodes), q.stack_nodes)
  {
    OneAlone(ids, p, q);
    WholePost(ids, [p, q], [0, 0, 0], 1);
    assert [0, 0, 0] + [1, 1, 1] == [0, 0, 0, 1, 1, 1];
  }

  lemma {:induction false} BothStored()
    ensures Run([FIRST_POST, SECOND_POST], [0, 0, 0, 1, 1, 1]).db.nodes == STORED
  {
    ConcretePayloads();
    PostedAreFromClients(COLLIDING, [FIRST, SECOND], [FIRST_POST, SECOND_POST]);
    OneThenTheOther(COLLIDING, FIRST_POST, SECOND_POST);
    StoredTogether();
  }

  lemma {:induction false} FramesStored()
    ensures var db := Run([FIRST_POST, SECOND_POST], [0, 0, 0, 1, 1, 1]).db; 1 in db.frames && 2 in db.frames
  {
    BothStored();
    AlwaysIntegrity([FIRST_POST, SECOND_POST], [0, 0, 0, 1, 1, 1]);
    var db := Run([FIRST_POST, SECOND_POST], [0, 0, 0, 1, 1, 1]).db;
    assert References(db, db.nodes[10]) && References(db, db.nodes[20]);
  }

  /** A node with a child in another executable, and none in its own. */
  lemma {:induction false} LeafHere(db: Db, sn: Table<StackNode>, k: I64, c: I64)
    requires Rooted(db.nodes, k) && k in db.nodes && db.nodes[k].stack_node_data_id in db.frames
    requires c in ChildIds(db.nodes, k)
    requires Rooted(sn, k) && Navigable(sn, db.frames, map[])
    ensures Ends(db.nodes, k) && BuildDag(k, sn, db.frames, map[]).children == NoChildren
    ensures !ShowsPruned(Subtree.Subtree(db, k), BuildDag(k, sn, db.frames, map[]))
  {
    RootedEnds(db.nodes, k);
    SubtreeLevel(db, k);
  }

  lemma {:induction false} OnlyTheRoot(nodes: Table<StackNode>, frames: Table<StackNodeData>)
    requires nodes == STORED && 1 in frames
    ensures var sn := Restrict(nodes, 1); Rooted(sn, 10) && Rooted(nodes, 10) && Navigable(sn, frames, map[])
    ensures 20 in ChildIds(nodes, 10)
  {
    var sn := Restrict(nodes, 1);
    assert sn == map[10 := STORED[10]];
    assert Reaches(nodes, 10, 0) && Reaches(sn, 10, 0);
  }

  /** The roots of two executables share an id, so the one that comes later counts for the one that came first, and its
      child hangs below it. subtree goes on to that child; build_dag, which has only the rows of one executable, shows
      the root as a leaf. Both posts are payloads of clients, and nothing is truncated. */
  lemma {:induction false} ForeignChildShowsInSubtreeOnly()
    ensures Posted(COLLIDING, [FIRST, SECOND], [FIRST_POST, SECOND_POST])
    ensures var db := Run([FIRST_POST, SECOND_POST], [0, 0, 0, 1, 1, 1]).db;
            var sn, none := Restrict(db.nodes, 1), map[];
            && Ends(db.nodes, 10) && Rooted(sn, 10) && Navigable(sn, db.frames, none)
            && BuildDag(10, sn, db.frames, none).children == NoChildren
            && !ShowsPruned(Subtree.Subtree(db, 10), BuildDag(10, sn, db.frames, none))
  {
    ConcretePayloads();
    BothStored();
    FramesStored();
    var db := Run([FIRST_POST, SECOND_POST], [0, 0, 0, 1, 1, 1]).db;
    OnlyTheRoot(db.nodes, db.frames);
    LeafHere(db, Restrict(db.nodes, 1), 10, 20);
  }
}
