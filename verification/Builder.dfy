/** The trie builder (src/bin/cli.rs:291-395). */
module Builder {
  import opened Defs
  import opened Ids
  import opened Upserts
  import opened Paths
  import opened Caches
  import opened Batches

  /** One frame: its row and its node are stored or counted, and the node becomes the parent of the next. */
  method VisitFrame(caches: IdCaches, exe: I64, frame: Frame, parent: Option<I64>,
                    frames: Table<StackNodeData>, nodes: Table<StackNode>)
    returns (frames': Table<StackNodeData>, nodes': Table<StackNode>, parent': Option<I64>)
    requires caches.Valid()
    modifies caches
    ensures caches.Valid()
    ensures frames' == Upsert(FRAMES, frames, FrameRow(caches.ids, frame))
    ensures var data := caches.ids.frame(frame);
            var id := caches.ids.node(parent, data, exe);
            nodes' == Upsert(NODES, nodes, StackNode(id, parent, data, exe, 1)) && parent' == Some(id)
  {
    var data := caches.IdData(StackNodeData(0, frame));
    frames' := if data.id in frames then frames else frames[data.id := data];
    var node := caches.IdStackNode(StackNode(0, parent, data.id, exe, 1));
    nodes' := if node.id in nodes then
                nodes[node.id := nodes[node.id].(sample_count := nodes[node.id].sample_count + 1)]
              else nodes[node.id := node];
    parent' := Some(node.id);
  }

  /** One address counts once for its executable, also when no frame is known at it. */
  method CountAddress(executable: Executable, stack: Address, executables: Table<Executable>)
    returns (executables': Table<Executable>)
    requires executable.sample_count == executable.raw_data_size == executable.processed_data_size == 0
    ensures executables' == Upsert(EXECUTABLES, executables,
                                   executable.(sample_count := 1, raw_data_size := stack.rawSize))
  {
    executables' := executables;
    if executable.id !in executables' {
      executables' := executables'[executable.id := executable];
    }
    var e := executables'[executable.id];
    executables' := executables'[executable.id := e.(sample_count := e.sample_count + 1)];
    e := executables'[executable.id];
    executables' := executables'[executable.id := e.(raw_data_size := e.raw_data_size + stack.rawSize)];
  }

  /** The frames stored once some samples, and the given path of the next one, have been visited. */
  ghost function FramesAfter(ids: IdScheme, args: Args, samples: seq<Sample>, path: Path): Table<StackNodeData> {
    UpsertAll(FRAMES, map[], FrameRowsOf(ids, Traces(ids, args, samples)) + FrameRows(ids, path))
  }

  /** The nodes stored by then. */
  ghost function NodesAfter(ids: IdScheme, args: Args, samples: seq<Sample>, path: Path): Table<StackNode> {
    UpsertAll(NODES, map[], VisitsOf(ids, Traces(ids, args, samples)) + Visits(ids, ids.exe(args), path))
  }

  /** The executables stored once some samples, and the given addresses of the next one, have been visited. */
  ghost function ExecutablesAfter(ids: IdScheme, args: Args, samples: seq<Sample>, sample: Sample): Table<Executable> {
    UpsertAll(EXECUTABLES, map[], ExecutableRows(ids, args, samples) + SampleRows(ids, args, sample))
  }

  lemma {:induction false} UpsertOneMore<R>(rule: Rule<R>, rows: seq<R>, r: R)
    ensures UpsertAll(rule, map[], rows + [r]) == Upsert(rule, UpsertAll(rule, map[], rows), r)
  {
  }

  lemma FramesAfterMore(ids: IdScheme, args: Args, samples: seq<Sample>, path: Path, f: Frame)
    ensures FramesAfter(ids, args, samples, path + [f])
      == Upsert(FRAMES, FramesAfter(ids, args, samples, path), FrameRow(ids, f))
  {
    var rows := FrameRowsOf(ids, Traces(ids, args, samples));
    assert (path + [f])[..|path + [f]| - 1] == path;
    assert rows + FrameRows(ids, path + [f]) == (rows + FrameRows(ids, path)) + [FrameRow(ids, f)];
    UpsertOneMore(FRAMES, rows + FrameRows(ids, path), FrameRow(ids, f));
  }

  lemma NodesAfterMore(ids: IdScheme, args: Args, samples: seq<Sample>, path: Path, f: Frame)
    ensures NodesAfter(ids, args, samples, path + [f]) ==
            Upsert(NODES, NodesAfter(ids, args, samples, path), Visit(ids, ids.exe(args), path + [f]))
  {
    var rows, exe := VisitsOf(ids, Traces(ids, args, samples)), ids.exe(args);
    assert (path + [f])[..|path + [f]| - 1] == path;
    assert rows + Visits(ids, exe, path + [f]) == (rows + Visits(ids, exe, path)) + [Visit(ids, exe, path + [f])];
    UpsertOneMore(NODES, rows + Visits(ids, exe, path), Visit(ids, exe, path + [f]));
  }

  /** The address sample[0] is visited after those of sample[1..]. */
  lemma ExecutablesAfterMore(ids: IdScheme, args: Args, samples: seq<Sample>, sample: Sample)
    requires sample != []
    ensures ExecutablesAfter(ids, args, samples, sample) ==
            Upsert(EXECUTABLES, ExecutablesAfter(ids, args, samples, sample[1..]), ExecutableRow(ids, args, sample[0]))
  {
    var rows := ExecutableRows(ids, args, samples);
    assert rows + SampleRows(ids, args, sample) ==
           (rows + SampleRows(ids, args, sample[1..])) + [ExecutableRow(ids, args, sample[0])];
    UpsertOneMore(EXECUTABLES, rows + SampleRows(ids, args, sample[1..]), ExecutableRow(ids, args, sample[0]));
  }

  /** When a sample is complete, the next one starts at its root. */
  lemma SampleComplete(ids: IdScheme, args: Args, samples: seq<Sample>, i: nat)
    requires i < |samples|
    ensures FramesAfter(ids, args, samples[..i + 1], []) == FramesAfter(ids, args, samples[..i], RootFirst(samples[i]))
    ensures NodesAfter(ids, args, samples[..i + 1], []) == NodesAfter(ids, args, samples[..i], RootFirst(samples[i]))
    ensures ExecutablesAfter(ids, args, samples[..i + 1], []) == ExecutablesAfter(ids, args, samples[..i], samples[i])
  {
    var xs := samples[..i + 1];
    assert xs[..|xs| - 1] == samples[..i];
    var traces, was := Traces(ids, args, xs), Traces(ids, args, samples[..i]);
    assert traces[..|traces| - 1] == was;
    assert FrameRowsOf(ids, traces) + FrameRows(ids, [])
      == FrameRowsOf(ids, was) + FrameRows(ids, RootFirst(samples[i]));
    assert VisitsOf(ids, traces) + Visits(ids, ids.exe(args), [])
        == VisitsOf(ids, was) + Visits(ids, ids.exe(args), RootFirst(samples[i]));
    assert ExecutableRows(ids, args, xs) + SampleRows(ids, args, [])
        == ExecutableRows(ids, args, samples[..i]) + SampleRows(ids, args, samples[i]);
  }

  /** Folds one sample into the three maps, the root address first. */
  method ProcessSample(caches: IdCaches, ghost args: Args, ghost done: seq<Sample>, executable: Executable,
                       sample: Sample,
                       frames0: Table<StackNodeData>, nodes0: Table<StackNode>, executables0: Table<Executable>)
    returns (frames: Table<StackNodeData>, nodes: Table<StackNode>, executables: Table<Executable>)
    requires caches.Valid()
    requires executable == Executable(caches.ids.exe(args), args.event, args.version, args.binary, 0, 0, 0)
    requires frames0 == FramesAfter(caches.ids, args, done, []) && nodes0 == NodesAfter(caches.ids, args, done, [])
    requires executables0 == ExecutablesAfter(caches.ids, args, done, [])
    modifies caches
    ensures caches.Valid()
    ensures frames == FramesAfter(caches.ids, args, done, RootFirst(sample))
    ensures nodes == NodesAfter(caches.ids, args, done, RootFirst(sample))
    ensures executables == ExecutablesAfter(caches.ids, args, done, sample)
  {
    ghost var ids := caches.ids;
    frames, nodes, executables := frames0, nodes0, executables0;
    var n := |sample|;
    var symlist := seq(n, j requires 0 <= j < n => sample[n - 1 - j]);
    var parent: Option<I64> := None;
    ghost var path: Path := [];
    assert sample[n..] == [];
    for j := 0 to n
      invariant caches.Valid()
      invariant path == RootFirst(sample[n - j..]) && parent == PathId(ids, executable.id, path)
      invariant frames == FramesAfter(ids, args, done, path) && nodes == NodesAfter(ids, args, done, path)
      invariant executables == ExecutablesAfter(ids, args, done, sample[n - j..])
    {
      var stack := symlist[j];
      ghost var rest := sample[n - (j + 1)..];
      assert rest[0] == stack && rest[1..] == sample[n - j..];
      ExecutablesAfterMore(ids, args, done, rest);
      executables := CountAddress(executable, stack, executables);
      ghost var longer := path + stack.frames;
      frames, nodes, parent :=
        ProcessStack(caches, args, done, path, longer, executable.id, stack, frames, nodes, parent);
      path := longer;
    }
    assert sample[0..] == sample;
  }

  // ----- The frames inlined at one address -----

  /** The parent, the frames and the nodes when the first k of some frames have been visited below a path. */
  ghost function ParentAt(ids: IdScheme, exe: I64, path: Path, fs: seq<Frame>, k: nat): Option<I64>
    requires k <= |fs|
  {
    if k == 0 then PathId(ids, exe, path)
    else Some(ids.node(ParentAt(ids, exe, path, fs, k - 1), ids.frame(fs[k - 1]), exe))
  }

  ghost function FramesAt(ids: IdScheme, t: Table<StackNodeData>, fs: seq<Frame>, k: nat): Table<StackNodeData>
    requires k <= |fs|
  {
    if k == 0 then t else Upsert(FRAMES, FramesAt(ids, t, fs, k - 1), FrameRow(ids, fs[k - 1]))
  }

  ghost function NodesAt(ids: IdScheme, t: Table<StackNode>, exe: I64, path: Path, fs: seq<Frame>, k: nat)
    : Table<StackNode>
    requires k <= |fs|
  {
    if k == 0 then t
    else
      var parent, data := ParentAt(ids, exe, path, fs, k - 1), ids.frame(fs[k - 1]);
      Upsert(NODES, NodesAt(ids, t, exe, path, fs, k - 1), StackNode(ids.node(parent, data, exe), parent, data, exe, 1))
  }

  lemma OneFrameMore(path: Path, fs: seq<Frame>, k: nat)
    requires k < |fs|
    ensures path + fs[..k + 1] == path + fs[..k] + [fs[k]]
  {
  }

  lemma {:induction false} ParentVisited(ids: IdScheme, exe: I64, path: Path, fs: seq<Frame>, k: nat)
    requires k <= |fs|
    ensures ParentAt(ids, exe, path, fs, k) == PathId(ids, exe, path + fs[..k])
  {
    if k == 0 {
      assert path + fs[..0] == path;
    } else {
      ParentVisited(ids, exe, path, fs, k - 1);
      OneFrameMore(path, fs, k - 1);
      assert (path + fs[..k])[..|path + fs[..k]| - 1] == path + fs[..k - 1];
    }
  }

  lemma {:induction false} FramesVisited(ids: IdScheme, args: Args, done: seq<Sample>, path: Path, fs: seq<Frame>,
                                         k: nat)
    requires k <= |fs|
    ensures FramesAt(ids, FramesAfter(ids, args, done, path), fs, k) == FramesAfter(ids, args, done, path + fs[..k])
  {
    if k == 0 {
      assert path + fs[..0] == path;
    } else {
      FramesVisited(ids, args, done, path, fs, k - 1);
      OneFrameMore(path, fs, k - 1);
      FramesAfterMore(ids, args, done, path + fs[..k - 1], fs[k - 1]);
    }
  }

  lemma {:induction false} VisitBelow(ids: IdScheme, exe: I64, path: Path, f: Frame)
    ensures var parent, data := PathId(ids, exe, path), ids.frame(f);
            Visit(ids, exe, path + [f]) == StackNode(ids.node(parent, data, exe), parent, data, exe, 1)
  {
    assert (path + [f])[..|path + [f]| - 1] == path;
  }

  lemma NodesAtNext(ids: IdScheme, t: Table<StackNode>, exe: I64, path: Path, fs: seq<Frame>, k: nat)
    requires k < |fs|
    ensures NodesAt(ids, t, exe, path, fs, k + 1)
         == Upsert(NODES, NodesAt(ids, t, exe, path, fs, k), Visit(ids, exe, path + fs[..k] + [fs[k]]))
  {
    ParentVisited(ids, exe, path, fs, k);
    VisitBelow(ids, exe, path + fs[..k], fs[k]);
  }

  /** Whatever maps paths to nodes and adds the visit of each longer path. */
  lemma {:induction false} NodesFollow(ids: IdScheme, after: Path -> Table<StackNode>, exe: I64, path: Path,
                                       fs: seq<Frame>, k: nat)
    requires k <= |fs|
    requires forall p, f :: after(p + [f]) == Upsert(NODES, after(p), Visit(ids, exe, p + [f]))
    ensures NodesAt(ids, after(path), exe, path, fs, k) == after(path + fs[..k])
  {
    if k == 0 {
      assert path + fs[..0] == path;
    } else {
      NodesFollow(ids, after, exe, path, fs, k - 1);
      OneFrameMore(path, fs, k - 1);
      NodesAtNext(ids, after(path), exe, path, fs, k - 1);
    }
  }

  lemma {:induction false} NodesVisited(ids: IdScheme, args: Args, done: seq<Sample>, path: Path, fs: seq<Frame>)
    ensures NodesAt(ids, NodesAfter(ids, args, done, path), ids.exe(args), path, fs, |fs|)
         == NodesAfter(ids, args, done, path + fs)
  {
    var after := (p: Path) => NodesAfter(ids, args, done, p);
    forall p, f ensures after(p + [f]) == Upsert(NODES, after(p), Visit(ids, ids.exe(args), p + [f])) {
      NodesAfterMore(ids, args, done, p, f);
    }
    NodesFollow(ids, after, ids.exe(args), path, fs, |fs|);
    assert fs[..|fs|] == fs;
  }

  /** Folds the frames inlined at one address into the two maps, in order. */
  method ProcessStack(caches: IdCaches, ghost args: Args, ghost done: seq<Sample>, ghost above: Path, ghost below: Path,
                      exe: I64, stack: Address,
                      frames0: Table<StackNodeData>, nodes0: Table<StackNode>, parent0: Option<I64>)
    returns (frames: Table<StackNodeData>, nodes: Table<StackNode>, parent: Option<I64>)
    requires caches.Valid() && exe == caches.ids.exe(args) && parent0 == PathId(caches.ids, exe, above)
    requires frames0 == FramesAfter(caches.ids, args, done, above)
    requires nodes0 == NodesAfter(caches.ids, args, done, above)
    requires below == above + stack.frames
    modifies caches
    ensures caches.Valid() && parent == PathId(caches.ids, exe, below)
    ensures frames == FramesAfter(caches.ids, args, done, below)
    ensures nodes == NodesAfter(caches.ids, args, done, below)
  {
    var fs := stack.frames;
    frames, nodes, parent := VisitAll(caches, exe, above, fs, frames0, nodes0, parent0);
    assert above + fs[..|fs|] == below;
    ParentVisited(caches.ids, exe, above, fs, |fs|);
    FramesVisited(caches.ids, args, done, above, fs, |fs|);
    NodesVisited(caches.ids, args, done, above, fs);
  }

  method VisitNext(caches: IdCaches, exe: I64, ghost path: Path, fs: seq<Frame>, k: nat,
                   ghost frames0: Table<StackNodeData>, ghost nodes0: Table<StackNode>,
                   frames: Table<StackNodeData>, nodes: Table<StackNode>, parent: Option<I64>)
    returns (frames': Table<StackNodeData>, nodes': Table<StackNode>, parent': Option<I64>)
    requires caches.Valid() && k < |fs| && parent == ParentAt(caches.ids, exe, path, fs, k)
    requires frames == FramesAt(caches.ids, frames0, fs, k) && nodes == NodesAt(caches.ids, nodes0, exe, path, fs, k)
    modifies caches
    ensures caches.Valid() && parent' == ParentAt(caches.ids, exe, path, fs, k + 1)
    ensures frames' == FramesAt(caches.ids, frames0, fs, k + 1)
    ensures nodes' == NodesAt(caches.ids, nodes0, exe, path, fs, k + 1)
  {
    frames', nodes', parent' := VisitFrame(caches, exe, fs[k], parent, frames, nodes);
  }

  method VisitAll(caches: IdCaches, exe: I64, ghost path: Path, fs: seq<Frame>,
                  frames0: Table<StackNodeData>, nodes0: Table<StackNode>, parent0: Option<I64>)
    returns (frames: Table<StackNodeData>, nodes: Table<StackNode>, parent: Option<I64>)
    requires caches.Valid() && parent0 == PathId(caches.ids, exe, path)
    modifies caches
    ensures caches.Valid() && parent == ParentAt(caches.ids, exe, path, fs, |fs|)
    ensures frames == FramesAt(caches.ids, frames0, fs, |fs|)
    ensures nodes == NodesAt(caches.ids, nodes0, exe, path, fs, |fs|)
  {
    ghost var ids := caches.ids;
    frames, nodes, parent := frames0, nodes0, parent0;
    for k := 0 to |fs|
      invariant caches.Valid()
      invariant parent == ParentAt(ids, exe, path, fs, k)
      invariant frames == FramesAt(ids, frames0, fs, k)
      invariant nodes == NodesAt(ids, nodes0, exe, path, fs, k)
    {
      frames, nodes, parent := VisitNext(caches, exe, path, fs, k, frames0, nodes0, frames, nodes, parent);
    }
  }

  /** Folds a batch into the three maps and reads the payload off them. */
  method ProcessAndSink(caches: IdCaches, batch: Batch) returns (payload: StoData)
    requires caches.Valid()
    modifies caches
    ensures caches.Valid()
    ensures IsPayload(caches.ids, batch, payload)
  {
    ghost var ids := caches.ids;
    var args, samples := batch.args, batch.samples;
    var frames: Table<StackNodeData>, nodes: Table<StackNode>, executables: Table<Executable> := map[], map[], map[];
    var id := caches.MiscId(ProgramBytes(args));
    var executable := Executable(id, args.event, args.version, args.binary, 0, 0, 0);
    assert samples[..0] == [];
    for i := 0 to |samples|
      invariant caches.Valid()
      invariant frames == FramesAfter(ids, args, samples[..i], []) && nodes == NodesAfter(ids, args, samples[..i], [])
      invariant executables == ExecutablesAfter(ids, args, samples[..i], [])
    {
      frames, nodes, executables :=
        ProcessSample(caches, args, samples[..i], executable, samples[i], frames, nodes, executables);
      SampleComplete(ids, args, samples, i);
    }
    assert samples[..|samples|] == samples;
    var size: int := *;
    executables := AddProcessed(executables, executable.id, size);
    TablesComplete(ids, batch, size);
    var stackNodes := Values(NODES, nodes);
    var stackNodeDatas := Values(FRAMES, frames);
    var profiledBinaries := Values(EXECUTABLES, executables);
    payload := StoData(stackNodes, stackNodeDatas, profiledBinaries);
  }

  /** Once all samples have been visited the maps are the tables of the batch, each keyed by its rows' own ids. */
  lemma TablesComplete(ids: IdScheme, b: Batch, size: int)
    ensures FramesAfter(ids, b.args, b.samples, []) == FrameTable(ids, b) && KeyedBy(FRAMES, FrameTable(ids, b))
    ensures NodesAfter(ids, b.args, b.samples, []) == NodeTable(ids, b) && KeyedBy(NODES, NodeTable(ids, b))
    ensures AddProcessed(ExecutablesAfter(ids, b.args, b.samples, []), ids.exe(b.args), size)
      == ExecutableTable(ids, b, size)
    ensures KeyedBy(EXECUTABLES, ExecutableTable(ids, b, size))
  {
    var traces, rows := Traces(ids, b.args, b.samples), ExecutableRows(ids, b.args, b.samples);
    assert FrameRowsOf(ids, traces) + FrameRows(ids, []) == FrameRowsOf(ids, traces);
    assert VisitsOf(ids, traces) + Visits(ids, ids.exe(b.args), []) == VisitsOf(ids, traces);
    assert rows + SampleRows(ids, b.args, []) == rows;
    FramesAreLawful();
    NodesAreLawful();
    TallyProvenance(FRAMES, FrameRowsOf(ids, traces));
    TallyProvenance(NODES, VisitsOf(ids, traces));
    ExecutableTableKeyed(ids, b, size);
  }

  lemma ExecutableTableKeyed(ids: IdScheme, b: Batch, size: int)
    ensures KeyedBy(EXECUTABLES, ExecutableTable(ids, b, size))
  {
    var rows := ExecutableRows(ids, b.args, b.samples);
    ExecutablesAreLawful();
    TallyProvenance(EXECUTABLES, rows);
    var t, u := UpsertAll(EXECUTABLES, map[], rows), ExecutableTable(ids, b, size);
    forall k | k in u ensures EXECUTABLES.key(u[k]) == k {
      assert EXECUTABLES.key(t[k]) == k;
    }
  }
}
