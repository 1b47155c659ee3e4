/** What a payload built from a batch guarantees to the server, collisions or not, and how tables of batches add up. */
module Payloads {
  import opened Defs
  import opened Ids
  import opened Upserts
  import opened Paths
  import opened Batches

  ghost predicate HasKey<R(!new)>(rule: Rule<R>, rows: seq<R>, k: I64) {
    exists i :: 0 <= i < |rows| && rule.key(rows[i]) == k
  }

  /** The references of a node row stay within the payload. */
  ghost predicate ReferencesWithin(p: StoData, r: StackNode) {
    && (r.parent_id.Some? ==> HasKey(NODES, p.stack_nodes, r.parent_id.value))
    && HasKey(FRAMES, p.stack_node_datas, r.stack_node_data_id)
    && HasKey(EXECUTABLES, p.profiled_binaries, r.executable_id)
  }

  /** No statement touches a row twice, all references are resolved within the payload, frames are stored under the
      ids of their contents, and there is at most one executable. */
  ghost predicate Closed(ids: IdScheme, p: StoData) {
    && DistinctKeys(NODES, p.stack_nodes)
    && DistinctKeys(FRAMES, p.stack_node_datas)
    && |p.profiled_binaries| <= 1
    && (forall r :: r in p.stack_node_datas ==> r == FrameRow(ids, r.frame))
    && (forall r :: r in p.stack_nodes ==> ReferencesWithin(p, r))
    && (p.stack_node_datas != [] ==> p.stack_nodes != [])
  }

  // ----- Which rows a batch visits -----

  lemma {:induction false} FrameRowsMeaning(ids: IdScheme, p: Path)
    ensures forall f :: f in p ==> FrameRow(ids, f) in FrameRows(ids, p)
    ensures forall r :: r in FrameRows(ids, p) ==> r.frame in p && r == FrameRow(ids, r.frame)
  {
    if p != [] {
      FrameRowsMeaning(ids, p[..|p| - 1]);
      assert p == p[..|p| - 1] + [p[|p| - 1]];
    }
  }

  lemma {:induction false} FrameRowsOfMeaning(ids: IdScheme, traces: seq<Trace>)
    ensures forall f :: FrameOccurs(traces, f) ==> FrameRow(ids, f) in FrameRowsOf(ids, traces)
    ensures forall r :: r in FrameRowsOf(ids, traces) ==> FrameOccurs(traces, r.frame) && r == FrameRow(ids, r.frame)
  {
    if traces != [] {
      var n := |traces| - 1;
      FrameRowsOfMeaning(ids, traces[..n]);
      FrameRowsMeaning(ids, traces[n].path);
      forall f | FrameOccurs(traces, f) ensures FrameRow(ids, f) in FrameRowsOf(ids, traces) {
        var i :| 0 <= i < |traces| && f in traces[i].path;
        assert i < n ==> traces[..n][i] == traces[i];
        assert i < n ==> FrameOccurs(traces[..n], f);
      }
      forall r | r in FrameRowsOf(ids, traces) ensures FrameOccurs(traces, r.frame) && r == FrameRow(ids, r.frame) {
        if r in FrameRowsOf(ids, traces[..n]) {
          var i :| 0 <= i < n && r.frame in traces[..n][i].path;
          assert r.frame in traces[i].path;
        } else {
          assert r.frame in traces[n].path;
        }
      }
    }
  }

  lemma {:induction false} TracesMeaning(ids: IdScheme, args: Args, samples: seq<Sample>)
    ensures |Traces(ids, args, samples)| == |samples|
    ensures forall i :: 0 <= i < |samples| ==>
              Traces(ids, args, samples)[i] == Trace(ids.exe(args), RootFirst(samples[i]))
  {
    if samples != [] {
      TracesMeaning(ids, args, samples[..|samples| - 1]);
    }
  }

  /** The executable of a batch, without any counts. */
  function Profiled(ids: IdScheme, args: Args): Executable {
    Executable(ids.exe(args), args.event, args.version, args.binary, 0, 0, 0)
  }

  lemma {:induction false} SampleRowsMeaning(ids: IdScheme, args: Args, sample: Sample)
    ensures |SampleRows(ids, args, sample)| == |sample|
    ensures forall r :: r in SampleRows(ids, args, sample) ==>
              r.id == ids.exe(args) && r.sample_count == 1 && EXECUTABLES.shape(r) == Profiled(ids, args)
  {
    if sample != [] {
      SampleRowsMeaning(ids, args, sample[1..]);
    }
  }

  lemma {:induction false} ExecutableRowsMeaning(ids: IdScheme, args: Args, samples: seq<Sample>)
    ensures forall r :: r in ExecutableRows(ids, args, samples) ==>
              r.id == ids.exe(args) && r.sample_count == 1 && EXECUTABLES.shape(r) == Profiled(ids, args)
    ensures (exists i :: 0 <= i < |samples| && samples[i] != []) ==> ExecutableRows(ids, args, samples) != []
  {
    if samples != [] {
      var n := |samples| - 1;
      ExecutableRowsMeaning(ids, args, samples[..n]);
      SampleRowsMeaning(ids, args, samples[n]);
      if i :| 0 <= i < |samples| && samples[i] != [] {
        assert i < n ==> samples[..n][i] != [];
      }
    }
  }

  // ----- Payload closure -----

  lemma EnumerationKeys<R(!new)>(rule: Rule<R>, rows: seq<R>, m: Table<R>, k: I64)
    requires Enumerates(rule, rows, m)
    ensures k in m <==> HasKey(rule, rows, k)
  {
  }

  /** A node visited by the batch has its parent, its frame and its executable in the batch's tables. */
  lemma {:induction false} VisitClosed(ids: IdScheme, b: Batch, processed: int, e: I64, q: Path)
    requires Occurs(Traces(ids, b.args, b.samples), e, q)
    ensures var v := Visit(ids, e, q);
            && (v.parent_id.Some? ==> v.parent_id.value in NodeTable(ids, b))
            && v.stack_node_data_id in FrameTable(ids, b)
            && v.executable_id in ExecutableTable(ids, b, processed)
  {
    var traces := Traces(ids, b.args, b.samples);
    var q0 := q[..|q| - 1];
    if q0 != [] {
      PrefixesOccur(traces, e, q, q0);
      NodeInTable(ids, b, e, q0);
    }
    LastFrameOccurs(traces, e, q);
    FrameInTable(ids, b, q[|q| - 1]);
    ExecutableInTable(ids, b, processed, e, q);
  }

  lemma {:induction false} NodeInTable(ids: IdScheme, b: Batch, e: I64, q: Path)
    requires Occurs(Traces(ids, b.args, b.samples), e, q)
    ensures PathId(ids, e, q).value in NodeTable(ids, b)
  {
    VisitOccurs(ids, Traces(ids, b.args, b.samples), e, q);
    TallyHas(NODES, VisitsOf(ids, Traces(ids, b.args, b.samples)), Visit(ids, e, q));
  }

  lemma {:induction false} FrameInTable(ids: IdScheme, b: Batch, f: Frame)
    requires FrameOccurs(Traces(ids, b.args, b.samples), f)
    ensures ids.frame(f) in FrameTable(ids, b)
  {
    FrameRowsOfMeaning(ids, Traces(ids, b.args, b.samples));
    TallyHas(FRAMES, FrameRowsOf(ids, Traces(ids, b.args, b.samples)), FrameRow(ids, f));
  }

  lemma {:induction false} ExecutableInTable(ids: IdScheme, b: Batch, processed: int, e: I64, q: Path)
    requires Occurs(Traces(ids, b.args, b.samples), e, q)
    ensures e == ids.exe(b.args) && e in ExecutableTable(ids, b, processed)
  {
    var traces, rows := Traces(ids, b.args, b.samples), ExecutableRows(ids, b.args, b.samples);
    TracesMeaning(ids, b.args, b.samples);
    var i :| 0 <= i < |traces| && traces[i].exe == e && q <= traces[i].path;
    assert b.samples[i] != [];
    ExecutableRowsMeaning(ids, b.args, b.samples);
    assert rows[0] in rows;
    TallyHas(EXECUTABLES, rows, rows[0]);
  }

  lemma {:induction false} TallyHas<R>(rule: Rule<R>, rows: seq<R>, r: R)
    requires r in rows
    ensures rule.key(r) in UpsertAll(rule, map[], rows)
  {
    var n := |rows| - 1;
    if r != rows[n] {
      TallyHas(rule, rows[..n], r);
    }
  }

  lemma NodeTableRow(ids: IdScheme, b: Batch, k: I64) returns (e: I64, q: Path)
    requires k in NodeTable(ids, b)
    ensures Occurs(Traces(ids, b.args, b.samples), e, q)
    ensures NodeTable(ids, b)[k].(sample_count := 0) == Visit(ids, e, q).(sample_count := 0)
  {
    var rows := VisitsOf(ids, Traces(ids, b.args, b.samples));
    NodesAreLawful();
    TallyProvenance(NODES, rows);
    var i :| 0 <= i < |rows| && NODES.key(rows[i]) == k && NODES.shape(rows[i]) == NODES.shape(NodeTable(ids, b)[k]);
    e, q := OnlyVisitsOccur(ids, Traces(ids, b.args, b.samples), rows[i]);
  }

  lemma {:induction false} FrameTableRow(ids: IdScheme, b: Batch, k: I64)
    requires k in FrameTable(ids, b)
    ensures var r := FrameTable(ids, b)[k];
            r == FrameRow(ids, r.frame) && r.id == k && FrameOccurs(Traces(ids, b.args, b.samples), r.frame)
  {
    var rows := FrameRowsOf(ids, Traces(ids, b.args, b.samples));
    FramesAreLawful();
    TallyProvenance(FRAMES, rows);
    FrameRowsOfMeaning(ids, Traces(ids, b.args, b.samples));
    var t := FrameTable(ids, b);
    var i :| 0 <= i < |rows| && FRAMES.key(rows[i]) == k && FRAMES.shape(rows[i]) == FRAMES.shape(t[k]);
    assert rows[i] in rows;
  }

  lemma ExecutableTableRow(ids: IdScheme, b: Batch, processed: int, k: I64)
    requires k in ExecutableTable(ids, b, processed)
    ensures k == ids.exe(b.args) && EXECUTABLES.shape(ExecutableTable(ids, b, processed)[k]) == Profiled(ids, b.args)
  {
    var rows := ExecutableRows(ids, b.args, b.samples);
    var t := UpsertAll(EXECUTABLES, map[], rows);
    ExecutablesAreLawful();
    TallyProvenance(EXECUTABLES, rows);
    ExecutableRowsMeaning(ids, b.args, b.samples);
    var i :| 0 <= i < |rows| && EXECUTABLES.key(rows[i]) == k && EXECUTABLES.shape(rows[i]) == EXECUTABLES.shape(t[k]);
    assert rows[i] in rows;
  }

  /** Every payload of the client is closed. Collisions do not matter: a node that another one shadows is still the
      node that its children name. */
  lemma PayloadsClosed(ids: IdScheme, b: Batch, p: StoData)
    requires IsPayload(ids, b, p)
    ensures Closed(ids, p)
  {
    var processed :| Enumerates(EXECUTABLES, p.profiled_binaries, ExecutableTable(ids, b, processed));
    forall r | r in p.stack_nodes ensures ReferencesWithin(p, r) {
      RowClosed(ids, b, p, processed, r);
    }
    forall r | r in p.stack_node_datas ensures r == FrameRow(ids, r.frame) {
      var i :| 0 <= i < |p.stack_node_datas| && p.stack_node_datas[i] == r;
      assert FRAMES.key(p.stack_node_datas[i]) in FrameTable(ids, b);
      FrameTableRow(ids, b, r.id);
    }
    if |p.profiled_binaries| > 1 {
      assert EXECUTABLES.key(p.profiled_binaries[0]) != EXECUTABLES.key(p.profiled_binaries[1]);
      ExecutableTableRow(ids, b, processed, p.profiled_binaries[0].id);
      ExecutableTableRow(ids, b, processed, p.profiled_binaries[1].id);
    }
    if p.stack_node_datas != [] {
      FramesComeWithNodes(ids, b, p);
    }
  }

  lemma RowClosed(ids: IdScheme, b: Batch, p: StoData, processed: int, r: StackNode)
    requires IsPayload(ids, b, p) && r in p.stack_nodes
    requires Enumerates(EXECUTABLES, p.profiled_binaries, ExecutableTable(ids, b, processed))
    ensures ReferencesWithin(p, r)
  {
    var i :| 0 <= i < |p.stack_nodes| && p.stack_nodes[i] == r;
    assert NODES.key(p.stack_nodes[i]) in NodeTable(ids, b);
    var e, q := NodeTableRow(ids, b, r.id);
    VisitClosed(ids, b, processed, e, q);
    if r.parent_id.Some? {
      EnumerationKeys(NODES, p.stack_nodes, NodeTable(ids, b), r.parent_id.value);
    }
    EnumerationKeys(FRAMES, p.stack_node_datas, FrameTable(ids, b), r.stack_node_data_id);
    EnumerationKeys(EXECUTABLES, p.profiled_binaries, ExecutableTable(ids, b, processed), r.executable_id);
  }

  lemma FramesComeWithNodes(ids: IdScheme, b: Batch, p: StoData)
    requires IsPayload(ids, b, p) && p.stack_node_datas != []
    ensures p.stack_nodes != []
  {
    var traces := Traces(ids, b.args, b.samples);
    assert FRAMES.key(p.stack_node_datas[0]) in FrameTable(ids, b);
    FrameTableRow(ids, b, p.stack_node_datas[0].id);
    var f := FrameTable(ids, b)[p.stack_node_datas[0].id].frame;
    var i :| 0 <= i < |traces| && f in traces[i].path;
    TraceOccurs(traces, traces[i]);
    VisitOccurs(ids, traces, traces[i].exe, traces[i].path);
    NodesAreLawful();
    TallyHas(NODES, VisitsOf(ids, traces), Visit(ids, traces[i].exe, traces[i].path));
    EnumerationKeys(NODES, p.stack_nodes, NodeTable(ids, b), Visit(ids, traces[i].exe, traces[i].path).id);
  }

  // ----- What becomes of one sample -----

  /** Behind how many frames of its sample frame j of address i comes. */
  function Position(sample: Sample, i: nat, j: nat): nat
    requires i < |sample|
  {
    FramesIn(sample[i + 1..]) + j
  }

  ghost predicate StandsAt(ids: IdScheme, rows: seq<StackNode>, sample: Sample, i: nat, j: nat)
    requires i < |sample| && j < |sample[i].frames|
  {
    var m := Position(sample, i, j);
    m < |rows| && rows[m].stack_node_data_id == ids.frame(sample[i].frames[j])
  }

  /** The rows stand for the frames of the sample: first those of the last address, and so on, and those of one address
      in their own order. */
  ghost predicate StandFor(ids: IdScheme, rows: seq<StackNode>, sample: Sample) {
    && |rows| == FramesIn(sample)
    && forall i: nat, j: nat :: i < |sample| && j < |sample[i].frames| ==> StandsAt(ids, rows, sample, i, j)
  }

  /** Each row is the parent of the next, and the first has none. */
  ghost predicate Chained(rows: seq<StackNode>) {
    forall m :: 0 <= m < |rows| ==> rows[m].parent_id == if m == 0 then None else Some(rows[m - 1].id)
  }

  lemma {:induction false} PathStandsFor(ids: IdScheme, rows: seq<StackNode>, sample: Sample)
    requires |rows| == |RootFirst(sample)|
    requires forall m :: 0 <= m < |rows| ==> rows[m].stack_node_data_id == ids.frame(RootFirst(sample)[m])
    ensures StandFor(ids, rows, sample)
  {
    RootFirstLength(sample);
    forall i: nat, j: nat | i < |sample| && j < |sample[i].frames| ensures StandsAt(ids, rows, sample, i, j) {
      RootFirstAt(sample, i, j);
      RootFirstLength(sample[i + 1..]);
    }
  }

  /** Without collisions the payload holds a chain of nodes for each sample, of the batch's executable. */
  lemma {:induction false} SampleIsPosted(ids: IdScheme, b: Batch, p: StoData, s: nat) returns (rows: seq<StackNode>)
    requires IsPayload(ids, b, p) && CollisionFree(ids, Traces(ids, b.args, b.samples)) && s < |b.samples|
    ensures StandFor(ids, rows, b.samples[s]) && Chained(rows)
    ensures forall m :: 0 <= m < |rows| ==> rows[m] in p.stack_nodes && rows[m].executable_id == ids.exe(b.args)
  {
    var path := RootFirst(b.samples[s]);
    rows := seq(|path|, m requires 0 <= m < |path| => PathRow(ids, b, path, m));
    forall m | 0 <= m < |path|
      ensures rows[m] in p.stack_nodes && rows[m].executable_id == ids.exe(b.args)
      ensures rows[m].parent_id == if m == 0 then None else Some(rows[m - 1].id)
      ensures rows[m].stack_node_data_id == ids.frame(path[m])
    {
      PathIsPosted(ids, b, p, s, m);
      PathRowParent(ids, b, path, m);
    }
    PathStandsFor(ids, rows, b.samples[s]);
  }

  /** The row of the first m + 1 frames of a path, with its count in the batch. */
  ghost function PathRow(ids: IdScheme, b: Batch, path: Path, m: nat): StackNode
    requires m < |path|
  {
    Visit(ids, ids.exe(b.args), path[..m + 1]).(sample_count :=
      CountPrefix(PathsOf(Traces(ids, b.args, b.samples), ids.exe(b.args)), path[..m + 1]))
  }

  lemma {:induction false} PathRowParent(ids: IdScheme, b: Batch, path: Path, m: nat)
    requires m < |path|
    ensures var r := PathRow(ids, b, path, m);
            && r.executable_id == ids.exe(b.args) && r.stack_node_data_id == ids.frame(path[m])
            && r.parent_id == if m == 0 then None else Some(PathRow(ids, b, path, m - 1).id)
  {
    assert path[..m + 1][..m] == path[..m];
  }

  lemma {:induction false} PathIsPosted(ids: IdScheme, b: Batch, p: StoData, s: nat, m: nat)
    requires IsPayload(ids, b, p) && CollisionFree(ids, Traces(ids, b.args, b.samples)) && s < |b.samples|
    requires m < |RootFirst(b.samples[s])|
    ensures PathRow(ids, b, RootFirst(b.samples[s]), m) in p.stack_nodes
  {
    var traces, e, q := Traces(ids, b.args, b.samples), ids.exe(b.args), RootFirst(b.samples[s])[..m + 1];
    TracesMeaning(ids, b.args, b.samples);
    assert traces[s].exe == e && q <= traces[s].path;
    assert Occurs(traces, e, q);
    TallyIsTrie(ids, traces);
    assert NodeTable(ids, b)[PathId(ids, e, q).value] in p.stack_nodes;
  }

  // ----- Batches add up -----

  lemma {:induction false} TracesAppend(ids: IdScheme, args: Args, xs: seq<Sample>, ys: seq<Sample>)
    ensures Traces(ids, args, xs + ys) == Traces(ids, args, xs) + Traces(ids, args, ys)
    ensures ExecutableRows(ids, args, xs + ys) == ExecutableRows(ids, args, xs) + ExecutableRows(ids, args, ys)
  {
    if ys == [] {
      assert xs + ys == xs;
    } else {
      assert (xs + ys)[..|xs + ys| - 1] == xs + ys[..|ys| - 1];
      TracesAppend(ids, args, xs, ys[..|ys| - 1]);
    }
  }

  lemma {:induction false} VisitsOfAppend(ids: IdScheme, xs: seq<Trace>, ys: seq<Trace>)
    ensures VisitsOf(ids, xs + ys) == VisitsOf(ids, xs) + VisitsOf(ids, ys)
  {
    if ys == [] {
      assert xs + ys == xs;
    } else {
      assert (xs + ys)[..|xs + ys| - 1] == xs + ys[..|ys| - 1];
      VisitsOfAppend(ids, xs, ys[..|ys| - 1]);
    }
  }

  lemma {:induction false} FrameRowsOfAppend(ids: IdScheme, xs: seq<Trace>, ys: seq<Trace>)
    ensures FrameRowsOf(ids, xs + ys) == FrameRowsOf(ids, xs) + FrameRowsOf(ids, ys)
  {
    if ys == [] {
      assert xs + ys == xs;
    } else {
      assert (xs + ys)[..|xs + ys| - 1] == xs + ys[..|ys| - 1];
      FrameRowsOfAppend(ids, xs, ys[..|ys| - 1]);
    }
  }

  lemma {:induction false} TallyAppend<R(!new)>(rule: Rule<R>, xs: seq<R>, ys: seq<R>)
    requires Lawful(rule)
    ensures UpsertAll(rule, map[], xs + ys)
         == Merge(rule, UpsertAll(rule, map[], xs), UpsertAll(rule, map[], ys))
  {
    UpsertAllAppend(rule, map[], xs, ys);
    UpsertAllIsMerge(rule, UpsertAll(rule, map[], xs), ys);
  }

  /** Cutting a run of samples into batches makes no difference: the tables of the parts, merged by the server's rule,
      are the tables of the whole. The processed size is set aside: it is not additive. */
  lemma BatchesAddUp(ids: IdScheme, args: Args, xs: seq<Sample>, ys: seq<Sample>)
    ensures NodeTable(ids, Batch(args, xs + ys))
         == Merge(NODES, NodeTable(ids, Batch(args, xs)), NodeTable(ids, Batch(args, ys)))
    ensures FrameTable(ids, Batch(args, xs + ys))
         == Merge(FRAMES, FrameTable(ids, Batch(args, xs)), FrameTable(ids, Batch(args, ys)))
    ensures ExecutableTable(ids, Batch(args, xs + ys), 0)
         == Merge(EXECUTABLES, ExecutableTable(ids, Batch(args, xs), 0), ExecutableTable(ids, Batch(args, ys), 0))
  {
    TracesAppend(ids, args, xs, ys);
    VisitsOfAppend(ids, Traces(ids, args, xs), Traces(ids, args, ys));
    FrameRowsOfAppend(ids, Traces(ids, args, xs), Traces(ids, args, ys));
    ExecutablesAddUp(ids, args, xs, ys);
    NodesAreLawful();
    TallyAppend(NODES, VisitsOf(ids, Traces(ids, args, xs)), VisitsOf(ids, Traces(ids, args, ys)));
    TallyAppend(FRAMES, FrameRowsOf(ids, Traces(ids, args, xs)), FrameRowsOf(ids, Traces(ids, args, ys)));
  }

  lemma {:induction false} NothingProcessed(ids: IdScheme, args: Args, samples: seq<Sample>)
    ensures ExecutableTable(ids, Batch(args, samples), 0)
      == UpsertAll(EXECUTABLES, map[], ExecutableRows(ids, args, samples))
  {
  }

  lemma ExecutablesAddUp(ids: IdScheme, args: Args, xs: seq<Sample>, ys: seq<Sample>)
    ensures ExecutableTable(ids, Batch(args, xs + ys), 0)
         == Merge(EXECUTABLES, ExecutableTable(ids, Batch(args, xs), 0), ExecutableTable(ids, Batch(args, ys), 0))
  {
    TracesAppend(ids, args, xs, ys);
    NothingProcessed(ids, args, xs);
    NothingProcessed(ids, args, ys);
    NothingProcessed(ids, args, xs + ys);
    ExecutablesAreLawful();
    TallyAppend(EXECUTABLES, ExecutableRows(ids, args, xs), ExecutableRows(ids, args, ys));
  }

  // ----- Conservation in a batch -----

  function AddressCount(samples: seq<Sample>): nat {
    if samples == [] then 0 else AddressCount(samples[..|samples| - 1]) + |samples[|samples| - 1]|
  }

  function FramesIn(sample: Sample): nat {
    if sample == [] then 0 else FramesIn(sample[1..]) + |sample[0].frames|
  }

  function FrameCount(samples: seq<Sample>): nat {
    if samples == [] then 0 else FrameCount(samples[..|samples| - 1]) + FramesIn(samples[|samples| - 1])
  }

  /** The raw sizes of all addresses. */
  function RawIn(sample: Sample): nat {
    if sample == [] then 0 else RawIn(sample[1..]) + sample[0].rawSize
  }

  function RawSize(samples: seq<Sample>): nat {
    if samples == [] then 0 else RawSize(samples[..|samples| - 1]) + RawIn(samples[|samples| - 1])
  }

  const NODE_COUNT: StackNode -> int := (r: StackNode) => r.sample_count

  /** The counters of one executable. */
  function CountFor(e: I64): Executable -> int {
    (r: Executable) => if r.id == e then r.sample_count else 0
  }

  function RawFor(e: I64): Executable -> int {
    (r: Executable) => if r.id == e then r.raw_data_size else 0
  }

  function ProcessedFor(e: I64): Executable -> int {
    (r: Executable) => if r.id == e then r.processed_data_size else 0
  }

  lemma {:induction false} SumOfOnes<R>(rows: seq<R>, weight: R -> int)
    requires forall r :: r in rows ==> weight(r) == 1
    ensures SumRows(rows, weight) == |rows|
  {
    if rows != [] {
      assert forall r :: r in rows[..|rows| - 1] ==> r in rows;
      SumOfOnes(rows[..|rows| - 1], weight);
    }
  }

  lemma {:induction false} VisitsAreFrames(ids: IdScheme, args: Args, samples: seq<Sample>)
    ensures |VisitsOf(ids, Traces(ids, args, samples))| == FrameCount(samples)
    ensures |ExecutableRows(ids, args, samples)| == AddressCount(samples)
  {
    if samples != [] {
      var n := |samples| - 1;
      VisitsAreFrames(ids, args, samples[..n]);
      var t := Trace(ids.exe(args), RootFirst(samples[n]));
      assert Traces(ids, args, samples)[..n]
        == Traces(ids, args, samples[..n]) by { TracesMeaning(ids, args, samples[..n]); }
      VisitsAt(ids, t.exe, t.path);
      RootFirstLength(samples[n]);
      SampleRowsMeaning(ids, args, samples[n]);
    }
  }

  lemma {:induction false} RootFirstLength(sample: Sample)
    ensures |RootFirst(sample)| == FramesIn(sample)
  {
    if sample != [] {
      RootFirstLength(sample[1..]);
    }
  }

  lemma WeightsAdditive(e: I64)
    ensures Additive(NODES, NODE_COUNT)
    ensures Additive(EXECUTABLES, CountFor(e)) && Additive(EXECUTABLES, RawFor(e))
    ensures Additive(EXECUTABLES, ProcessedFor(e))
  {
  }

  /** A payload counts every frame of its batch once, and every address with its raw size, also one without frames;
      collisions or not. */
  lemma {:induction false} PayloadConserves(ids: IdScheme, b: Batch, p: StoData, e: I64)
    requires IsPayload(ids, b, p)
    ensures SumRows(p.stack_nodes, NODE_COUNT) == FrameCount(b.samples)
    ensures SumRows(p.profiled_binaries, CountFor(e)) == if ids.exe(b.args) == e then AddressCount(b.samples) else 0
    ensures SumRows(p.profiled_binaries, RawFor(e)) == if ids.exe(b.args) == e then RawSize(b.samples) else 0
  {
    var processed :| Enumerates(EXECUTABLES, p.profiled_binaries, ExecutableTable(ids, b, processed));
    WeightsAdditive(e);
    EnumerationConserves(NODES, p.stack_nodes, NodeTable(ids, b), NODE_COUNT);
    EnumerationConserves(EXECUTABLES, p.profiled_binaries, ExecutableTable(ids, b, processed), CountFor(e));
    EnumerationConserves(EXECUTABLES, p.profiled_binaries, ExecutableTable(ids, b, processed), RawFor(e));
    NodeTableTotal(ids, b);
    ExecutableTableTotal(ids, b, processed, e);
  }

  lemma NodeTableTotal(ids: IdScheme, b: Batch)
    ensures Total(NodeTable(ids, b), NODE_COUNT) == FrameCount(b.samples)
  {
    var rows := VisitsOf(ids, Traces(ids, b.args, b.samples));
    WeightsAdditive(0);
    UpsertAllConserves(NODES, map[], rows, NODE_COUNT);
    forall r | r in rows ensures NODE_COUNT(r) == 1 {
      var _, _ := OnlyVisitsOccur(ids, Traces(ids, b.args, b.samples), r);
    }
    SumOfOnes(rows, NODE_COUNT);
    VisitsAreFrames(ids, b.args, b.samples);
  }

  lemma {:induction false} SumOfZeros<R>(rows: seq<R>, weight: R -> int)
    requires forall r :: r in rows ==> weight(r) == 0
    ensures SumRows(rows, weight) == 0
  {
    if rows != [] {
      assert forall r :: r in rows[..|rows| - 1] ==> r in rows;
      SumOfZeros(rows[..|rows| - 1], weight);
    }
  }

  lemma {:induction false} RowsCountFor(ids: IdScheme, b: Batch, e: I64)
    ensures SumRows(ExecutableRows(ids, b.args, b.samples), CountFor(e)) ==
            if ids.exe(b.args) == e then AddressCount(b.samples) else 0
  {
    var rows := ExecutableRows(ids, b.args, b.samples);
    ExecutableRowsMeaning(ids, b.args, b.samples);
    VisitsAreFrames(ids, b.args, b.samples);
    if ids.exe(b.args) == e {
      SumOfOnes(rows, CountFor(e));
    } else {
      SumOfZeros(rows, CountFor(e));
    }
  }

  lemma {:induction false} SumRowsAppend<R>(xs: seq<R>, ys: seq<R>, weight: R -> int)
    ensures SumRows(xs + ys, weight) == SumRows(xs, weight) + SumRows(ys, weight)
  {
    if ys == [] {
      assert xs + ys == xs;
    } else {
      assert (xs + ys)[..|xs + ys| - 1] == xs + ys[..|ys| - 1];
      SumRowsAppend(xs, ys[..|ys| - 1], weight);
    }
  }

  lemma {:induction false} SampleRowsRaw(ids: IdScheme, args: Args, sample: Sample, e: I64)
    ensures SumRows(SampleRows(ids, args, sample), RawFor(e)) == if ids.exe(args) == e then RawIn(sample) else 0
  {
    if sample != [] {
      SampleRowsRaw(ids, args, sample[1..], e);
    }
  }

  lemma {:induction false} RowsRawFor(ids: IdScheme, args: Args, samples: seq<Sample>, e: I64)
    ensures SumRows(ExecutableRows(ids, args, samples), RawFor(e)) ==
            if ids.exe(args) == e then RawSize(samples) else 0
  {
    if samples != [] {
      var n := |samples| - 1;
      RowsRawFor(ids, args, samples[..n], e);
      SampleRowsRaw(ids, args, samples[n], e);
      SumRowsAppend(ExecutableRows(ids, args, samples[..n]), SampleRows(ids, args, samples[n]), RawFor(e));
    }
  }

  lemma {:induction false} ProcessedDoesNotCount(t: Table<Executable>, id: I64, size: int, weight: Executable -> int)
    requires forall r: Executable, x :: weight(r.(processed_data_size := x)) == weight(r)
    ensures Total(AddProcessed(t, id, size), weight) == Total(t, weight)
  {
    if id in t {
      TotalUpdates(t, weight, id, t[id].(processed_data_size := t[id].processed_data_size + size));
    }
  }

  lemma {:induction false} ExecutableTableTotal(ids: IdScheme, b: Batch, processed: int, e: I64)
    ensures Total(ExecutableTable(ids, b, processed), CountFor(e)) ==
            if ids.exe(b.args) == e then AddressCount(b.samples) else 0
    ensures Total(ExecutableTable(ids, b, processed), RawFor(e)) ==
            if ids.exe(b.args) == e then RawSize(b.samples) else 0
  {
    var rows := ExecutableRows(ids, b.args, b.samples);
    RowsCountFor(ids, b, e);
    RowsRawFor(ids, b.args, b.samples, e);
    WeightsAdditive(e);
    UpsertAllConserves(EXECUTABLES, map[], rows, CountFor(e));
    UpsertAllConserves(EXECUTABLES, map[], rows, RawFor(e));
    ProcessedDoesNotCount(UpsertAll(EXECUTABLES, map[], rows), ids.exe(b.args), processed, CountFor(e));
    ProcessedDoesNotCount(UpsertAll(EXECUTABLES, map[], rows), ids.exe(b.args), processed, RawFor(e));
  }
}
