/** What the counters come to: conservation from the samples to the rows, in every reachable state and at the end. */
module Counters {
  import opened Defs
  import opened Ids
  import opened Upserts
  import opened Paths
  import opened Batches
  import opened Payloads
  import opened Store
  import opened Protocol
  import opened Clients
  import opened Dag
  import opened EndToEnd

  // ----- Conservation from samples to rows -----

  function FramesOf(batches: seq<Batch>): nat {
    if batches == [] then 0
    else FramesOf(batches[..|batches| - 1]) + FrameCount(batches[|batches| - 1].samples)
  }

  /** The addresses sampled for executable e. */
  function AddressesOf(ids: IdScheme, batches: seq<Batch>, e: I64): nat {
    if batches == [] then 0
    else
      var b := batches[|batches| - 1];
      AddressesOf(ids, batches[..|batches| - 1], e) + if ids.exe(b.args) == e then AddressCount(b.samples) else 0
  }

  /** And the raw sizes of those addresses. */
  function RawOf(ids: IdScheme, batches: seq<Batch>, e: I64): nat {
    if batches == [] then 0
    else
      var b := batches[|batches| - 1];
      RawOf(ids, batches[..|batches| - 1], e) + if ids.exe(b.args) == e then RawSize(b.samples) else 0
  }

  lemma {:induction false} SelectLast(ids: IdScheme, batches: seq<Batch>, on: seq<bool>, e: I64)
    requires |on| == |batches| > 0
    ensures var n := |batches| - 1;
            var some := Select(batches[..n], on[..n]);
            && FramesOf(Select(batches, on)) == FramesOf(some) + (if on[n] then FrameCount(batches[n].samples) else 0)
            && AddressesOf(ids, Select(batches, on), e) == AddressesOf(ids, some, e) +
                 (if on[n] && ids.exe(batches[n].args) == e then AddressCount(batches[n].samples) else 0)
            && RawOf(ids, Select(batches, on), e) == RawOf(ids, some, e) +
                 if on[n] && ids.exe(batches[n].args) == e then RawSize(batches[n].samples) else 0
  {
    var n := |batches| - 1;
    var some := Select(batches[..n], on[..n]);
    assert (some + [batches[n]])[..|some|] == some;
    assert !on[n] ==> Select(batches, on) == some;
  }

  lemma {:induction false} PostedNodeSums(ids: IdScheme, batches: seq<Batch>, posts: seq<StoData>, on: seq<bool>)
    requires Posted(ids, batches, posts) && |on| == |batches|
    ensures SumPosted(PostedNodes(posts), on, NODE_COUNT) == FramesOf(Select(batches, on))
  {
    if posts != [] {
      var n := |posts| - 1;
      PostedNodeSums(ids, batches[..n], posts[..n], on[..n]);
      assert PostedNodes(posts)[..n] == PostedNodes(posts[..n]);
      PayloadConserves(ids, batches[n], posts[n], 0);
      SelectLast(ids, batches, on, 0);
    }
  }

  lemma {:induction false} PostedExecutableSums(ids: IdScheme, batches: seq<Batch>, posts: seq<StoData>,
                                                on: seq<bool>, e: I64)
    requires Sent(ids, batches, posts) && |on| == |batches|
    ensures SumPosted(PostedExecutables(posts), on, CountFor(e)) == AddressesOf(ids, Select(batches, on), e)
    ensures SumPosted(PostedExecutables(posts), on, RawFor(e)) == RawOf(ids, Select(batches, on), e)
  {
    if posts != [] {
      var n := |posts| - 1;
      PostedExecutableSums(ids, batches[..n], posts[..n], on[..n], e);
      assert PostedExecutables(posts)[..n] == PostedExecutables(posts[..n]);
      PayloadsClosed(ids, batches[n], posts[n]);
      PayloadConserves(ids, batches[n], posts[n], e);
      SelectLast(ids, batches, on, e);
    }
  }

  /** A weight that only one key has. */
  lemma {:induction false} TotalOfKey(t: Table<Executable>, weight: Executable -> int, e: I64)
    requires KeyedBy(EXECUTABLES, t) && forall r: Executable :: r.id != e ==> weight(r) == 0
    ensures Total(t, weight) == if e in t then weight(t[e]) else 0
    decreases t.Keys
  {
    if t != map[] {
      var k :| k in t;
      assert EXECUTABLES.key(t[k]) == k;
      TotalSplits(t, weight, k);
      TotalOfKey(t - {k}, weight, e);
    }
  }

  /** Collisions or not, in every reachable state the counters of an executable are the number and the raw size of its
      sampled addresses, those without frames included, in the posts that have committed their executables; and without
      truncation the node counters add up to the frames of the samples whose nodes are committed. */
  lemma {:induction false} AlwaysCounted(ids: IdScheme, batches: seq<Batch>, posts: seq<StoData>, schedule: seq<nat>,
                                         e: I64)
    requires Sent(ids, batches, posts)
    ensures var s := Run(posts, schedule);
            && (if e in s.db.executables then s.db.executables[e].sample_count else 0)
               == AddressesOf(ids, Select(batches, Have(s.progress, 2)), e)
            && (if e in s.db.executables then s.db.executables[e].raw_data_size else 0)
               == RawOf(ids, Select(batches, Have(s.progress, 2)), e)
            && (Posted(ids, batches, posts) ==>
                  Total(s.db.nodes, NODE_COUNT) == FramesOf(Select(batches, Have(s.progress, 3))))
  {
    var s := Run(posts, schedule);
    WeightsAdditive(e);
    AlwaysConserved(posts, schedule, NODE_COUNT, CountFor(e));
    AlwaysConserved(posts, schedule, NODE_COUNT, RawFor(e));
    PostedExecutableSums(ids, batches, posts, Have(s.progress, 2), e);
    TotalOfKey(s.db.executables, CountFor(e), e);
    TotalOfKey(s.db.executables, RawFor(e), e);
    if Posted(ids, batches, posts) {
      PostedNodeSums(ids, batches, posts, Have(s.progress, 3));
    }
  }

  /** Which batches reach the database: those that have a frame. */
  function WithFrames(batches: seq<Batch>): seq<bool> {
    seq(|batches|, i requires 0 <= i < |batches| => FrameCount(batches[i].samples) > 0)
  }

  lemma PayloadHasFrames(ids: IdScheme, b: Batch, p: StoData)
    requires IsPayload(ids, b, p)
    ensures p.stack_node_datas != [] <==> FrameCount(b.samples) > 0
  {
    PayloadsClosed(ids, b, p);
    PayloadConserves(ids, b, p, 0);
    if p.stack_nodes != [] {
      assert ReferencesWithin(p, p.stack_nodes[0]);
      VisitsAreFrames(ids, b.args, b.samples);
      assert NODES.key(p.stack_nodes[0]) in NodeTable(ids, b);
      var e, q := NodeTableRow(ids, b, NODES.key(p.stack_nodes[0]));
      VisitOccurs(ids, Traces(ids, b.args, b.samples), e, q);
    }
  }

  /** Once all posts are finished, those with a frame have committed everything and the others nothing. */
  lemma {:induction false} FinalProgress(ids: IdScheme, batches: seq<Batch>, posts: seq<StoData>, schedule: seq<nat>)
    requires Posted(ids, batches, posts) && AllFinished(Run(posts, schedule))
    ensures var p := Run(posts, schedule).progress;
            && (forall i :: 0 <= i < |p| ==>
                  p[i] == if WithFrames(batches)[i] then Progress(3, false) else Progress(0, true))
            && Have(p, 3) == Have(p, 2) == WithFrames(batches)
  {
    var s := Run(posts, schedule);
    PostedAreFromClients(ids, batches, posts);
    AlwaysHealthy(ids, posts, schedule);
    forall i | 0 <= i < |posts|
      ensures s.progress[i] == if WithFrames(batches)[i] then Progress(3, false) else Progress(0, true)
    {
      FinishedMeans(posts[i], s.progress[i], s.db);
      PayloadHasFrames(ids, batches[i], posts[i]);
    }
  }

  /** Truncated or not, once all posts are finished those with a frame have committed their executables. */
  lemma {:induction false} FinalExecutables(ids: IdScheme, batches: seq<Batch>, posts: seq<StoData>, schedule: seq<nat>)
    requires Sent(ids, batches, posts) && AllFinished(Run(posts, schedule))
    ensures Have(Run(posts, schedule).progress, 2) == WithFrames(batches)
  {
    var s := Run(posts, schedule);
    SentAreClosed(ids, batches, posts);
    AlwaysUnderWay(ids, posts, schedule);
    forall i | 0 <= i < |posts| ensures Have(s.progress, 2)[i] == WithFrames(batches)[i] {
      assert UnderWay(posts[i], s.progress[i]) && Finished(s.progress[i]);
      PayloadHasFrames(ids, batches[i], posts[i]);
    }
  }

  /** Once all posts are finished, the executables fall short: a post without frames fails at its first statement, and
      its addresses are never counted. Without truncation every frame of every sample is counted. */
  lemma {:induction false} FinallyCounted(ids: IdScheme, batches: seq<Batch>, posts: seq<StoData>, schedule: seq<nat>,
                                          e: I64)
    requires Sent(ids, batches, posts) && AllFinished(Run(posts, schedule))
    ensures var db := Run(posts, schedule).db;
            && (if e in db.executables then db.executables[e].sample_count else 0)
               == AddressesOf(ids, Select(batches, WithFrames(batches)), e)
            && (if e in db.executables then db.executables[e].raw_data_size else 0)
               == RawOf(ids, Select(batches, WithFrames(batches)), e)
            && (Posted(ids, batches, posts) ==> Total(db.nodes, NODE_COUNT) == FramesOf(batches))
  {
    FinalExecutables(ids, batches, posts, schedule);
    AlwaysCounted(ids, batches, posts, schedule, e);
    if Posted(ids, batches, posts) {
      FinalProgress(ids, batches, posts, schedule);
      FramesAllSelected(ids, batches);
    }
  }

  lemma {:induction false} FramesAllSelected(ids: IdScheme, batches: seq<Batch>)
    ensures FramesOf(Select(batches, WithFrames(batches))) == FramesOf(batches)
  {
    if batches != [] {
      var n := |batches| - 1;
      FramesAllSelected(ids, batches[..n]);
      assert WithFrames(batches)[..n] == WithFrames(batches[..n]);
      SelectLast(ids, batches, WithFrames(batches), 0);
    }
  }

  lemma {:induction false} SelectedAddresses(ids: IdScheme, batches: seq<Batch>, e: I64)
    ensures AddressesOf(ids, Select(batches, WithFrames(batches)), e) <= AddressesOf(ids, batches, e)
    ensures AddressesOf(ids, Select(batches, WithFrames(batches)), e) == AddressesOf(ids, batches, e) <==>
            forall i :: 0 <= i < |batches| && ids.exe(batches[i].args) == e && FrameCount(batches[i].samples) == 0 ==>
              AddressCount(batches[i].samples) == 0
  {
    if batches != [] {
      var n := |batches| - 1;
      SelectedAddresses(ids, batches[..n], e);
      assert WithFrames(batches)[..n] == WithFrames(batches[..n]);
      SelectLast(ids, batches, WithFrames(batches), e);
      assert forall i :: 0 <= i < n ==> batches[..n][i] == batches[i];
    }
  }

  /** Once all posts are finished, the counter of an executable is at most the number of its sampled addresses, and
      equal to it exactly when no batch of it has addresses but no frame. */
  lemma {:induction false} AddressesCountedExactly(ids: IdScheme, batches: seq<Batch>, posts: seq<StoData>,
                                                   schedule: seq<nat>, e: I64)
    requires Sent(ids, batches, posts) && AllFinished(Run(posts, schedule))
    ensures var executables := Run(posts, schedule).db.executables;
            var counted := if e in executables then executables[e].sample_count else 0;
            && counted <= AddressesOf(ids, batches, e)
            && (counted == AddressesOf(ids, batches, e) <==>
                forall i :: 0 <= i < |batches| && ids.exe(batches[i].args) == e &&
                            FrameCount(batches[i].samples) == 0 ==>
                  AddressCount(batches[i].samples) == 0)
  {
    FinallyCounted(ids, batches, posts, schedule, e);
    SelectedAddresses(ids, batches, e);
  }

  /** One sample with one address at which no frame is known. */
  const FRAMELESS: seq<Sample> := [[Address([], 0)]]

  /** The payload of that sample, whatever size is measured of it: no frames, no nodes, and the executable with one
      address. */
  function FramelessPayload(ids: IdScheme, args: Args, size: int): StoData {
    StoData([], [], [Executable(ids.exe(args), args.event, args.version, args.binary, 1, 0, size)])
  }

  lemma {:induction false} OneSample(ids: IdScheme, args: Args, sample: Sample)
    ensures Traces(ids, args, [sample]) == [Trace(ids.exe(args), RootFirst(sample))]
    ensures ExecutableRows(ids, args, [sample]) == SampleRows(ids, args, sample)
  {
    var samples := [sample];
    assert samples[..|samples| - 1] == [] && samples[|samples| - 1] == sample;
  }

  lemma {:induction false} EmptyStack(ids: IdScheme, e: I64)
    ensures VisitsOf(ids, [Trace(e, [])]) == [] && FrameRowsOf(ids, [Trace(e, [])]) == []
  {
    var traces := [Trace(e, [])];
    assert traces[..|traces| - 1] == [] && traces[|traces| - 1].path == [];
  }

  lemma FramelessTables(ids: IdScheme, args: Args)
    ensures NodeTable(ids, Batch(args, FRAMELESS)) == map[] && FrameTable(ids, Batch(args, FRAMELESS)) == map[]
  {
    var sample := FRAMELESS[0];
    assert FRAMELESS == [sample] && sample[1..] == [];
    OneSample(ids, args, sample);
    assert RootFirst(sample) == RootFirst(sample[1..]) + sample[0].frames == [];
    EmptyStack(ids, ids.exe(args));
  }

  lemma FramelessExecutable(ids: IdScheme, args: Args, size: int)
    ensures Enumerates(EXECUTABLES, FramelessPayload(ids, args, size).profiled_binaries,
                       ExecutableTable(ids, Batch(args, FRAMELESS), size))
  {
    var sample := FRAMELESS[0];
    assert FRAMELESS == [sample] && FRAMELESS[..0] == [] && sample[1..] == [];
    var row := ExecutableRow(ids, args, sample[0]);
    var rows := ExecutableRows(ids, args, FRAMELESS);
    OneSample(ids, args, sample);
    assert rows == SampleRows(ids, args, sample) == [row] && rows[..0] == [];
    assert UpsertAll(EXECUTABLES, map[], rows) == map[row.id := row];
  }

  lemma FramelessIsPayload(ids: IdScheme, args: Args, size: int)
    ensures IsPayload(ids, Batch(args, FRAMELESS), FramelessPayload(ids, args, size))
  {
    FramelessTables(ids, args);
    FramelessExecutable(ids, args, size);
  }

  /** Such a payload can be posted, and however it is carried out, its one sampled address is never counted. */
  lemma {:induction false} AddressesCanBeLost(ids: IdScheme, args: Args, size: int, schedule: seq<nat>)
    ensures var batches, posts := [Batch(args, FRAMELESS)], [FramelessPayload(ids, args, size)];
            && Posted(ids, batches, posts)
            && AddressesOf(ids, batches, ids.exe(args)) == 1
            && Run(posts, schedule).db == EMPTY
  {
    var batches, posts := [Batch(args, FRAMELESS)], [FramelessPayload(ids, args, size)];
    var sample := FRAMELESS[0];
    FramelessIsPayload(ids, args, size);
    assert Posted(ids, batches, posts);
    assert batches[..0] == [] && FRAMELESS == [sample] && FRAMELESS[..0] == [];
    assert AddressCount(FRAMELESS) == AddressCount([]) + |sample| == 1;
    NothingStored(posts, schedule);
  }

  lemma {:induction false} NothingStored(posts: seq<StoData>, schedule: seq<nat>)
    requires forall i :: 0 <= i < |posts| ==> posts[i].stack_node_datas == []
    ensures Run(posts, schedule).db == EMPTY
    ensures forall i :: 0 <= i < |posts| ==> Run(posts, schedule).progress[i].committed == 0
  {
    if schedule != [] {
      NothingStored(posts, schedule[..|schedule| - 1]);
    }
  }

  // ----- No counter is ever zero -----

  /** Counters are at least one. */
  ghost predicate Positive(db: Db) {
    && (forall k :: k in db.nodes ==> db.nodes[k].sample_count >= 1)
    && (forall k :: k in db.executables ==> db.executables[k].sample_count >= 1)
  }

  /** Every row of these posts counts something. */
  ghost predicate RowsPositive(posts: seq<StoData>) {
    forall i :: 0 <= i < |posts| ==>
      && (forall r :: r in posts[i].stack_nodes ==> r.sample_count >= 1)
      && (forall r :: r in posts[i].profiled_binaries ==> r.sample_count >= 1)
  }

  lemma {:induction false} NodeUpsertsPositive(t: Table<StackNode>, rows: seq<StackNode>)
    requires forall k :: k in t ==> t[k].sample_count >= 1
    requires forall r :: r in rows ==> r.sample_count >= 1
    ensures forall k :: k in UpsertAll(NODES, t, rows) ==> UpsertAll(NODES, t, rows)[k].sample_count >= 1
  {
    if rows != [] {
      assert forall r :: r in rows[..|rows| - 1] ==> r in rows;
      NodeUpsertsPositive(t, rows[..|rows| - 1]);
    }
  }

  lemma {:induction false} ExecutableUpsertsPositive(t: Table<Executable>, rows: seq<Executable>)
    requires forall k :: k in t ==> t[k].sample_count >= 1
    requires forall r :: r in rows ==> r.sample_count >= 1
    ensures forall k :: k in UpsertAll(EXECUTABLES, t, rows) ==> UpsertAll(EXECUTABLES, t, rows)[k].sample_count >= 1
  {
    if rows != [] {
      assert forall r :: r in rows[..|rows| - 1] ==> r in rows;
      ExecutableUpsertsPositive(t, rows[..|rows| - 1]);
    }
  }

  lemma {:induction false} RunsPositive(posts: seq<StoData>, schedule: seq<nat>)
    requires RowsPositive(posts)
    ensures Positive(Run(posts, schedule).db)
  {
    if schedule != [] {
      var n := |schedule| - 1;
      var was, i := Run(posts, schedule[..n]), schedule[n];
      RunsPositive(posts, schedule[..n]);
      if i < |posts| {
        NodeUpsertsPositive(was.db.nodes, Taken(posts[i].stack_nodes));
        ExecutableUpsertsPositive(was.db.executables, Taken(posts[i].profiled_binaries));
      }
    }
  }

  lemma PayloadNodesPositive(ids: IdScheme, b: Batch, p: StoData)
    requires IsPayload(ids, b, p)
    ensures forall r :: r in p.stack_nodes ==> r.sample_count >= 1
  {
    var visits := VisitsOf(ids, Traces(ids, b.args, b.samples));
    forall r | r in visits ensures r.sample_count >= 1 {
      var _, _ := OnlyVisitsOccur(ids, Traces(ids, b.args, b.samples), r);
    }
    NodeUpsertsPositive(map[], visits);
    forall r | r in p.stack_nodes ensures r.sample_count >= 1 {
      var i :| 0 <= i < |p.stack_nodes| && p.stack_nodes[i] == r;
      assert NODES.key(p.stack_nodes[i]) in NodeTable(ids, b);
    }
  }

  lemma ExecutableTablePositive(ids: IdScheme, b: Batch, processed: int)
    ensures forall k :: k in ExecutableTable(ids, b, processed) ==>
              ExecutableTable(ids, b, processed)[k].sample_count >= 1
  {
    ExecutableRowsMeaning(ids, b.args, b.samples);
    ExecutableUpsertsPositive(map[], ExecutableRows(ids, b.args, b.samples));
  }

  lemma PayloadExecutablesPositive(ids: IdScheme, b: Batch, p: StoData)
    requires IsPayload(ids, b, p)
    ensures forall r :: r in p.profiled_binaries ==> r.sample_count >= 1
  {
    var processed :| Enumerates(EXECUTABLES, p.profiled_binaries, ExecutableTable(ids, b, processed));
    ExecutableTablePositive(ids, b, processed);
    forall r | r in p.profiled_binaries ensures r.sample_count >= 1 {
      var i :| 0 <= i < |p.profiled_binaries| && p.profiled_binaries[i] == r;
      assert EXECUTABLES.key(p.profiled_binaries[i]) in ExecutableTable(ids, b, processed);
    }
  }

  /** In every reachable state of clients' posts, truncated or not and with any collisions, counters are at least
      one. */
  lemma {:induction false} AlwaysPositive(ids: IdScheme, batches: seq<Batch>, posts: seq<StoData>, schedule: seq<nat>)
    requires Sent(ids, batches, posts)
    ensures Positive(Run(posts, schedule).db)
  {
    forall i | 0 <= i < |posts|
      ensures forall r :: r in posts[i].stack_nodes ==> r.sample_count >= 1
      ensures forall r :: r in posts[i].profiled_binaries ==> r.sample_count >= 1
    {
      PayloadNodesPositive(ids, batches[i], posts[i]);
      PayloadExecutablesPositive(ids, batches[i], posts[i]);
    }
    RunsPositive(posts, schedule);
  }

  // ----- What truncation loses -----

  lemma {:induction false} PrefixWeighsLess(rows: seq<StackNode>, k: nat)
    requires k <= |rows| && forall r :: r in rows ==> r.sample_count >= 1
    ensures SumRows(rows[..k], NODE_COUNT) <= SumRows(rows, NODE_COUNT)
    ensures k < |rows| ==> SumRows(rows[..k], NODE_COUNT) < SumRows(rows, NODE_COUNT)
  {
    if k < |rows| {
      var n := |rows| - 1;
      PrefixWeighsLess(rows[..n], k);
      assert rows[..n][..k] == rows[..k];
      assert rows[n] in rows;
    } else {
      assert rows[..k] == rows;
    }
  }

  /** What the node statement takes counts all frames of the batch exactly when it takes all rows. */
  lemma TakenCounts(ids: IdScheme, b: Batch, p: StoData)
    requires IsPayload(ids, b, p)
    ensures SumRows(Taken(p.stack_nodes), NODE_COUNT) <= FrameCount(b.samples)
    ensures SumRows(Taken(p.stack_nodes), NODE_COUNT) == FrameCount(b.samples) <==> |p.stack_nodes| <= 16383
    ensures |p.stack_nodes| > 16383 ==> FrameCount(b.samples) > 0
  {
    PayloadConserves(ids, b, p, 0);
    PayloadNodesPositive(ids, b, p);
    var k := |Taken(p.stack_nodes)|;
    assert Taken(p.stack_nodes) == p.stack_nodes[..k];
    PrefixWeighsLess(p.stack_nodes, k);
    PrefixWeighsLess(p.stack_nodes, 0);
  }

  /** A post that has a frame has committed its nodes, all of them. */
  predicate Complete(b: Batch, p: StoData, on: bool) {
    if on then |p.stack_nodes| <= 16383 else FrameCount(b.samples) == 0
  }

  ghost predicate AllComplete(batches: seq<Batch>, posts: seq<StoData>, on: seq<bool>)
    requires |posts| == |batches| == |on|
  {
    forall i :: 0 <= i < |posts| ==> Complete(batches[i], posts[i], on[i])
  }

  lemma CompleteLast(batches: seq<Batch>, posts: seq<StoData>, on: seq<bool>)
    requires |posts| == |batches| == |on| > 0
    ensures var n := |posts| - 1;
            AllComplete(batches, posts, on) <==>
            AllComplete(batches[..n], posts[..n], on[..n]) && Complete(batches[n], posts[n], on[n])
  {
    var n := |posts| - 1;
    if AllComplete(batches[..n], posts[..n], on[..n]) && Complete(batches[n], posts[n], on[n]) {
      forall i | 0 <= i < |posts| ensures Complete(batches[i], posts[i], on[i]) {
        assert i < n ==> Complete(batches[..n][i], posts[..n][i], on[..n][i]);
      }
    }
  }

  lemma {:induction false} PostedNodesLast(batches: seq<Batch>, posts: seq<StoData>, on: seq<bool>)
    requires |posts| == |batches| == |on| > 0
    ensures var n := |posts| - 1;
            SumPosted(PostedNodes(posts), on, NODE_COUNT)
            == SumPosted(PostedNodes(posts[..n]), on[..n], NODE_COUNT)
               + (if on[n] then SumRows(Taken(posts[n].stack_nodes), NODE_COUNT) else 0)
  {
    var n := |posts| - 1;
    assert PostedNodes(posts)[..n] == PostedNodes(posts[..n]);
  }

  lemma {:induction false} PostedNodesFallShort(ids: IdScheme, batches: seq<Batch>, posts: seq<StoData>, on: seq<bool>)
    requires Sent(ids, batches, posts) && |on| == |batches|
    ensures SumPosted(PostedNodes(posts), on, NODE_COUNT) <= FramesOf(batches)
    ensures SumPosted(PostedNodes(posts), on, NODE_COUNT) == FramesOf(batches) <==> AllComplete(batches, posts, on)
  {
    if posts != [] {
      var n := |posts| - 1;
      PostedNodesFallShort(ids, batches[..n], posts[..n], on[..n]);
      PostedNodesLast(batches, posts, on);
      CompleteLast(batches, posts, on);
      TakenCounts(ids, batches[n], posts[n]);
    }
  }

  /** In every reachable state the node counters add up to at most all sampled frames, and to all of them exactly when
      each post with a frame has committed its nodes and none of these have been dropped. */
  lemma {:induction false} FramesCountedSoFar(ids: IdScheme, batches: seq<Batch>, posts: seq<StoData>,
                                              schedule: seq<nat>)
    requires Sent(ids, batches, posts)
    ensures var s := Run(posts, schedule);
            && Total(s.db.nodes, NODE_COUNT) <= FramesOf(batches)
            && (Total(s.db.nodes, NODE_COUNT) == FramesOf(batches) <==>
                AllComplete(batches, posts, Have(s.progress, 3)))
  {
    WeightsAdditive(0);
    AlwaysConserved(posts, schedule, NODE_COUNT, CountFor(0));
    PostedNodesFallShort(ids, batches, posts, Have(Run(posts, schedule).progress, 3));
  }

  /** So a post with more than 16383 nodes loses frames for ever, in every interleaving. */
  lemma {:induction false} TruncationLosesFrames(ids: IdScheme, batches: seq<Batch>, posts: seq<StoData>,
                                                 schedule: seq<nat>, i: nat)
    requires Sent(ids, batches, posts) && i < |posts| && |posts[i].stack_nodes| > 16383
    ensures Total(Run(posts, schedule).db.nodes, NODE_COUNT) < FramesOf(batches)
  {
    FramesCountedSoFar(ids, batches, posts, schedule);
    TakenCounts(ids, batches[i], posts[i]);
    assert !Complete(batches[i], posts[i], Have(Run(posts, schedule).progress, 3)[i]);
  }

  /** No post has more frames than nodes, unless they all fit. */
  ghost predicate FramesFit(posts: seq<StoData>) {
    forall i :: 0 <= i < |posts| ==>
      |posts[i].stack_node_datas| <= 16383 || |posts[i].stack_node_datas| <= |posts[i].stack_nodes|
  }

  /** Where frames fit, all frames are counted in the end exactly when no post has more than 16383 nodes. */
  lemma {:induction false} FramesCountedExactly(ids: IdScheme, batches: seq<Batch>, posts: seq<StoData>,
                                                schedule: seq<nat>)
    requires Sent(ids, batches, posts) && AllFinished(Run(posts, schedule)) && FramesFit(posts)
    ensures Total(Run(posts, schedule).db.nodes, NODE_COUNT) == FramesOf(batches) <==>
            forall i :: 0 <= i < |posts| ==> |posts[i].stack_nodes| <= 16383
  {
    if forall i :: 0 <= i < |posts| ==> |posts[i].stack_nodes| <= 16383 {
      assert Posted(ids, batches, posts);
      FinallyCounted(ids, batches, posts, schedule, 0);
    } else {
      var i :| 0 <= i < |posts| && |posts[i].stack_nodes| > 16383;
      TruncationLosesFrames(ids, batches, posts, schedule, i);
    }
  }

  // ----- Without collisions frames fit -----

  lemma {:induction false} DistinctKeysCount<R(!new)>(rule: Rule<R>, rows: seq<R>) returns (keys: set<I64>)
    requires DistinctKeys(rule, rows)
    ensures |keys| == |rows|
    ensures forall k :: k in keys <==> HasKey(rule, rows, k)
  {
    if rows == [] {
      keys := {};
    } else {
      var n := |rows| - 1;
      var rest := DistinctKeysCount(rule, rows[..n]);
      keys := rest + {rule.key(rows[n])};
      forall k ensures k in keys <==> HasKey(rule, rows, k) {
        HasKeyLast(rule, rows, k);
      }
      assert forall i :: 0 <= i < n ==> rule.key(rows[..n][i]) != rule.key(rows[n]);
    }
  }

  lemma HasKeyLast<R(!new)>(rule: Rule<R>, rows: seq<R>, k: I64)
    requires rows != []
    ensures var n := |rows| - 1; HasKey(rule, rows, k) <==> HasKey(rule, rows[..n], k) || rule.key(rows[n]) == k
  {
    var n := |rows| - 1;
    if HasKey(rule, rows[..n], k) {
      var i :| 0 <= i < n && rule.key(rows[..n][i]) == k;
      assert rule.key(rows[i]) == k;
    }
    if i :| 0 <= i < |rows| && rule.key(rows[i]) == k {
      assert i < n ==> rule.key(rows[..n][i]) == k;
    }
  }

  lemma {:induction false} DatasOf(nodes: seq<StackNode>) returns (datas: set<I64>)
    ensures |datas| <= |nodes|
    ensures forall r :: r in nodes ==> r.stack_node_data_id in datas
  {
    datas := {};
    if nodes != [] {
      var n := |nodes| - 1;
      var rest := DatasOf(nodes[..n]);
      datas := rest + {nodes[n].stack_node_data_id};
      assert nodes == nodes[..n] + [nodes[n]];
    }
  }

  /** Each frame of the payload is that of one of its nodes. */
  lemma {:induction false} FrameHasNode(ids: IdScheme, b: Batch, p: StoData, k: I64)
    requires IsPayload(ids, b, p) && CollisionFree(ids, Traces(ids, b.args, b.samples))
    requires HasKey(FRAMES, p.stack_node_datas, k)
    ensures exists r :: r in p.stack_nodes && r.stack_node_data_id == k
  {
    var traces := Traces(ids, b.args, b.samples);
    EnumerationKeys(FRAMES, p.stack_node_datas, FrameTable(ids, b), k);
    FrameTableRow(ids, b, k);
    var e, q := PathTo(traces, FrameTable(ids, b)[k].frame);
    var id := PathId(ids, e, q).value;
    TallyIsTrie(ids, traces);
    assert NodeTable(ids, b)[id] in p.stack_nodes;
  }

  lemma PathTo(traces: seq<Trace>, f: Frame) returns (e: I64, q: Path)
    requires FrameOccurs(traces, f)
    ensures Occurs(traces, e, q) && q[|q| - 1] == f
  {
    var i :| 0 <= i < |traces| && f in traces[i].path;
    var j :| 0 <= j < |traces[i].path| && traces[i].path[j] == f;
    e, q := traces[i].exe, traces[i].path[..j + 1];
    assert q <= traces[i].path;
  }

  lemma {:induction false} FramesAtMostNodes(ids: IdScheme, b: Batch, p: StoData)
    requires IsPayload(ids, b, p) && CollisionFree(ids, Traces(ids, b.args, b.samples))
    ensures |p.stack_node_datas| <= |p.stack_nodes|
  {
    var keys := DistinctKeysCount(FRAMES, p.stack_node_datas);
    var datas := DatasOf(p.stack_nodes);
    forall k | k in keys ensures k in datas {
      FrameHasNode(ids, b, p, k);
    }
    SubsetSize(keys, datas);
  }

  lemma {:induction false} CollisionFreeFits(ids: IdScheme, batches: seq<Batch>, posts: seq<StoData>)
    requires Sent(ids, batches, posts) && CollisionFree(ids, TracesOf(ids, batches))
    ensures FramesFit(posts)
  {
    TracesOfMeaning(ids, batches);
    forall i | 0 <= i < |posts| ensures |posts[i].stack_node_datas| <= |posts[i].stack_nodes| {
      PartsCollisionFree(ids, Traces(ids, batches[i].args, batches[i].samples), TracesOf(ids, batches));
      FramesAtMostNodes(ids, batches[i], posts[i]);
    }
  }
}
