/** What all posts leave behind in the end: the nodes and the frames are a function of the sampled stacks alone. */
module Outcomes {
  import opened Defs
  import opened Ids
  import opened Upserts
  import opened Paths
  import opened Batches
  import opened Payloads
  import opened Store
  import opened Clients
  import opened EndToEnd
  import opened Readback
  import opened Counters
  import opened Lossless

  // ----- Nodes -----

  /** How many sampled stacks of e start with q; none with the empty one. */
  ghost function Weight(ids: IdScheme, batches: seq<Batch>, e: I64, q: Path): nat {
    if q == [] then 0 else CountPrefix(SampledStacks(ids, batches, e), q)
  }

  /** The nodes are those of the sampled stacks. */
  ghost predicate NodesOf(ids: IdScheme, batches: seq<Batch>, nodes: Table<StackNode>) {
    && (forall e, q :: Weight(ids, batches, e, q) > 0 ==>
          && PathId(ids, e, q).value in nodes
          && nodes[PathId(ids, e, q).value] == Visit(ids, e, q).(sample_count := Weight(ids, batches, e, q)))
    && (forall i :: i in nodes ==> exists e, q :: Weight(ids, batches, e, q) > 0 && PathId(ids, e, q) == Some(i))
  }

  lemma {:induction false} FinishedWeight(ids: IdScheme, batches: seq<Batch>, posts: seq<StoData>, schedule: seq<nat>,
                                          e: I64, q: Path)
    requires Posted(ids, batches, posts) && AllFinished(Run(posts, schedule)) && q != []
    ensures var traces := StoredTraces(ids, batches, Run(posts, schedule));
            && (Occurs(traces, e, q) <==> Weight(ids, batches, e, q) > 0)
            && CountPrefix(PathsOf(traces, e), q) == Weight(ids, batches, e, q)
  {
    FinalProgress(ids, batches, posts, schedule);
    SelectedStacks(ids, batches, e, q);
    OccursIffCounted(StoredTraces(ids, batches, Run(posts, schedule)), e, q);
  }

  lemma {:induction false} FinishedNodes(ids: IdScheme, batches: seq<Batch>, posts: seq<StoData>, schedule: seq<nat>)
    requires Posted(ids, batches, posts) && AllFinished(Run(posts, schedule))
    requires CollisionFree(ids, TracesOf(ids, batches))
    ensures NodesOf(ids, batches, Run(posts, schedule).db.nodes)
  {
    var s := Run(posts, schedule);
    var traces := StoredTraces(ids, batches, s);
    SelectedCollisionFree(ids, batches, Have(s.progress, 3));
    StoredNodes(ids, batches, posts, schedule);
    TallyIsTrie(ids, traces);
    forall e, q: Path | q != []
      ensures Occurs(traces, e, q) <==> Weight(ids, batches, e, q) > 0
      ensures CountPrefix(PathsOf(traces, e), q) == Weight(ids, batches, e, q)
    {
      FinishedWeight(ids, batches, posts, schedule, e, q);
    }
    forall i | i in s.db.nodes ensures exists e, q :: Weight(ids, batches, e, q) > 0 && PathId(ids, e, q) == Some(i) {
      var e, q :| Occurs(traces, e, q) && PathId(ids, e, q) == Some(i);
      assert Weight(ids, batches, e, q) > 0;
    }
  }

  lemma NodesWithin(ids: IdScheme, batches: seq<Batch>, batches': seq<Batch>, m: Table<StackNode>, n: Table<StackNode>)
    requires forall e, q :: Weight(ids, batches, e, q) == Weight(ids, batches', e, q)
    requires NodesOf(ids, batches, m) && NodesOf(ids, batches', n)
    ensures forall i :: i in m ==> i in n && n[i] == m[i]
  {
    forall i | i in m ensures i in n && n[i] == m[i] {
      var e, q :| Weight(ids, batches, e, q) > 0 && PathId(ids, e, q) == Some(i);
      assert Weight(ids, batches', e, q) > 0;
    }
  }

  // ----- Frames -----

  /** The frames are those of the sampled stacks, each under its own id. */
  ghost predicate FramesOfStacks(ids: IdScheme, traces: seq<Trace>, frames: Table<StackNodeData>) {
    && (forall f :: FrameOccurs(traces, f) ==> ids.frame(f) in frames && frames[ids.frame(f)] == FrameRow(ids, f))
    && (forall k :: k in frames ==> FrameOccurs(traces, frames[k].frame) && frames[k] == FrameRow(ids, frames[k].frame)
                                    && frames[k].id == k)
  }

  lemma {:induction false} FinishedFrame(ids: IdScheme, batches: seq<Batch>, posts: seq<StoData>, schedule: seq<nat>,
                                         f: Frame)
    requires Posted(ids, batches, posts) && AllFinished(Run(posts, schedule))
    requires CollisionFree(ids, TracesOf(ids, batches)) && FrameOccurs(TracesOf(ids, batches), f)
    ensures var frames := Run(posts, schedule).db.frames;
            ids.frame(f) in frames && frames[ids.frame(f)] == FrameRow(ids, f)
  {
    var traces := TracesOf(ids, batches);
    var j :| 0 <= j < |traces| && f in traces[j].path;
    TracesOfMeaning(ids, batches);
    assert traces[j] in traces;
    var i :| 0 <= i < |batches| && traces[j] in Traces(ids, batches[i].args, batches[i].samples);
    var own := Traces(ids, batches[i].args, batches[i].samples);
    var l :| 0 <= l < |own| && own[l] == traces[j];
    assert FrameOccurs(own, f);
    FrameIsPosted(ids, batches[i], posts[i], f);
    PayloadHasFrames(ids, batches[i], posts[i]);
    FinalProgress(ids, batches, posts, schedule);
    StoredFrames(ids, batches, posts, schedule, i, f);
  }

  lemma {:induction false} FinishedFrames(ids: IdScheme, batches: seq<Batch>, posts: seq<StoData>, schedule: seq<nat>)
    requires Posted(ids, batches, posts) && AllFinished(Run(posts, schedule))
    requires CollisionFree(ids, TracesOf(ids, batches))
    ensures FramesOfStacks(ids, TracesOf(ids, batches), Run(posts, schedule).db.frames)
  {
    var traces, frames := TracesOf(ids, batches), Run(posts, schedule).db.frames;
    forall f | FrameOccurs(traces, f) ensures ids.frame(f) in frames && frames[ids.frame(f)] == FrameRow(ids, f) {
      FinishedFrame(ids, batches, posts, schedule, f);
    }
    PostedAreFromClients(ids, batches, posts);
    AlwaysContentKeyed(ids, posts, schedule);
    forall k | k in frames ensures FrameOccurs(traces, frames[k].frame) {
      var i := FramesFromPosts(posts, schedule, k);
      PostedFrameOccurs(ids, batches[i], posts[i], frames[k]);
      BatchFrameOccurs(ids, batches, i, frames[k].frame);
    }
  }

  lemma FramesWithin(ids: IdScheme, traces: seq<Trace>, traces': seq<Trace>, m: Table<StackNodeData>,
                     n: Table<StackNodeData>)
    requires forall t :: t in traces ==> t in traces'
    requires FramesOfStacks(ids, traces, m) && FramesOfStacks(ids, traces', n)
    ensures forall k :: k in m ==> k in n && n[k] == m[k]
  {
    forall k | k in m ensures k in n && n[k] == m[k] {
      var i :| 0 <= i < |traces| && m[k].frame in traces[i].path;
      assert traces[i] in traces';
      assert FrameOccurs(traces', m[k].frame);
    }
  }

  // ----- The order and the partition of the samples -----

  function Without(xs: seq<Trace>, j: nat): seq<Trace>
    requires j < |xs|
  {
    xs[..j] + xs[j + 1..]
  }

  lemma WithoutOne(xs: seq<Trace>, j: nat)
    requires j < |xs|
    ensures multiset(Without(xs, j)) == multiset(xs) - multiset{xs[j]}
  {
    assert xs == xs[..j] + [xs[j]] + xs[j + 1..];
  }

  lemma WeightWithoutOne(w: seq<Trace> -> int, xs: seq<Trace>, j: nat)
    requires forall a, b :: w(a + b) == w(a) + w(b)
    requires j < |xs|
    ensures w(xs) == w(Without(xs, j)) + w([xs[j]])
  {
    assert xs == xs[..j] + ([xs[j]] + xs[j + 1..]);
  }

  /** A weight of stacks that joined stacks add up does not depend on the order of the stacks. */
  lemma {:induction false} OrderDoesNotWeigh(w: seq<Trace> -> int, xs: seq<Trace>, ys: seq<Trace>)
    requires forall a, b :: w(a + b) == w(a) + w(b)
    requires multiset(xs) == multiset(ys)
    ensures w(xs) == w(ys)
    decreases |xs|
  {
    if xs == [] {
      assert |ys| == |multiset(ys)| == 0;
    } else {
      assert xs[0] in multiset(ys);
      var j :| 0 <= j < |ys| && ys[j] == xs[0];
      WithoutOne(xs, 0);
      WithoutOne(ys, j);
      WeightWithoutOne(w, xs, 0);
      WeightWithoutOne(w, ys, j);
      OrderDoesNotWeigh(w, Without(xs, 0), Without(ys, j));
    }
  }

  lemma {:induction false} StartingAdds(xs: seq<Trace>, ys: seq<Trace>, e: I64, q: Path)
    ensures CountPrefix(PathsOf(xs + ys, e), q) == CountPrefix(PathsOf(xs, e), q) + CountPrefix(PathsOf(ys, e), q)
  {
    PathsOfAppend(xs, ys, e);
    CountPrefixJoin(PathsOf(xs, e), PathsOf(ys, e), q);
  }

  /** How many stacks start with a path does not depend on their order. */
  lemma {:induction false} OrderDoesNotCount(xs: seq<Trace>, ys: seq<Trace>, e: I64, q: Path)
    requires multiset(xs) == multiset(ys)
    ensures CountPrefix(PathsOf(xs, e), q) == CountPrefix(PathsOf(ys, e), q)
  {
    var w := (traces: seq<Trace>) => CountPrefix(PathsOf(traces, e), q) as int;
    forall a, b ensures w(a + b) == w(a) + w(b) {
      StartingAdds(a, b, e, q);
    }
    OrderDoesNotWeigh(w, xs, ys);
  }

  lemma {:induction false} TracesOfAppend(ids: IdScheme, xs: seq<Batch>, ys: seq<Batch>)
    ensures TracesOf(ids, xs + ys) == TracesOf(ids, xs) + TracesOf(ids, ys)
  {
    if ys == [] {
      assert xs + ys == xs;
    } else {
      assert (xs + ys)[..|xs + ys| - 1] == xs + ys[..|ys| - 1];
      TracesOfAppend(ids, xs, ys[..|ys| - 1]);
    }
  }

  /** Cutting a batch in two, wherever it stands, leaves the sampled stacks as they are. */
  lemma {:induction false} CutBatch(ids: IdScheme, before: seq<Batch>, args: Args, xs: seq<Sample>, ys: seq<Sample>,
                                    after: seq<Batch>)
    ensures TracesOf(ids, before + [Batch(args, xs + ys)] + after)
         == TracesOf(ids, before + [Batch(args, xs), Batch(args, ys)] + after)
  {
    var whole, parts := [Batch(args, xs + ys)], [Batch(args, xs), Batch(args, ys)];
    TracesOfAppend(ids, before + whole, after);
    TracesOfAppend(ids, before, whole);
    TracesOfAppend(ids, before + parts, after);
    TracesOfAppend(ids, before, parts);
    assert parts == [parts[0]] + [parts[1]];
    TracesOfAppend(ids, [parts[0]], [parts[1]]);
    TracesAppend(ids, args, xs, ys);
    OneBatch(ids, whole[0]);
    OneBatch(ids, parts[0]);
    OneBatch(ids, parts[1]);
  }

  lemma {:induction false} OneBatch(ids: IdScheme, b: Batch)
    ensures TracesOf(ids, [b]) == Traces(ids, b.args, b.samples)
  {
    assert [b][..|[b]| - 1] == [];
  }

  /** Two deployments that sample the same stacks, in any order, cut into any batches and posted in any interleaving,
      end in the same nodes and frames. */
  lemma {:induction false} SamplesDecide(ids: IdScheme, batches: seq<Batch>, posts: seq<StoData>, schedule: seq<nat>,
                                         batches': seq<Batch>, posts': seq<StoData>, schedule': seq<nat>)
    requires multiset(TracesOf(ids, batches)) == multiset(TracesOf(ids, batches'))
    requires CollisionFree(ids, TracesOf(ids, batches))
    requires Posted(ids, batches, posts) && AllFinished(Run(posts, schedule))
    requires Posted(ids, batches', posts') && AllFinished(Run(posts', schedule'))
    ensures Run(posts, schedule).db.nodes == Run(posts', schedule').db.nodes
    ensures Run(posts, schedule).db.frames == Run(posts', schedule').db.frames
  {
    var traces, traces' := TracesOf(ids, batches), TracesOf(ids, batches');
    SameTraces(traces, traces');
    PartsCollisionFree(ids, traces', traces);
    forall e, q ensures Weight(ids, batches, e, q) == Weight(ids, batches', e, q) {
      OrderDoesNotCount(traces, traces', e, q);
    }
    FinishedNodes(ids, batches, posts, schedule);
    FinishedNodes(ids, batches', posts', schedule');
    SameNodes(ids, batches, batches', Run(posts, schedule).db.nodes, Run(posts', schedule').db.nodes);
    FinishedFrames(ids, batches, posts, schedule);
    FinishedFrames(ids, batches', posts', schedule');
    SameFrames(ids, traces, traces', Run(posts, schedule).db.frames, Run(posts', schedule').db.frames);
  }

  lemma SameTraces(xs: seq<Trace>, ys: seq<Trace>)
    requires multiset(xs) == multiset(ys)
    ensures forall t :: t in xs <==> t in ys
  {
    forall t ensures t in xs <==> t in ys {
      assert t in xs <==> t in multiset(xs);
      assert t in ys <==> t in multiset(ys);
    }
  }

  lemma SameNodes(ids: IdScheme, batches: seq<Batch>, batches': seq<Batch>, m: Table<StackNode>, n: Table<StackNode>)
    requires forall e, q :: Weight(ids, batches, e, q) == Weight(ids, batches', e, q)
    requires NodesOf(ids, batches, m) && NodesOf(ids, batches', n)
    ensures m == n
  {
    NodesWithin(ids, batches, batches', m, n);
    NodesWithin(ids, batches', batches, n, m);
  }

  lemma SameFrames(ids: IdScheme, traces: seq<Trace>, traces': seq<Trace>, m: Table<StackNodeData>,
                   n: Table<StackNodeData>)
    requires forall t :: t in traces <==> t in traces'
    requires FramesOfStacks(ids, traces, m) && FramesOfStacks(ids, traces', n)
    ensures m == n
  {
    FramesWithin(ids, traces, traces', m, n);
    FramesWithin(ids, traces', traces, n, m);
  }
}
