/** The end-to-end claim: when all posts are finished, the flame graph of an executable is a lossless picture of its
    samples. */
module Lossless {
  import opened Defs
  import opened Ids
  import opened Paths
  import opened Batches
  import opened Payloads
  import opened Store
  import opened Clients
  import opened Trie
  import opened EndToEnd
  import opened Counters
  import opened Present
  import opened Picture

  /** The sampled stacks of executable e, root first, in the order of the batches. */
  function SampledStacks(ids: IdScheme, batches: seq<Batch>, e: I64): seq<Path> {
    PathsOf(TracesOf(ids, batches), e)
  }

  // ----- Stacks of joined runs -----

  lemma {:induction false} PathsOfAppend(xs: seq<Trace>, ys: seq<Trace>, e: I64)
    ensures PathsOf(xs + ys, e) == PathsOf(xs, e) + PathsOf(ys, e)
  {
    if ys == [] {
      assert xs + ys == xs;
    } else {
      assert (xs + ys)[..|xs + ys| - 1] == xs + ys[..|ys| - 1];
      PathsOfAppend(xs, ys[..|ys| - 1], e);
    }
  }

  lemma {:induction false} CountPrefixJoin(xs: seq<Path>, ys: seq<Path>, q: Path)
    ensures CountPrefix(xs + ys, q) == CountPrefix(xs, q) + CountPrefix(ys, q)
  {
    if ys == [] {
      assert xs + ys == xs;
    } else {
      assert (xs + ys)[..|xs + ys| - 1] == xs + ys[..|ys| - 1];
      CountPrefixJoin(xs, ys[..|ys| - 1], q);
    }
  }

  // ----- Posts without frames do not matter to the graph -----

  ghost predicate AllEmpty(paths: seq<Path>) {
    forall i :: 0 <= i < |paths| ==> paths[i] == []
  }

  lemma {:induction false} OneSampleMore(ids: IdScheme, args: Args, samples: seq<Sample>, sample: Sample, e: I64)
    ensures PathsOf(Traces(ids, args, samples + [sample]), e)
         == PathsOf(Traces(ids, args, samples), e) + if ids.exe(args) == e then [RootFirst(sample)] else []
  {
  }

  lemma {:induction false} FramelessSample(sample: Sample)
    requires FramesIn(sample) == 0
    ensures RootFirst(sample) == []
  {
    RootFirstLength(sample);
  }

  lemma BothEmpty(xs: seq<Path>, ys: seq<Path>)
    requires AllEmpty(xs) && AllEmpty(ys)
    ensures AllEmpty(xs + ys)
  {
  }

  lemma {:induction false} FramelessPaths(ids: IdScheme, args: Args, samples: seq<Sample>, e: I64)
    requires FrameCount(samples) == 0
    ensures AllEmpty(PathsOf(Traces(ids, args, samples), e))
  {
    if samples != [] {
      var before, last := samples[..|samples| - 1], samples[|samples| - 1];
      assert samples == before + [last];
      FramelessPaths(ids, args, before, e);
      FramelessSample(last);
      OneSampleMore(ids, args, before, last, e);
      BothEmpty(PathsOf(Traces(ids, args, before), e), if ids.exe(args) == e then [RootFirst(last)] else []);
    }
  }

  lemma {:induction false} EmptyPathsDoNotCount(paths: seq<Path>, q: Path)
    requires q != [] && AllEmpty(paths)
    ensures CountPrefix(paths, q) == 0 && multiset(paths)[q] == 0
  {
    if paths != [] {
      EmptyPathsDoNotCount(paths[..|paths| - 1], q);
      assert paths == paths[..|paths| - 1] + [[]];
    }
  }

  /** The stacks of one more batch. */
  lemma {:induction false} OneBatchMore(ids: IdScheme, batches: seq<Batch>, b: Batch, e: I64, q: Path)
    ensures var before, own := SampledStacks(ids, batches, e), PathsOf(Traces(ids, b.args, b.samples), e);
            var all := SampledStacks(ids, batches + [b], e);
            && CountPrefix(all, q) == CountPrefix(before, q) + CountPrefix(own, q)
            && multiset(all)[q] == multiset(before)[q] + multiset(own)[q]
  {
    assert (batches + [b])[..|batches|] == batches;
    PathsOfAppend(TracesOf(ids, batches), Traces(ids, b.args, b.samples), e);
    CountPrefixJoin(SampledStacks(ids, batches, e), PathsOf(Traces(ids, b.args, b.samples), e), q);
  }

  /** Batches with frames hold the same non-empty stacks as all batches. */
  lemma {:induction false} SelectedStacks(ids: IdScheme, batches: seq<Batch>, e: I64, q: Path)
    requires q != []
    ensures var some := SampledStacks(ids, Select(batches, WithFrames(batches)), e);
            var all := SampledStacks(ids, batches, e);
            CountPrefix(some, q) == CountPrefix(all, q) && multiset(some)[q] == multiset(all)[q]
  {
    if batches != [] {
      var n := |batches| - 1;
      var b := batches[n];
      SelectedStacks(ids, batches[..n], e, q);
      assert WithFrames(batches)[..n] == WithFrames(batches[..n]);
      var some := Select(batches[..n], WithFrames(batches[..n]));
      assert batches == batches[..n] + [b];
      OneBatchMore(ids, batches[..n], b, e, q);
      if FrameCount(b.samples) > 0 {
        assert Select(batches, WithFrames(batches)) == some + [b];
        OneBatchMore(ids, some, b, e, q);
      } else {
        assert Select(batches, WithFrames(batches)) == some;
        FramelessPaths(ids, b.args, b.samples, e);
        EmptyPathsDoNotCount(PathsOf(Traces(ids, b.args, b.samples), e), q);
      }
    }
  }

  // ----- The main theorem -----

  /** What a lossless flame graph shows of some stacks: a node at a path exactly when some stack starts with it, with
      the number of those stacks as its value; at each node the children's values leave over the number of stacks that
      end there; at the top the number of non-empty stacks; and, read back from the graph alone, exactly the non-empty
      stacks, each as often as it was sampled. */
  ghost predicate Shows(forest: seq<Flame>, stacks: seq<Path>) {
    && Deterministic(forest)
    && (forall p: Path :: p != [] ==> ShowsAt(forest, stacks, p))
    && SumValues(forest) == |stacks| - multiset(stacks)[[]]
    && Decode(forest) == multiset(stacks)[[] := 0]
  }

  ghost predicate ShowsAt(forest: seq<Flame>, stacks: seq<Path>, p: Path)
    requires p != []
  {
    var t := NodeAt(forest, p);
    && (t.Some? <==> CountPrefix(stacks, p) > 0)
    && (t.Some? ==>
          && t.value.frame == p[|p| - 1]
          && t.value.value == CountPrefix(stacks, p)
          && t.value.value - SumValues(Kids(t.value)) == multiset(stacks)[p])
  }

  /** Every trie of the stored stacks of e, in whatever order its siblings stand, shows all sampled stacks of e, once
      every post is finished. */
  lemma {:induction false} FinishedGraphsAreLossless(ids: IdScheme, batches: seq<Batch>, posts: seq<StoData>,
                                                     schedule: seq<nat>, e: I64, forest: seq<Flame>)
    requires Posted(ids, batches, posts) && AllFinished(Run(posts, schedule))
    requires IsTrie(forest, PathsOf(StoredTraces(ids, batches, Run(posts, schedule)), e))
    ensures Shows(forest, SampledStacks(ids, batches, e))
  {
    FinalProgress(ids, batches, posts, schedule);
    var some, all := SampledStacks(ids, Select(batches, WithFrames(batches)), e), SampledStacks(ids, batches, e);
    TriesShow(forest, some);
    forall q: Path | q != [] ensures SameStacks(some, all, q) {
      SelectedStacks(ids, batches, e, q);
    }
    ShowsAlike(forest, some, all);
  }

  ghost predicate SameStacks(xs: seq<Path>, ys: seq<Path>, q: Path) {
    CountPrefix(xs, q) == CountPrefix(ys, q) && multiset(xs)[q] == multiset(ys)[q]
  }

  /** Empty stacks do not show. */
  lemma ShowsAlike(forest: seq<Flame>, xs: seq<Path>, ys: seq<Path>)
    requires Shows(forest, xs) && forall q: Path :: q != [] ==> SameStacks(xs, ys, q)
    ensures Shows(forest, ys)
  {
    SameButEmpty(xs, ys);
    SameLengths(xs, ys);
    forall p: Path | p != [] ensures ShowsAt(forest, ys, p) {
      assert ShowsAt(forest, xs, p) && SameStacks(xs, ys, p);
    }
  }

  lemma SameButEmpty(xs: seq<Path>, ys: seq<Path>)
    requires forall q: Path :: q != [] ==> SameStacks(xs, ys, q)
    ensures multiset(xs)[[] := 0] == multiset(ys)[[] := 0]
  {
    var m, n := multiset(xs)[[] := 0], multiset(ys)[[] := 0];
    forall q: Path ensures m[q] == n[q] {
      assert q != [] ==> SameStacks(xs, ys, q);
    }
  }

  lemma SameLengths(xs: seq<Path>, ys: seq<Path>)
    requires multiset(xs)[[] := 0] == multiset(ys)[[] := 0]
    ensures |xs| - multiset(xs)[[]] == |ys| - multiset(ys)[[]]
  {
    assert |multiset(xs)| == |multiset(xs)[[] := 0]| + multiset(xs)[[]];
    assert |multiset(ys)| == |multiset(ys)[[] := 0]| + multiset(ys)[[]];
  }

  /** Pictures do not tell stacks apart that only differ in empty ones. */
  lemma {:induction false} DepictsAlike(answer: D3FlamegraphData, basename: Text, xs: seq<Path>, ys: seq<Path>)
    requires Depicts(answer, basename, xs) && forall q: Path :: q != [] ==> SameStacks(xs, ys, q)
    ensures Depicts(answer, basename, ys)
  {
    var list := answer.children.list;
    SameButEmpty(xs, ys);
    SameLengths(xs, ys);
    forall p: Path | p != [] ensures DepictsAlong(list, ys, p) {
      assert DepictsAlong(list, xs, p) && SameStacks(xs, ys, p);
      forall f ensures CountPrefix(xs, p + [f]) == CountPrefix(ys, p + [f]) {
        assert SameStacks(xs, ys, p + [f]);
      }
      assert GoOn(xs, p) <==> GoOn(ys, p);
      assert forall d :: DepictsAt(d, xs, p) ==> DepictsAt(d, ys, p);
    }
  }

  /** So the answer to a reader who asks when every post is finished is a picture of all sampled stacks of e. */
  lemma {:induction false} FinishedAnswersAreLossless(ids: IdScheme, batches: seq<Batch>, posts: seq<StoData>,
                                                      schedule: seq<nat>, e: I64, answer: D3FlamegraphData,
                                                      basename: Text)
    requires Posted(ids, batches, posts) && AllFinished(Run(posts, schedule))
    requires Depicts(answer, basename, PathsOf(StoredTraces(ids, batches, Run(posts, schedule)), e))
    ensures Depicts(answer, basename, SampledStacks(ids, batches, e))
  {
    FinalProgress(ids, batches, posts, schedule);
    var some, all := SampledStacks(ids, Select(batches, WithFrames(batches)), e), SampledStacks(ids, batches, e);
    forall q: Path | q != [] ensures SameStacks(some, all, q) {
      SelectedStacks(ids, batches, e, q);
    }
    DepictsAlike(answer, basename, some, all);
  }

  lemma {:induction false} TriesShow(forest: seq<Flame>, stacks: seq<Path>)
    requires IsTrie(forest, stacks)
    ensures Shows(forest, stacks)
  {
    TriesAreDeterministic(forest, stacks);
    forall p: Path | p != [] ensures ShowsAt(forest, stacks, p) {
      TrieLookup(forest, stacks, p);
      if NodeAt(forest, p).Some? {
        TrieEnds(forest, stacks, p);
      }
    }
    TrieSums(forest, stacks);
    RoundTrip(forest, stacks);
  }
}
