/** The whole pipeline, from the messages that the profiler receives to the answer to a reader: exactly the samples that
    the buffering thread hands off are shown. */
module Pipeline {
  import opened Defs
  import opened Ids
  import opened Paths
  import opened Batches
  import opened Store
  import opened Clients
  import opened Present
  import opened Picture
  import opened EndToEnd
  import opened Lossless
  import opened Receiver

  /** One thread sinks each buffer that has been handed off. */
  function Sinking(args: Args, buffers: seq<seq<Sample>>): seq<Batch> {
    seq(|buffers|, k requires 0 <= k < |buffers| => Batch(args, buffers[k]))
  }

  /** Of each 201 messages the last one is dropped. */
  predicate Dropped(position: nat) {
    position % 201 == 200
  }

  /** The messages that are not dropped. */
  function Kept<C>(chunks: seq<C>): seq<C> {
    if chunks == [] then []
    else
      var n := |chunks| - 1;
      Kept(chunks[..n]) + if Dropped(n) then [] else [chunks[n]]
  }

  /** The messages whose samples have been handed off: what has come since the last loss is still in the buffer. */
  function HandedOff<C>(chunks: seq<C>): seq<C> {
    Kept(chunks[..201 * (|chunks| / 201)])
  }

  /** The stacks of some messages, root first. */
  function MessageStacks<C>(symbolize: C -> Sample, chunks: seq<C>): seq<Path> {
    seq(|chunks|, i requires 0 <= i < |chunks| => RootFirst(symbolize(chunks[i])))
  }

  // ----- What is handed off -----

  lemma DroppedLast(k: nat)
    ensures forall n :: 201 * k <= n < 201 * k + 200 ==> !Dropped(n)
    ensures Dropped(201 * k + 200)
  {
    forall n | 201 * k <= n < 201 * k + 200 ensures !Dropped(n) {
      var r := n - 201 * k;
      assert n == 201 * k + r && 0 <= r < 200;
      assert n % 201 == r;
    }
  }

  lemma {:induction false} KeptStretch<C>(chunks: seq<C>, start: nat, r: nat)
    requires start + r <= |chunks|
    requires forall n :: start <= n < start + r ==> !Dropped(n)
    ensures Kept(chunks[..start + r]) == Kept(chunks[..start]) + chunks[start..start + r]
    decreases r
  {
    if r == 0 {
      assert chunks[start..start + r] == [];
    } else {
      var n := start + (r - 1);
      KeptStretch(chunks, start, r - 1);
      assert chunks[..n + 1][..n] == chunks[..n];
      assert chunks[start..n + 1] == chunks[start..n] + [chunks[n]];
    }
  }

  /** A cycle keeps its first 200 messages. */
  lemma KeptNext<C>(chunks: seq<C>, k: nat)
    requires 201 * (k + 1) <= |chunks|
    ensures Kept(chunks[..201 * (k + 1)]) == Kept(chunks[..201 * k]) + chunks[201 * k..201 * k + 200]
  {
    DroppedLast(k);
    KeptStretch(chunks, 201 * k, 200);
    LastDropped(chunks[..201 * (k + 1)]);
    assert chunks[..201 * (k + 1)][..201 * k + 200] == chunks[..201 * k + 200];
  }

  lemma {:induction false} LastDropped<C>(chunks: seq<C>)
    requires chunks != [] && Dropped(|chunks| - 1)
    ensures Kept(chunks) == Kept(chunks[..|chunks| - 1])
  {
  }

  lemma {:induction false} TracesAreStacks<C>(ids: IdScheme, args: Args, symbolize: C -> Sample, chunks: seq<C>)
    ensures PathsOf(Traces(ids, args, Symbolized(symbolize, chunks)), ids.exe(args)) == MessageStacks(symbolize, chunks)
  {
    if chunks != [] {
      var n := |chunks| - 1;
      TracesAreStacks(ids, args, symbolize, chunks[..n]);
      assert Symbolized(symbolize, chunks)[..n] == Symbolized(symbolize, chunks[..n]);
      assert Symbolized(symbolize, chunks) == Symbolized(symbolize, chunks[..n]) + [symbolize(chunks[n])];
      OneSampleMore(ids, args, Symbolized(symbolize, chunks[..n]), symbolize(chunks[n]), ids.exe(args));
      assert MessageStacks(symbolize, chunks)
        == MessageStacks(symbolize, chunks[..n]) + [RootFirst(symbolize(chunks[n]))];
    }
  }

  lemma MessageStacksAppend<C>(symbolize: C -> Sample, xs: seq<C>, ys: seq<C>)
    ensures MessageStacks(symbolize, xs + ys) == MessageStacks(symbolize, xs) + MessageStacks(symbolize, ys)
  {
  }

  /** The first k buffers hold the stacks of what is kept of the first k cycles. */
  lemma {:induction false} SunkStacks<C>(ids: IdScheme, args: Args, symbolize: C -> Sample, chunks: seq<C>,
                                         buffers: seq<seq<Sample>>, k: nat)
    requires k <= |buffers| && 201 * k <= |chunks|
    requires forall j :: 0 <= j < k ==> 201 * (j + 1) <= |chunks|
                                        && buffers[j] == Symbolized(symbolize, chunks[201 * j..201 * j + 200])
    ensures SampledStacks(ids, Sinking(args, buffers[..k]), ids.exe(args))
         == MessageStacks(symbolize, Kept(chunks[..201 * k]))
  {
    if k == 0 {
      assert chunks[..201 * 0] == [];
    } else {
      SunkStacks(ids, args, symbolize, chunks, buffers, k - 1);
      OneCycleMore(ids, args, symbolize, chunks, buffers, k - 1);
    }
  }

  lemma OneCycleMore<C>(ids: IdScheme, args: Args, symbolize: C -> Sample, chunks: seq<C>, buffers: seq<seq<Sample>>,
                        k: nat)
    requires k < |buffers| && 201 * (k + 1) <= |chunks|
    requires buffers[k] == Symbolized(symbolize, chunks[201 * k..201 * k + 200])
    requires SampledStacks(ids, Sinking(args, buffers[..k]), ids.exe(args))
          == MessageStacks(symbolize, Kept(chunks[..201 * k]))
    ensures SampledStacks(ids, Sinking(args, buffers[..k + 1]), ids.exe(args))
         == MessageStacks(symbolize, Kept(chunks[..201 * (k + 1)]))
  {
    var last := chunks[201 * k..201 * k + 200];
    OneBufferMore(ids, args, buffers, k);
    TracesAreStacks(ids, args, symbolize, last);
    KeptNext(chunks, k);
    MessageStacksAppend(symbolize, Kept(chunks[..201 * k]), last);
  }

  lemma {:induction false} OneBufferMore(ids: IdScheme, args: Args, buffers: seq<seq<Sample>>, k: nat)
    requires k < |buffers|
    ensures SampledStacks(ids, Sinking(args, buffers[..k + 1]), ids.exe(args))
         == SampledStacks(ids, Sinking(args, buffers[..k]), ids.exe(args))
            + PathsOf(Traces(ids, args, buffers[k]), ids.exe(args))
  {
    var more := Sinking(args, buffers[..k + 1]);
    assert more[..k] == Sinking(args, buffers[..k]);
    PathsOfAppend(TracesOf(ids, more[..k]), Traces(ids, args, buffers[k]), ids.exe(args));
  }

  /** The batches that are sunk hold the stacks of the messages handed off, in their order. */
  lemma {:induction false} BuffersHold<C>(ids: IdScheme, args: Args, symbolize: C -> Sample, chunks: seq<C>)
    ensures SampledStacks(ids, Sinking(args, After(symbolize, chunks).handedOff), ids.exe(args))
         == MessageStacks(symbolize, HandedOff(chunks))
  {
    var buffers, h := After(symbolize, chunks).handedOff, |chunks| / 201;
    BufferAccounting(symbolize, chunks);
    SunkStacks(ids, args, symbolize, chunks, buffers, h);
    assert buffers[..h] == buffers;
  }

  // ----- What is shown -----

  /** After n messages, once the posts of all buffers handed off are finished, the answer for the profiled program shows
      exactly the stacks of the messages at the positions below 201 * (n / 201) that are not 200 modulo 201: whatever
      the hash, the caches, the orders of maps and rows, and the interleaving, as long as no ids collide among what was
      sampled and no payload is too large. */
  lemma {:induction false} AnswersShowHandedOff<C>(ids: IdScheme, args: Args, symbolize: C -> Sample, chunks: seq<C>,
                                                   posts: seq<StoData>, schedule: seq<nat>, answer: D3FlamegraphData,
                                                   basename: Text)
    requires var batches := Sinking(args, After(symbolize, chunks).handedOff);
             Posted(ids, batches, posts) && CollisionFree(ids, TracesOf(ids, batches))
    requires AllFinished(Run(posts, schedule))
    requires DepictsCommitted(answer, basename, posts, Run(posts, schedule), ids.exe(args))
    ensures Depicts(answer, basename, MessageStacks(symbolize, HandedOff(chunks)))
  {
    var batches := Sinking(args, After(symbolize, chunks).handedOff);
    FinishedAnswersAreLossless(ids, batches, posts, schedule, ids.exe(args), answer, basename);
    BuffersHold(ids, args, symbolize, chunks);
  }
}
