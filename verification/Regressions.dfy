/** The SQL function findRegressions (migrations/20230305040305_init.up.sql:59-95), over the states that clients'
    posts lead to. The numeric quotients are exact here. */
module Regressions {
  import opened Defs
  import opened Ids
  import opened Upserts
  import opened Paths
  import opened Batches
  import opened Payloads
  import opened Store
  import opened Protocol
  import opened Clients
  import opened EndToEnd
  import opened Counters
  import opened Independence
  import opened Lossless
  import opened Outcomes

  /** The node counts of one executable at one frame. */
  function AtFrame(e: I64, d: I64): StackNode -> int {
    (r: StackNode) => if r.executable_id == e && r.stack_node_data_id == d then r.sample_count else 0
  }

  /** The group of e and d has a row: some node of e is at d, and both can be joined. */
  ghost predicate HasGroup(db: Db, e: I64, d: I64) {
    && e in db.executables && d in db.frames
    && exists k :: k in db.nodes && db.nodes[k].executable_id == e && db.nodes[k].stack_node_data_id == d
  }

  /** sum(sn.sample_count) / exe.sample_count. */
  ghost function Presence(db: Db, e: I64, d: I64): real
    requires e in db.executables && db.executables[e].sample_count != 0
  {
    Total(db.nodes, AtFrame(e, d)) as real / db.executables[e].sample_count as real
  }

  /** What findRegressions reports: the frame d is more present in b than in the older version a. */
  ghost predicate Reported(db: Db, createdAt: I64 -> int, start: int, a: I64, b: I64, d: I64)
    requires Positive(db)
  {
    && HasGroup(db, a, d) && HasGroup(db, b, d)
    && db.executables[a].basename == db.executables[b].basename
    && a != b
    && Presence(db, b, d) - Presence(db, a, d) > 0.0
    && createdAt(b) > createdAt(a)
    && createdAt(b) > start && createdAt(a) > start
  }

  ghost function PctDiff(db: Db, a: I64, b: I64, d: I64): real
    requires Positive(db) && HasGroup(db, a, d) && HasGroup(db, b, d) && Presence(db, a, d) != 0.0
  {
    (Presence(db, b, d) - Presence(db, a, d)) / Presence(db, a, d) * 100.0
  }

  // ----- No division by zero -----

  lemma {:induction false} TotalNonNegative(t: Table<StackNode>, e: I64, d: I64)
    requires forall k :: k in t ==> t[k].sample_count >= 1
    ensures Total(t, AtFrame(e, d)) >= 0
    decreases |t|
  {
    if t != map[] {
      var k :| k in t;
      TotalSplits(t, AtFrame(e, d), k);
      TotalNonNegative(t - {k}, e, d);
    }
  }

  lemma PresencePositive(db: Db, e: I64, d: I64)
    requires Positive(db) && HasGroup(db, e, d)
    ensures Presence(db, e, d) > 0.0
  {
    var k :| k in db.nodes && db.nodes[k].executable_id == e && db.nodes[k].stack_node_data_id == d;
    TotalSplits(db.nodes, AtFrame(e, d), k);
    TotalNonNegative(db.nodes - {k}, e, d);
    QuotientPositive(Total(db.nodes, AtFrame(e, d)) as real, db.executables[e].sample_count as real);
  }

  lemma QuotientPositive(x: real, y: real)
    requires x > 0.0 && y > 0.0
    ensures x / y > 0.0
  {
  }

  /** In every reachable state, truncated posts and collisions included, no division of findRegressions is by zero. */
  lemma {:induction false} NeverDividesByZero(ids: IdScheme, batches: seq<Batch>, posts: seq<StoData>,
                                              schedule: seq<nat>, e: I64, d: I64)
    requires Sent(ids, batches, posts)
    ensures Positive(Run(posts, schedule).db)
    ensures HasGroup(Run(posts, schedule).db, e, d) ==> Presence(Run(posts, schedule).db, e, d) > 0.0
  {
    AlwaysPositive(ids, batches, posts, schedule);
    if HasGroup(Run(posts, schedule).db, e, d) {
      PresencePositive(Run(posts, schedule).db, e, d);
    }
  }

  // ----- What the reports mean -----

  lemma GrowthCompounds(x: real, y: real, z: real)
    requires x > 0.0 && y > 0.0
    ensures (1.0 + (y - x) / x) * (1.0 + (z - y) / y) == 1.0 + (z - x) / x
    ensures z > y ==> (z - y) / y > 0.0
  {
  }

  /** Reports are positive and never go both ways; and along a chain of versions they compose: the changes multiply,
      and the change from the first to the last version is reported as well. */
  lemma ReportsCompose(db: Db, createdAt: I64 -> int, start: int, a: I64, b: I64, c: I64, d: I64)
    requires Positive(db) && Reported(db, createdAt, start, a, b, d)
    ensures Presence(db, a, d) > 0.0 && PctDiff(db, a, b, d) > 0.0
    ensures !Reported(db, createdAt, start, b, a, d)
    ensures Reported(db, createdAt, start, b, c, d) ==>
              && Presence(db, b, d) > 0.0
              && Reported(db, createdAt, start, a, c, d)
              && (1.0 + PctDiff(db, a, b, d) / 100.0) * (1.0 + PctDiff(db, b, c, d) / 100.0)
                 == 1.0 + PctDiff(db, a, c, d) / 100.0
  {
    PresencePositive(db, a, d);
    PresencePositive(db, b, d);
    GrowthCompounds(Presence(db, a, d), Presence(db, a, d), Presence(db, b, d));
    if Reported(db, createdAt, start, b, c, d) {
      GrowthCompounds(Presence(db, a, d), Presence(db, b, d), Presence(db, c, d));
    }
  }

  // ----- Ingesting everything several times -----

  function Repeat(batches: seq<Batch>, k: nat): seq<Batch> {
    if k == 0 then [] else Repeat(batches, k - 1) + batches
  }

  lemma {:induction false} PrefixCountsAppend(ids: IdScheme, xs: seq<Batch>, ys: seq<Batch>, e: I64, q: Path)
    ensures CountPrefix(SampledStacks(ids, xs + ys, e), q)
         == CountPrefix(SampledStacks(ids, xs, e), q) + CountPrefix(SampledStacks(ids, ys, e), q)
  {
    TracesOfAppend(ids, xs, ys);
    PathsOfAppend(TracesOf(ids, xs), TracesOf(ids, ys), e);
    CountPrefixJoin(SampledStacks(ids, xs, e), SampledStacks(ids, ys, e), q);
  }

  lemma OnceMore(k: nat, x: int, before: int, now: int)
    requires k > 0 && before == (k - 1) * x && now == before + x
    ensures now == k * x
  {
  }

  lemma {:induction false} RepeatedStacks(ids: IdScheme, batches: seq<Batch>, k: nat, e: I64, q: Path)
    ensures CountPrefix(SampledStacks(ids, Repeat(batches, k), e), q)
      == k * CountPrefix(SampledStacks(ids, batches, e), q)
  {
    if k > 0 {
      RepeatedStacks(ids, batches, k - 1, e, q);
      PrefixCountsAppend(ids, Repeat(batches, k - 1), batches, e, q);
      OnceMore(k, CountPrefix(SampledStacks(ids, batches, e), q),
               CountPrefix(SampledStacks(ids, Repeat(batches, k - 1), e), q),
               CountPrefix(SampledStacks(ids, Repeat(batches, k), e), q));
    }
  }

  lemma {:induction false} RepeatedCollisionFree(ids: IdScheme, batches: seq<Batch>, k: nat)
    requires CollisionFree(ids, TracesOf(ids, batches))
    ensures forall t :: t in TracesOf(ids, Repeat(batches, k)) ==> t in TracesOf(ids, batches)
    ensures CollisionFree(ids, TracesOf(ids, Repeat(batches, k)))
  {
    if k > 0 {
      RepeatedCollisionFree(ids, batches, k - 1);
      TracesOfAppend(ids, Repeat(batches, k - 1), batches);
    }
    PartsCollisionFree(ids, TracesOf(ids, Repeat(batches, k)), TracesOf(ids, batches));
  }

  /** The addresses that reach the database. */
  function Counted(ids: IdScheme, batches: seq<Batch>, e: I64): nat {
    AddressesOf(ids, Select(batches, WithFrames(batches)), e)
  }

  lemma CountedOneMore(ids: IdScheme, batches: seq<Batch>, b: Batch, e: I64)
    ensures Counted(ids, batches + [b], e) == Counted(ids, batches, e) +
              if FrameCount(b.samples) > 0 && ids.exe(b.args) == e then AddressCount(b.samples) else 0
  {
    var more := batches + [b];
    assert more[..|batches|] == batches;
    assert WithFrames(more)[..|batches|] == WithFrames(batches);
    SelectLast(ids, more, WithFrames(more), e);
  }

  lemma {:induction false} CountedAppend(ids: IdScheme, xs: seq<Batch>, ys: seq<Batch>, e: I64)
    ensures Counted(ids, xs + ys, e) == Counted(ids, xs, e) + Counted(ids, ys, e)
  {
    if ys == [] {
      assert xs + ys == xs;
    } else {
      var n := |ys| - 1;
      CountedAppend(ids, xs, ys[..n], e);
      CountedOneMore(ids, xs + ys[..n], ys[n], e);
      CountedOneMore(ids, ys[..n], ys[n], e);
      assert ys == ys[..n] + [ys[n]];
      assert xs + ys == xs + ys[..n] + [ys[n]];
    }
  }

  lemma {:induction false} RepeatedCounted(ids: IdScheme, batches: seq<Batch>, k: nat, e: I64)
    ensures Counted(ids, Repeat(batches, k), e) == k * Counted(ids, batches, e)
  {
    if k > 0 {
      RepeatedCounted(ids, batches, k - 1, e);
      CountedAppend(ids, Repeat(batches, k - 1), batches, e);
      OnceMore(k, Counted(ids, batches, e), Counted(ids, Repeat(batches, k - 1), e),
               Counted(ids, Repeat(batches, k), e));
    }
  }

  function Scaled(t: Table<StackNode>, k: nat): Table<StackNode> {
    map i | i in t :: t[i].(sample_count := k * t[i].sample_count)
  }

  lemma Times(k: nat, x: nat)
    requires k > 0
    ensures k * x > 0 <==> x > 0
  {
  }

  lemma {:induction false} RepeatedWeight(ids: IdScheme, batches: seq<Batch>, k: nat, e: I64, q: Path)
    requires k > 0
    ensures Weight(ids, Repeat(batches, k), e, q) == k * Weight(ids, batches, e, q)
    ensures Weight(ids, Repeat(batches, k), e, q) > 0 <==> Weight(ids, batches, e, q) > 0
  {
    RepeatedStacks(ids, batches, k, e, q);
    Times(k, Weight(ids, batches, e, q));
  }

  lemma {:induction false} ManyInOne(ids: IdScheme, batches: seq<Batch>, k: nat, one: Table<StackNode>,
                                     many: Table<StackNode>)
    requires k > 0 && NodesOf(ids, batches, one) && NodesOf(ids, Repeat(batches, k), many)
    ensures forall i :: i in many ==> i in one && many[i] == one[i].(sample_count := k * one[i].sample_count)
  {
    forall i | i in many ensures i in one && many[i] == one[i].(sample_count := k * one[i].sample_count) {
      var e, q :| Weight(ids, Repeat(batches, k), e, q) > 0 && PathId(ids, e, q) == Some(i);
      RepeatedWeight(ids, batches, k, e, q);
    }
  }

  lemma {:induction false} OneInMany(ids: IdScheme, batches: seq<Batch>, k: nat, one: Table<StackNode>,
                                     many: Table<StackNode>)
    requires k > 0 && NodesOf(ids, batches, one) && NodesOf(ids, Repeat(batches, k), many)
    ensures forall i :: i in one ==> i in many
  {
    forall i | i in one ensures i in many {
      var e, q :| Weight(ids, batches, e, q) > 0 && PathId(ids, e, q) == Some(i);
      RepeatedWeight(ids, batches, k, e, q);
    }
  }

  lemma {:induction false} NodesScale(ids: IdScheme, batches: seq<Batch>, k: nat, one: Table<StackNode>,
                                      many: Table<StackNode>)
    requires k > 0 && NodesOf(ids, batches, one) && NodesOf(ids, Repeat(batches, k), many)
    ensures many == Scaled(one, k)
  {
    ManyInOne(ids, batches, k, one, many);
    OneInMany(ids, batches, k, one, many);
    RowsScale(one, many, k);
  }

  lemma RowsScale(one: Table<StackNode>, many: Table<StackNode>, k: nat)
    requires forall i :: i in many ==> i in one && many[i] == one[i].(sample_count := k * one[i].sample_count)
    requires forall i :: i in one ==> i in many
    ensures many == Scaled(one, k)
  {
  }

  lemma ScaledWeight(r: StackNode, k: nat, e: I64, d: I64)
    ensures AtFrame(e, d)(r.(sample_count := k * r.sample_count)) == k * AtFrame(e, d)(r)
  {
  }

  lemma Distribute(k: int, x: int, y: int)
    ensures k * (x + y) == k * x + k * y
  {
  }

  lemma ScaledWithout(t: Table<StackNode>, k: nat, i: I64)
    ensures Scaled(t, k) - {i} == Scaled(t - {i}, k)
  {
  }

  lemma {:induction false} TotalScales(t: Table<StackNode>, k: nat, e: I64, d: I64)
    ensures Total(Scaled(t, k), AtFrame(e, d)) == k * Total(t, AtFrame(e, d))
    decreases t.Keys
  {
    var w := AtFrame(e, d);
    if t == map[] {
      assert Scaled(t, k) == map[];
    } else {
      var i :| i in t;
      TotalSplits(t, w, i);
      TotalSplits(Scaled(t, k), w, i);
      ScaledWithout(t, k, i);
      TotalScales(t - {i}, k, e, d);
      ScaledWeight(t[i], k, e, d);
      Distribute(k, w(t[i]), Total(t - {i}, w));
    }
  }

  /** The finished states of the two ingestions. */
  lemma {:induction false} ReingestingScales(ids: IdScheme, batches: seq<Batch>, k: nat, posts: seq<StoData>,
                                             schedule: seq<nat>, posts': seq<StoData>, schedule': seq<nat>, e: I64)
    requires k > 0 && CollisionFree(ids, TracesOf(ids, batches))
    requires Posted(ids, batches, posts) && AllFinished(Run(posts, schedule))
    requires Posted(ids, Repeat(batches, k), posts') && AllFinished(Run(posts', schedule'))
    ensures var one, many := Run(posts, schedule).db, Run(posts', schedule').db;
            && many.nodes == Scaled(one.nodes, k)
            && (if e in many.executables then many.executables[e].sample_count else 0)
               == k * (if e in one.executables then one.executables[e].sample_count else 0)
  {
    RepeatedCollisionFree(ids, batches, k);
    FinishedNodes(ids, batches, posts, schedule);
    FinishedNodes(ids, Repeat(batches, k), posts', schedule');
    NodesScale(ids, batches, k, Run(posts, schedule).db.nodes, Run(posts', schedule').db.nodes);
    FinallyCounted(ids, batches, posts, schedule, e);
    FinallyCounted(ids, Repeat(batches, k), posts', schedule', e);
    RepeatedCounted(ids, batches, k, e);
  }

  /** Posting every batch k times instead of once, in any interleaving, leaves the groups and each presence as they
      were. */
  lemma {:induction false} ReingestingChangesNothing(ids: IdScheme, batches: seq<Batch>, k: nat, posts: seq<StoData>,
                                                     schedule: seq<nat>, posts': seq<StoData>, schedule': seq<nat>,
                                                     e: I64, d: I64)
    requires k > 0 && CollisionFree(ids, TracesOf(ids, batches))
    requires Posted(ids, batches, posts) && AllFinished(Run(posts, schedule))
    requires Posted(ids, Repeat(batches, k), posts') && AllFinished(Run(posts', schedule'))
    ensures var one, many := Run(posts, schedule).db, Run(posts', schedule').db;
            && (HasGroup(one, e, d) <==> HasGroup(many, e, d))
            && (HasGroup(one, e, d) ==>
                  && one.executables[e].sample_count != 0 && many.executables[e].sample_count != 0
                  && Presence(one, e, d) == Presence(many, e, d))
  {
    var one, many := Run(posts, schedule).db, Run(posts', schedule').db;
    ReingestingScales(ids, batches, k, posts, schedule, posts', schedule', e);
    NeverDividesByZero(ids, batches, posts, schedule, e, d);
    NeverDividesByZero(ids, Repeat(batches, k), posts', schedule', e, d);
    AlwaysIntegrity(posts, schedule);
    AlwaysIntegrity(posts', schedule');
    ScaledDatabases(one, many, k, e, d);
  }

  /** Programs of one id have one name. They may have been sampled on different events. */
  ghost predicate NamesFaithful(ids: IdScheme, batches: seq<Batch>) {
    forall i, j :: 0 <= i < |batches| && 0 <= j < |batches| && SamePrograms(ids, batches[i], batches[j]) ==>
      batches[i].args.binary == batches[j].args.binary
  }

  lemma {:induction false} RepeatedBatches(batches: seq<Batch>, k: nat)
    ensures forall b :: b in Repeat(batches, k) ==> b in batches
  {
    if k > 0 {
      RepeatedBatches(batches, k - 1);
    }
  }

  lemma {:induction false} SameBasename(ids: IdScheme, batches: seq<Batch>, k: nat, posts: seq<StoData>,
                                        schedule: seq<nat>, posts': seq<StoData>, schedule': seq<nat>, e: I64)
    requires NamesFaithful(ids, batches) && Sent(ids, batches, posts) && Sent(ids, Repeat(batches, k), posts')
    requires e in Run(posts, schedule).db.executables && e in Run(posts', schedule').db.executables
    ensures Run(posts, schedule).db.executables[e].basename == Run(posts', schedule').db.executables[e].basename
  {
    var i := StoredProgram(ids, batches, posts, schedule, e);
    var j := StoredProgram(ids, Repeat(batches, k), posts', schedule', e);
    RepeatedBatches(batches, k);
    assert Repeat(batches, k)[j] in batches;
    var l :| 0 <= l < |batches| && batches[l] == Repeat(batches, k)[j];
    assert SamePrograms(ids, batches[i], batches[l]);
    assert EXECUTABLES.shape(Run(posts, schedule).db.executables[e]).basename == batches[i].args.binary;
    assert EXECUTABLES.shape(Run(posts', schedule').db.executables[e]).basename == batches[l].args.binary;
  }

  /** Two databases agree on the group of e and d, and on the name that e shows in it. */
  ghost predicate SameGroup(one: Db, many: Db, e: I64, d: I64)
    requires Positive(one) && Positive(many)
  {
    && (HasGroup(one, e, d) <==> HasGroup(many, e, d))
    && (HasGroup(one, e, d) ==>
          && Presence(one, e, d) == Presence(many, e, d)
          && one.executables[e].basename == many.executables[e].basename)
  }

  lemma {:induction false} ReingestingKeepsGroup(ids: IdScheme, batches: seq<Batch>, k: nat, posts: seq<StoData>,
                                                 schedule: seq<nat>, posts': seq<StoData>, schedule': seq<nat>, e: I64,
                                                 d: I64)
    requires k > 0 && CollisionFree(ids, TracesOf(ids, batches)) && NamesFaithful(ids, batches)
    requires Posted(ids, batches, posts) && AllFinished(Run(posts, schedule))
    requires Posted(ids, Repeat(batches, k), posts') && AllFinished(Run(posts', schedule'))
    ensures Positive(Run(posts, schedule).db) && Positive(Run(posts', schedule').db)
    ensures SameGroup(Run(posts, schedule).db, Run(posts', schedule').db, e, d)
  {
    NeverDividesByZero(ids, batches, posts, schedule, e, d);
    NeverDividesByZero(ids, Repeat(batches, k), posts', schedule', e, d);
    ReingestingChangesNothing(ids, batches, k, posts, schedule, posts', schedule', e, d);
    if HasGroup(Run(posts, schedule).db, e, d) {
      SameBasename(ids, batches, k, posts, schedule, posts', schedule', e);
    }
  }

  lemma SameReports(one: Db, many: Db, createdAt: I64 -> int, start: int, a: I64, b: I64, d: I64)
    requires Positive(one) && Positive(many) && SameGroup(one, many, a, d) && SameGroup(one, many, b, d)
    ensures Reported(one, createdAt, start, a, b, d) <==> Reported(many, createdAt, start, a, b, d)
    ensures Reported(one, createdAt, start, a, b, d) ==>
              && Presence(one, a, d) != 0.0 && Presence(many, a, d) != 0.0
              && PctDiff(one, a, b, d) == PctDiff(many, a, b, d)
  {
    if HasGroup(one, a, d) {
      PresencePositive(one, a, d);
    }
  }

  /** So findRegressions does not mind repeated ingestion: what it reports, and by how much, stays the same. The order
      of the posts may decide which of several names of one id an executable shows, so this asks for one name. */
  lemma {:induction false} ReingestingKeepsReports(ids: IdScheme, batches: seq<Batch>, k: nat, posts: seq<StoData>,
                                                   schedule: seq<nat>, posts': seq<StoData>, schedule': seq<nat>,
                                                   createdAt: I64 -> int, start: int, a: I64, b: I64, d: I64)
    requires k > 0 && CollisionFree(ids, TracesOf(ids, batches)) && NamesFaithful(ids, batches)
    requires Posted(ids, batches, posts) && AllFinished(Run(posts, schedule))
    requires Posted(ids, Repeat(batches, k), posts') && AllFinished(Run(posts', schedule'))
    ensures var one, many := Run(posts, schedule).db, Run(posts', schedule').db;
            && Positive(one) && Positive(many)
            && (Reported(one, createdAt, start, a, b, d) <==> Reported(many, createdAt, start, a, b, d))
            && (Reported(one, createdAt, start, a, b, d) ==>
                  && Presence(one, a, d) != 0.0 && Presence(many, a, d) != 0.0
                  && PctDiff(one, a, b, d) == PctDiff(many, a, b, d))
  {
    ReingestingKeepsGroup(ids, batches, k, posts, schedule, posts', schedule', a, d);
    ReingestingKeepsGroup(ids, batches, k, posts, schedule, posts', schedule', b, d);
    SameReports(Run(posts, schedule).db, Run(posts', schedule').db, createdAt, start, a, b, d);
  }

  lemma ScaledDatabases(one: Db, many: Db, k: nat, e: I64, d: I64)
    requires k > 0 && Integrity(one) && Integrity(many) && Positive(one) && Positive(many)
    requires many.nodes == Scaled(one.nodes, k)
    requires (if e in many.executables then many.executables[e].sample_count else 0)
          == k * (if e in one.executables then one.executables[e].sample_count else 0)
    ensures HasGroup(one, e, d) <==> HasGroup(many, e, d)
    ensures HasGroup(one, e, d) ==> Presence(one, e, d) == Presence(many, e, d)
  {
    SameGroups(one, many, k, e, d);
    if HasGroup(one, e, d) {
      TotalScales(one.nodes, k, e, d);
      SameQuotient(Total(one.nodes, AtFrame(e, d)), one.executables[e].sample_count, k);
    }
  }

  lemma SameGroups(one: Db, many: Db, k: nat, e: I64, d: I64)
    requires Integrity(one) && Integrity(many) && many.nodes == Scaled(one.nodes, k)
    requires e in one.executables <==> e in many.executables
    ensures HasGroup(one, e, d) <==> HasGroup(many, e, d)
  {
    if HasGroup(one, e, d) {
      var i :| i in one.nodes && one.nodes[i].executable_id == e && one.nodes[i].stack_node_data_id == d;
      assert i in many.nodes && References(many, many.nodes[i]);
    }
    if HasGroup(many, e, d) {
      var i :| i in many.nodes && many.nodes[i].executable_id == e && many.nodes[i].stack_node_data_id == d;
      assert i in one.nodes && References(one, one.nodes[i]);
    }
  }

  lemma SameQuotient(s: int, n: int, k: nat)
    requires n > 0 && k > 0
    ensures (k * s) as real / (k * n) as real == s as real / n as real
  {
  }
}
