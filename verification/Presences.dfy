/** What findRegressions computes, in terms of the samples: a presence is the number of times a frame was sampled, by
    the number of addresses (migrations/20230305040305_init.up.sql:59-95). */
module Presences {
  import opened Defs
  import opened Ids
  import opened Upserts
  import opened Paths
  import opened Batches
  import opened Payloads
  import opened Store
  import opened Protocol
  import opened Clients
  import opened EndToEnd
  import opened Counters
  import opened Independence
  import opened Lossless
  import opened Regressions

  /** How often f stands in the stacks, counting repeats within one stack. */
  function Occurrences(stacks: seq<Path>, f: Frame): nat {
    if stacks == [] then 0
    else Occurrences(stacks[..|stacks| - 1], f) + multiset(stacks[|stacks| - 1])[f]
  }

  // ----- Sums over a tally of rows that agree -----

  /** Rows with one key have one shape, and of those the weights add up. */
  ghost predicate Coherent<R(!new)>(rule: Rule<R>, rows: seq<R>, weight: R -> int) {
    && (forall x, y :: x in rows && y in rows && rule.key(x) == rule.key(y) ==> rule.shape(x) == rule.shape(y))
    && (forall x, y :: rule.shape(x) == rule.shape(y) ==> weight(rule.add(x, y)) == weight(x) + weight(y))
  }

  lemma {:induction false} CoherentBefore<R(!new)>(rule: Rule<R>, rows: seq<R>, weight: R -> int)
    requires Coherent(rule, rows, weight) && rows != []
    ensures Coherent(rule, rows[..|rows| - 1], weight)
  {
    assert forall r :: r in rows[..|rows| - 1] ==> r in rows;
  }

  lemma {:induction false} TallyConserves<R(!new)>(rule: Rule<R>, rows: seq<R>, weight: R -> int)
    requires Lawful(rule) && Coherent(rule, rows, weight)
    ensures Total(UpsertAll(rule, map[], rows), weight) == SumRows(rows, weight)
  {
    if rows != [] {
      var n := |rows| - 1;
      var u, r := UpsertAll(rule, map[], rows[..n]), rows[n];
      var k := rule.key(r);
      CoherentBefore(rule, rows, weight);
      TallyConserves(rule, rows[..n], weight);
      TallyProvenance(rule, rows[..n]);
      if k in u {
        var i :| 0 <= i < n && rule.key(rows[..n][i]) == k && rule.shape(rows[..n][i]) == rule.shape(u[k]);
        assert rows[i] in rows && r in rows;
      }
      TotalUpdates(u, weight, k, if k in u then rule.add(u[k], r) else r);
    }
  }

  lemma {:induction false} VisitsCohere(ids: IdScheme, traces: seq<Trace>, e: I64, d: I64)
    requires CollisionFree(ids, traces)
    ensures Coherent(NODES, VisitsOf(ids, traces), AtFrame(e, d))
  {
    var rows := VisitsOf(ids, traces);
    forall r, s | r in rows && s in rows && NODES.key(r) == NODES.key(s) ensures NODES.shape(r) == NODES.shape(s) {
      assert r.id == s.id;
    }
    forall x, y | NODES.shape(x) == NODES.shape(y)
      ensures AtFrame(e, d)(NODES.add(x, y)) == AtFrame(e, d)(x) + AtFrame(e, d)(y)
    {
      assert x.(sample_count := 0) == y.(sample_count := 0);
      assert x.executable_id == x.(sample_count := 0).executable_id == y.executable_id;
      assert x.stack_node_data_id == x.(sample_count := 0).stack_node_data_id == y.stack_node_data_id;
    }
  }

  // ----- The counts at one frame -----

  /** The id of f is that of no other frame of the path. */
  ghost predicate Unmistaken(ids: IdScheme, p: Path, f: Frame) {
    forall g :: g in p && ids.frame(g) == ids.frame(f) ==> g == f
  }

  lemma {:induction false} VisitsAtFrame(ids: IdScheme, e: I64, p: Path, e': I64, f: Frame)
    requires Unmistaken(ids, p, f)
    ensures SumRows(Visits(ids, e, p), AtFrame(e', ids.frame(f))) == if e == e' then multiset(p)[f] else 0
  {
    if p != [] {
      var q, g := p[..|p| - 1], p[|p| - 1];
      assert p == q + [g];
      VisitsAtFrame(ids, e, q, e', f);
      assert Visits(ids, e, p)[..|Visits(ids, e, q)|] == Visits(ids, e, q);
    }
  }

  lemma {:induction false} TracesAtFrame(ids: IdScheme, traces: seq<Trace>, e: I64, f: Frame)
    requires forall t :: t in traces ==> Unmistaken(ids, t.path, f)
    ensures SumRows(VisitsOf(ids, traces), AtFrame(e, ids.frame(f))) == Occurrences(PathsOf(traces, e), f)
  {
    if traces != [] {
      var some, t := traces[..|traces| - 1], traces[|traces| - 1];
      assert forall u :: u in some ==> u in traces;
      TracesAtFrame(ids, some, e, f);
      VisitsAtFrame(ids, t.exe, t.path, e, f);
      SumRowsAppend(VisitsOf(ids, some), Visits(ids, t.exe, t.path), AtFrame(e, ids.frame(f)));
      OnePathMore(some, t, e, f);
      assert traces == some + [t];
    }
  }

  lemma {:induction false} OnePathMore(traces: seq<Trace>, t: Trace, e: I64, f: Frame)
    ensures Occurrences(PathsOf(traces + [t], e), f)
         == Occurrences(PathsOf(traces, e), f) + if t.exe == e then multiset(t.path)[f] else 0
  {
    assert (traces + [t])[..|traces|] == traces;
    var paths := PathsOf(traces, e);
    assert (paths + [t.path])[..|paths|] == paths;
    assert t.exe != e ==> PathsOf(traces + [t], e) == paths;
  }

  lemma {:induction false} StoredAreSampled(ids: IdScheme, batches: seq<Batch>, on: seq<bool>, t: Trace)
    requires |on| == |batches| && t in TracesOf(ids, Select(batches, on))
    ensures t in TracesOf(ids, batches)
  {
    var i := SelectedTrace(ids, batches, on, t);
    TracesOfMeaning(ids, batches);
  }

  /** In every reachable state the counts of the nodes of e at a sampled frame add up to how often the frame stands in
      the committed stacks of e. */
  lemma {:induction false} StoredAtFrame(ids: IdScheme, batches: seq<Batch>, posts: seq<StoData>, schedule: seq<nat>,
                                         e: I64, f: Frame)
    requires Posted(ids, batches, posts) && CollisionFree(ids, TracesOf(ids, batches))
    requires FrameOccurs(TracesOf(ids, batches), f)
    ensures var s := Run(posts, schedule);
            Total(s.db.nodes, AtFrame(e, ids.frame(f)))
            == Occurrences(PathsOf(StoredTraces(ids, batches, s), e), f)
  {
    var s, all := Run(posts, schedule), TracesOf(ids, batches);
    var traces := StoredTraces(ids, batches, s);
    SelectedCollisionFree(ids, batches, Have(s.progress, 3));
    StoredNodes(ids, batches, posts, schedule);
    NodesAreLawful();
    VisitsCohere(ids, traces, e, ids.frame(f));
    TallyConserves(NODES, VisitsOf(ids, traces), AtFrame(e, ids.frame(f)));
    forall t | t in traces ensures Unmistaken(ids, t.path, f) {
      StoredAreSampled(ids, batches, Have(s.progress, 3), t);
      SampledUnmistaken(ids, all, t, f);
    }
    TracesAtFrame(ids, traces, e, f);
  }

  lemma {:induction false} SampledUnmistaken(ids: IdScheme, traces: seq<Trace>, t: Trace, f: Frame)
    requires FramesFaithful(ids, traces) && t in traces && FrameOccurs(traces, f)
    ensures Unmistaken(ids, t.path, f)
  {
    forall g | g in t.path ensures FrameOccurs(traces, g) {
      var i :| 0 <= i < |traces| && traces[i] == t;
    }
  }

  // ----- Groups -----

  lemma {:induction false} NothingAtFrame(t: Table<StackNode>, e: I64, d: I64)
    requires forall k :: k in t ==> t[k].executable_id != e || t[k].stack_node_data_id != d
    ensures Total(t, AtFrame(e, d)) == 0
    decreases |t|
  {
    if t != map[] {
      var k :| k in t;
      TotalSplits(t, AtFrame(e, d), k);
      NothingAtFrame(t - {k}, e, d);
    }
  }

  lemma {:induction false} GroupsCount(db: Db, e: I64, d: I64)
    requires Positive(db) && Integrity(db)
    ensures HasGroup(db, e, d) <==> Total(db.nodes, AtFrame(e, d)) > 0
  {
    if k :| k in db.nodes && db.nodes[k].executable_id == e && db.nodes[k].stack_node_data_id == d {
      assert References(db, db.nodes[k]);
      TotalSplits(db.nodes, AtFrame(e, d), k);
      TotalNonNegative(db.nodes - {k}, e, d);
    } else {
      NothingAtFrame(db.nodes, e, d);
    }
  }

  /** The group of e and d has a row exactly when n is positive; and then its presence is the quotient of n and m. */
  ghost predicate Counts(db: Db, e: I64, d: I64, n: nat, m: nat)
    requires Positive(db)
  {
    && (HasGroup(db, e, d) <==> n > 0)
    && (n > 0 ==> m > 0 && Presence(db, e, d) * m as real == n as real)
  }

  lemma {:induction false} Quotient(x: int, n: int)
    requires n > 0
    ensures x as real / n as real * n as real == x as real
  {
  }

  lemma {:induction false} GroupCounts(db: Db, e: I64, d: I64)
    requires Positive(db) && Integrity(db) && Total(db.nodes, AtFrame(e, d)) >= 0
    ensures Counts(db, e, d, Total(db.nodes, AtFrame(e, d)),
                   if e in db.executables then db.executables[e].sample_count else 0)
  {
    GroupsCount(db, e, d);
    if HasGroup(db, e, d) {
      Quotient(Total(db.nodes, AtFrame(e, d)), db.executables[e].sample_count);
    }
  }

  /** In every reachable state the presence of a sampled frame is how often it stands in the committed stacks of e, by
      the addresses of e counted so far; and e has a group there exactly when it stands in one of them. */
  lemma {:induction false} PresencesSoFar(ids: IdScheme, batches: seq<Batch>, posts: seq<StoData>, schedule: seq<nat>,
                                          e: I64, f: Frame)
    requires Posted(ids, batches, posts) && CollisionFree(ids, TracesOf(ids, batches))
    requires FrameOccurs(TracesOf(ids, batches), f)
    ensures Positive(Run(posts, schedule).db)
    ensures var s := Run(posts, schedule);
            Counts(s.db, e, ids.frame(f), Occurrences(PathsOf(StoredTraces(ids, batches, s), e), f),
                   AddressesOf(ids, Select(batches, Have(s.progress, 2)), e))
  {
    AlwaysPositive(ids, batches, posts, schedule);
    AlwaysIntegrity(posts, schedule);
    StoredAtFrame(ids, batches, posts, schedule, e, f);
    AlwaysCounted(ids, batches, posts, schedule, e);
    GroupCounts(Run(posts, schedule).db, e, ids.frame(f));
  }

  // ----- In the end -----

  lemma {:induction false} OccurrencesAppend(xs: seq<Path>, ys: seq<Path>, f: Frame)
    ensures Occurrences(xs + ys, f) == Occurrences(xs, f) + Occurrences(ys, f)
  {
    if ys == [] {
      assert xs + ys == xs;
    } else {
      assert (xs + ys)[..|xs + ys| - 1] == xs + ys[..|ys| - 1];
      OccurrencesAppend(xs, ys[..|ys| - 1], f);
    }
  }

  lemma {:induction false} NoOccurrences(paths: seq<Path>, f: Frame)
    requires AllEmpty(paths)
    ensures Occurrences(paths, f) == 0
  {
    if paths != [] {
      NoOccurrences(paths[..|paths| - 1], f);
    }
  }

  lemma {:induction false} OccurrencesOneBatchMore(ids: IdScheme, batches: seq<Batch>, b: Batch, e: I64, f: Frame)
    ensures Occurrences(SampledStacks(ids, batches + [b], e), f)
         == Occurrences(SampledStacks(ids, batches, e), f)
            + Occurrences(PathsOf(Traces(ids, b.args, b.samples), e), f)
  {
    assert (batches + [b])[..|batches|] == batches;
    PathsOfAppend(TracesOf(ids, batches), Traces(ids, b.args, b.samples), e);
    OccurrencesAppend(SampledStacks(ids, batches, e), PathsOf(Traces(ids, b.args, b.samples), e), f);
  }

  function BatchesWithFrames(batches: seq<Batch>): seq<Batch> {
    Select(batches, WithFrames(batches))
  }

  lemma {:induction false} OneSelectedMore(batches: seq<Batch>, b: Batch)
    ensures BatchesWithFrames(batches + [b]) ==
            BatchesWithFrames(batches) + if FrameCount(b.samples) > 0 then [b] else []
  {
    var more := batches + [b];
    assert more[..|batches|] == batches;
    assert WithFrames(more)[..|batches|] == WithFrames(batches);
  }

  lemma {:induction false} FramelessOccurrences(ids: IdScheme, b: Batch, e: I64, f: Frame)
    requires FrameCount(b.samples) == 0
    ensures Occurrences(PathsOf(Traces(ids, b.args, b.samples), e), f) == 0
  {
    FramelessPaths(ids, b.args, b.samples, e);
    NoOccurrences(PathsOf(Traces(ids, b.args, b.samples), e), f);
  }

  /** All frames are in the batches with frames. */
  lemma {:induction false} SelectedOccurrences(ids: IdScheme, batches: seq<Batch>, e: I64, f: Frame)
    ensures Occurrences(SampledStacks(ids, BatchesWithFrames(batches), e), f)
         == Occurrences(SampledStacks(ids, batches, e), f)
  {
    if batches != [] {
      var before, b := batches[..|batches| - 1], batches[|batches| - 1];
      assert batches == before + [b];
      SelectedOccurrences(ids, before, e, f);
      OneSelectedMore(before, b);
      OccurrencesOneBatchMore(ids, before, b, e, f);
      if FrameCount(b.samples) > 0 {
        OccurrencesOneBatchMore(ids, BatchesWithFrames(before), b, e, f);
      } else {
        FramelessOccurrences(ids, b, e, f);
        assert BatchesWithFrames(batches) == BatchesWithFrames(before);
      }
    }
  }

  /** Once all posts are finished, the presence of a sampled frame is how often it stands in the sampled stacks of e,
      counting repeats within one stack, by the addresses of those batches of e that have a frame at all; and e has a
      group there exactly when it stands in one of them. */
  lemma {:induction false} PresencesCount(ids: IdScheme, batches: seq<Batch>, posts: seq<StoData>, schedule: seq<nat>,
                                          e: I64, f: Frame)
    requires Posted(ids, batches, posts) && CollisionFree(ids, TracesOf(ids, batches))
    requires AllFinished(Run(posts, schedule)) && FrameOccurs(TracesOf(ids, batches), f)
    ensures Positive(Run(posts, schedule).db)
    ensures Counts(Run(posts, schedule).db, e, ids.frame(f), Occurrences(SampledStacks(ids, batches, e), f),
                   Counted(ids, batches, e))
  {
    PresencesSoFar(ids, batches, posts, schedule, e, f);
    FinalProgress(ids, batches, posts, schedule);
    SelectedOccurrences(ids, batches, e, f);
  }

  // ----- Which frames have groups at all -----

  /** Nothing but sampled frames has a group. */
  lemma {:induction false} GroupsAreSampled(ids: IdScheme, batches: seq<Batch>, posts: seq<StoData>,
                                            schedule: seq<nat>, e: I64, d: I64) returns (f: Frame)
    requires Posted(ids, batches, posts) && CollisionFree(ids, TracesOf(ids, batches))
    requires HasGroup(Run(posts, schedule).db, e, d)
    ensures FrameOccurs(TracesOf(ids, batches), f) && d == ids.frame(f)
  {
    var s := Run(posts, schedule);
    var on := Have(s.progress, 3);
    SelectedCollisionFree(ids, batches, on);
    StoredNodes(ids, batches, posts, schedule);
    var k :| k in s.db.nodes && s.db.nodes[k].executable_id == e && s.db.nodes[k].stack_node_data_id == d;
    f := TalliedFrame(ids, TracesOf(ids, Select(batches, on)), k);
    SelectedFrameOccurs(ids, batches, on, f);
  }

  lemma {:induction false} TalliedFrame(ids: IdScheme, traces: seq<Trace>, k: I64) returns (f: Frame)
    requires CollisionFree(ids, traces) && k in UpsertAll(NODES, map[], VisitsOf(ids, traces))
    ensures FrameOccurs(traces, f)
    ensures UpsertAll(NODES, map[], VisitsOf(ids, traces))[k].stack_node_data_id == ids.frame(f)
  {
    TallyIsTrie(ids, traces);
    var e, q :| Occurs(traces, e, q) && PathId(ids, e, q) == Some(k);
    f := q[|q| - 1];
    LastFrameOccurs(traces, e, q);
  }

  lemma {:induction false} SelectedFrameOccurs(ids: IdScheme, batches: seq<Batch>, on: seq<bool>, f: Frame)
    requires |on| == |batches| && FrameOccurs(TracesOf(ids, Select(batches, on)), f)
    ensures FrameOccurs(TracesOf(ids, batches), f)
  {
    var some, all := TracesOf(ids, Select(batches, on)), TracesOf(ids, batches);
    var i :| 0 <= i < |some| && f in some[i].path;
    StoredAreSampled(ids, batches, on, some[i]);
    var j :| 0 <= j < |all| && all[j] == some[i];
  }

  // ----- Reports -----

  /** Two programs have one name in all batches. */
  ghost predicate SameNames(ids: IdScheme, batches: seq<Batch>, a: I64, b: I64) {
    forall i, j :: 0 <= i < |batches| && 0 <= j < |batches| && FrameCount(batches[i].samples) > 0
                   && FrameCount(batches[j].samples) > 0 && ids.exe(batches[i].args) == a
                   && ids.exe(batches[j].args) == b ==>
      batches[i].args.binary == batches[j].args.binary
  }

  /** Of m addresses x were at the frame in version a, and of n addresses y in the newer version b, which is more. */
  ghost predicate Worsened(createdAt: I64 -> int, start: int, a: I64, b: I64, x: nat, m: nat, y: nat, n: nat) {
    && x > 0 && y > 0
    && a != b
    && y * m > x * n
    && createdAt(b) > createdAt(a) > start
  }

  /** The frame d is reported of a and b exactly when it was worsened and their programs have one name; and with the
      relative change of its frequency. */
  ghost predicate ReportedAs(db: Db, createdAt: I64 -> int, start: int, a: I64, b: I64, d: I64, x: nat, m: nat, y: nat,
                             n: nat, oneName: bool)
    requires Positive(db)
  {
    && (Reported(db, createdAt, start, a, b, d) <==> Worsened(createdAt, start, a, b, x, m, y, n) && oneName)
    && (Reported(db, createdAt, start, a, b, d) ==>
          && Presence(db, a, d) != 0.0
          && PctDiff(db, a, b, d) * (x * n) as real == 100.0 * (y * m - x * n) as real)
  }

  lemma {:induction false} ReportCounts(db: Db, createdAt: I64 -> int, start: int, a: I64, b: I64, d: I64, x: nat,
                                        m: nat, y: nat, n: nat, oneName: bool)
    requires Positive(db) && Counts(db, a, d, x, m) && Counts(db, b, d, y, n)
    requires a in db.executables && b in db.executables ==>
               (db.executables[a].basename == db.executables[b].basename <==> oneName)
    ensures ReportedAs(db, createdAt, start, a, b, d, x, m, y, n, oneName)
  {
    if HasGroup(db, a, d) && HasGroup(db, b, d) {
      PresencePositive(db, a, d);
      Compare(Presence(db, a, d), x, m, Presence(db, b, d), y, n);
    }
  }

  lemma {:induction false} StoredNames(ids: IdScheme, batches: seq<Batch>, posts: seq<StoData>, schedule: seq<nat>,
                                       a: I64, b: I64)
    requires NamesFaithful(ids, batches) && Sent(ids, batches, posts)
    requires a in Run(posts, schedule).db.executables && b in Run(posts, schedule).db.executables
    ensures var executables := Run(posts, schedule).db.executables;
            executables[a].basename == executables[b].basename <==> SameNames(ids, batches, a, b)
  {
    var k := StoredProgram(ids, batches, posts, schedule, a);
    var l := StoredProgram(ids, batches, posts, schedule, b);
    var executables := Run(posts, schedule).db.executables;
    forall i, j | 0 <= i < |batches| && 0 <= j < |batches| && FrameCount(batches[i].samples) > 0
                  && FrameCount(batches[j].samples) > 0 && ids.exe(batches[i].args) == a
                  && ids.exe(batches[j].args) == b
      ensures batches[i].args.binary == executables[a].basename && batches[j].args.binary == executables[b].basename
    {
      assert SamePrograms(ids, batches[i], batches[k]) && SamePrograms(ids, batches[j], batches[l]);
    }
  }

  /** Quotients are compared by cross products. */
  lemma {:induction false} Compare(p: real, x: int, m: int, q: real, y: int, n: int)
    requires m > 0 && n > 0 && p * m as real == x as real && q * n as real == y as real
    ensures q - p > 0.0 <==> y * m > x * n
    ensures p > 0.0 ==> (q - p) / p * 100.0 * (x * n) as real == 100.0 * (y * m - x * n) as real
  {
    var s, t := m as real, n as real;
    assert (q - p) * (s * t) == (y * m - x * n) as real by {
      assert q * t * s == y as real * s == (y * m) as real;
      assert p * s * t == x as real * t == (x * n) as real;
    }
    Signs(q - p, s * t);
    if p > 0.0 {
      assert (x * n) as real == p * (s * t);
      Cancel(q - p, p, s * t);
    }
  }

  lemma {:induction false} Signs(d: real, s: real)
    requires s > 0.0
    ensures d > 0.0 <==> d * s > 0.0
  {
  }

  lemma {:induction false} Cancel(d: real, p: real, s: real)
    requires p > 0.0
    ensures d / p * 100.0 * (p * s) == 100.0 * (d * s)
  {
    assert d / p * p == d;
  }

  /** Once all posts are finished, a frame is reported of two versions exactly when it was sampled in both, more often
      for each address in the newer one, their programs have one name, and both are young enough; and it is reported
      with the relative change of its frequency. */
  lemma {:induction false} ReportsExactly(ids: IdScheme, batches: seq<Batch>, posts: seq<StoData>, schedule: seq<nat>,
                                          createdAt: I64 -> int, start: int, a: I64, b: I64, f: Frame)
    requires Posted(ids, batches, posts) && CollisionFree(ids, TracesOf(ids, batches)) && NamesFaithful(ids, batches)
    requires AllFinished(Run(posts, schedule)) && FrameOccurs(TracesOf(ids, batches), f)
    ensures Positive(Run(posts, schedule).db)
    ensures ReportedAs(Run(posts, schedule).db, createdAt, start, a, b, ids.frame(f),
                       Occurrences(SampledStacks(ids, batches, a), f), Counted(ids, batches, a),
                       Occurrences(SampledStacks(ids, batches, b), f), Counted(ids, batches, b),
                       SameNames(ids, batches, a, b))
  {
    var db := Run(posts, schedule).db;
    PresencesCount(ids, batches, posts, schedule, a, f);
    PresencesCount(ids, batches, posts, schedule, b, f);
    if a in db.executables && b in db.executables {
      StoredNames(ids, batches, posts, schedule, a, b);
    }
    ReportCounts(db, createdAt, start, a, b, ids.frame(f),
                 Occurrences(SampledStacks(ids, batches, a), f), Counted(ids, batches, a),
                 Occurrences(SampledStacks(ids, batches, b), f), Counted(ids, batches, b),
                 SameNames(ids, batches, a, b));
  }
}
