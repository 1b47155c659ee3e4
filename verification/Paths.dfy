/** Stacks as paths from the root, the chained ids of those paths, and what a tally of visits counts
    (src/bin/cli.rs:323-366). */
module Paths {
  import opened Defs
  import opened Ids
  import opened Upserts

  /** The frames of a sample from the root to the leaf: the addresses are turned round, the frames inlined at one
      address keep their order. */
  function RootFirst(sample: Sample): Path {
    if sample == [] then [] else RootFirst(sample[1..]) + sample[0].frames
  }

  /** What the order is: later addresses first, and the frames of one address as they are. */
  lemma {:induction false} RootFirstOrder(xs: Sample, ys: Sample, a: Address)
    ensures RootFirst([]) == []
    ensures RootFirst([a]) == a.frames
    ensures RootFirst(xs + ys) == RootFirst(ys) + RootFirst(xs)
    decreases |xs|
  {
    assert [a][1..] == [];
    if xs == [] {
      assert xs + ys == ys;
    } else {
      assert (xs + ys)[1..] == xs[1..] + ys;
      RootFirstOrder(xs[1..], ys, a);
    }
  }

  /** Frame j of address i stands behind all frames of later addresses and the j before it. */
  lemma {:induction false} RootFirstAt(sample: Sample, i: nat, j: nat)
    requires i < |sample| && j < |sample[i].frames|
    ensures var m := |RootFirst(sample[i + 1..])| + j;
            m < |RootFirst(sample)| && RootFirst(sample)[m] == sample[i].frames[j]
  {
    var above, a, below := sample[i + 1..], sample[i], sample[..i];
    assert sample == below + ([a] + above);
    RootFirstOrder(below, [a] + above, a);
    RootFirstOrder([a], above, a);
  }

  /** A stack of one executable. */
  datatype Trace = Trace(exe: I64, path: Path)

  /** The id of the last node of a path; None above the root. It chains through the ids of all shorter prefixes. */
  function PathId(ids: IdScheme, e: I64, p: Path): (id: Option<I64>)
    ensures id.None? <==> p == []
  {
    if p == [] then None
    else Some(ids.node(PathId(ids, e, p[..|p| - 1]), ids.frame(p[|p| - 1]), e))
  }

  /** The row with which the client visits the last node of a path. */
  function Visit(ids: IdScheme, e: I64, p: Path): StackNode
    requires p != []
  {
    StackNode(PathId(ids, e, p).value, PathId(ids, e, p[..|p| - 1]), ids.frame(p[|p| - 1]), e, 1)
  }

  /** All visits along a path, root first. */
  function Visits(ids: IdScheme, e: I64, p: Path): seq<StackNode> {
    if p == [] then [] else Visits(ids, e, p[..|p| - 1]) + [Visit(ids, e, p)]
  }

  function VisitsOf(ids: IdScheme, traces: seq<Trace>): seq<StackNode> {
    if traces == [] then []
    else
      var t := traces[|traces| - 1];
      VisitsOf(ids, traces[..|traces| - 1]) + Visits(ids, t.exe, t.path)
  }

  function PathsOf(traces: seq<Trace>, e: I64): seq<Path> {
    if traces == [] then []
    else
      var t := traces[|traces| - 1];
      PathsOf(traces[..|traces| - 1], e) + if t.exe == e then [t.path] else []
  }

  /** How many of the paths start with q. */
  function CountPrefix(paths: seq<Path>, q: Path): nat {
    if paths == [] then 0
    else CountPrefix(paths[..|paths| - 1], q) + if q <= paths[|paths| - 1] then 1 else 0
  }

  /** The non-empty path p is a prefix of some stack of executable e. */
  ghost predicate Occurs(traces: seq<Trace>, e: I64, p: Path) {
    p != [] && exists i :: 0 <= i < |traces| && traces[i].exe == e && p <= traces[i].path
  }

  ghost predicate FrameOccurs(traces: seq<Trace>, f: Frame) {
    exists i :: 0 <= i < |traces| && f in traces[i].path
  }

  /** No two different visits share an id. As a visit is its id, its parent, its data and its executable, this says
      that the node id has no collision on the triples that occur. */
  ghost predicate Faithful(rows: seq<StackNode>) {
    forall r, s :: r in rows && s in rows && r.id == s.id ==> r == s
  }

  ghost predicate FramesFaithful(ids: IdScheme, traces: seq<Trace>) {
    forall f, g :: FrameOccurs(traces, f) && FrameOccurs(traces, g) && ids.frame(f) == ids.frame(g) ==> f == g
  }

  /** The hypothesis under which ids stand for what they identify: no collision among what occurs in these stacks. */
  ghost predicate CollisionFree(ids: IdScheme, traces: seq<Trace>) {
    Faithful(VisitsOf(ids, traces)) && FramesFaithful(ids, traces)
  }

  // ----- Which visits occur -----

  lemma {:induction false} VisitsAt(ids: IdScheme, e: I64, p: Path)
    ensures |Visits(ids, e, p)| == |p|
    ensures forall i :: 0 <= i < |p| ==> Visits(ids, e, p)[i] == Visit(ids, e, p[..i + 1])
  {
    if p != [] {
      var n := |p| - 1;
      VisitsAt(ids, e, p[..n]);
      forall i | 0 <= i < |p| ensures Visits(ids, e, p)[i] == Visit(ids, e, p[..i + 1]) {
        if i < n {
          assert p[..n][..i + 1] == p[..i + 1];
        } else {
          assert p[..i + 1] == p;
        }
      }
    }
  }

  lemma {:induction false} VisitOccurs(ids: IdScheme, traces: seq<Trace>, e: I64, p: Path)
    requires Occurs(traces, e, p)
    ensures Visit(ids, e, p) in VisitsOf(ids, traces)
  {
    var n := |traces| - 1;
    var t := traces[n];
    if t.exe == e && p <= t.path {
      VisitsAt(ids, e, t.path);
      assert t.path[..|p|] == p;
      assert Visits(ids, e, t.path)[|p| - 1] == Visit(ids, e, p);
    } else {
      var i :| 0 <= i < |traces| && traces[i].exe == e && p <= traces[i].path;
      assert traces[..n][i] == traces[i];
      VisitOccurs(ids, traces[..n], e, p);
    }
  }

  lemma {:induction false} OnlyVisitsOccur(ids: IdScheme, traces: seq<Trace>, r: StackNode) returns (e: I64, p: Path)
    requires r in VisitsOf(ids, traces)
    ensures Occurs(traces, e, p) && r == Visit(ids, e, p)
  {
    var n := |traces| - 1;
    var t := traces[n];
    if r in VisitsOf(ids, traces[..n]) {
      e, p := OnlyVisitsOccur(ids, traces[..n], r);
      var i :| 0 <= i < n && traces[..n][i].exe == e && p <= traces[..n][i].path;
      assert traces[i].exe == e && p <= traces[i].path;
    } else {
      VisitsAt(ids, t.exe, t.path);
      var i :| 0 <= i < |t.path| && r == Visits(ids, t.exe, t.path)[i];
      e, p := t.exe, t.path[..i + 1];
      assert traces[n].exe == e && p <= traces[n].path;
    }
  }

  lemma PrefixesOccur(traces: seq<Trace>, e: I64, p: Path, q: Path)
    requires Occurs(traces, e, p) && q <= p && q != []
    ensures Occurs(traces, e, q)
  {
  }

  lemma LastFrameOccurs(traces: seq<Trace>, e: I64, p: Path)
    requires Occurs(traces, e, p)
    ensures FrameOccurs(traces, p[|p| - 1])
  {
  }

  /** Collision-freedom is inherited by any part of the stacks. */
  lemma PartsCollisionFree(ids: IdScheme, part: seq<Trace>, all: seq<Trace>)
    requires CollisionFree(ids, all)
    requires forall t :: t in part ==> t in all
    ensures CollisionFree(ids, part)
  {
    forall r | r in VisitsOf(ids, part) ensures r in VisitsOf(ids, all) {
      var e, p := OnlyVisitsOccur(ids, part, r);
      var i :| 0 <= i < |part| && part[i].exe == e && p <= part[i].path;
      assert part[i] in all;
      VisitOccurs(ids, all, e, p);
    }
    forall f | FrameOccurs(part, f) ensures FrameOccurs(all, f) {
      var i :| 0 <= i < |part| && f in part[i].path;
      assert part[i] in all;
    }
  }

  // ----- Path ids are injective, and so parent links form a forest -----

  /** Equal ids have equal last frames, equal executables and equal parent ids. */
  lemma {:induction false} PathIdStep(ids: IdScheme, traces: seq<Trace>, e: I64, p: Path, e': I64, p': Path)
    requires CollisionFree(ids, traces)
    requires Occurs(traces, e, p) && Occurs(traces, e', p')
    requires PathId(ids, e, p) == PathId(ids, e', p')
    ensures e == e' && p[|p| - 1] == p'[|p'| - 1]
    ensures PathId(ids, e, p[..|p| - 1]) == PathId(ids, e', p'[..|p'| - 1])
  {
    VisitOccurs(ids, traces, e, p);
    VisitOccurs(ids, traces, e', p');
    var v, v' := Visit(ids, e, p), Visit(ids, e', p');
    assert v.id == v'.id;
    assert v == v';
    LastFrameOccurs(traces, e, p);
    LastFrameOccurs(traces, e', p');
    assert ids.frame(p[|p| - 1]) == v.stack_node_data_id;
    assert ids.frame(p'[|p'| - 1]) == v'.stack_node_data_id;
  }

  /** The chained id determines the executable and the whole path. The proof walks to the root: that the node id is
      injective on what occurs does not by itself exclude a node that is its own ancestor. */
  lemma {:induction false} PathIdInjective(ids: IdScheme, traces: seq<Trace>, e: I64, p: Path, e': I64, p': Path)
    requires CollisionFree(ids, traces)
    requires p != [] ==> Occurs(traces, e, p)
    requires p' != [] ==> Occurs(traces, e', p')
    requires PathId(ids, e, p) == PathId(ids, e', p')
    ensures p == p' && (p != [] ==> e == e')
    decreases |p|
  {
    if p != [] {
      PathIdStep(ids, traces, e, p, e', p');
      var q, q' := p[..|p| - 1], p'[..|p'| - 1];
      if q != [] { PrefixesOccur(traces, e, p, q); }
      if q' != [] { PrefixesOccur(traces, e', p', q'); }
      PathIdInjective(ids, traces, e, q, e', q');
      assert p == q + [p[|p| - 1]] && p' == q' + [p'[|p'| - 1]];
    }
  }

  // ----- What a tally of visits counts -----

  function NodeCount(t: Table<StackNode>, id: I64): int {
    if id in t then t[id].sample_count else 0
  }

  /** The sum of the counters of the rows with this id. */
  function CountOf(rows: seq<StackNode>, id: I64): int {
    if rows == [] then 0
    else
      var r := rows[|rows| - 1];
      CountOf(rows[..|rows| - 1], id) + if r.id == id then r.sample_count else 0
  }

  lemma {:induction false} CountOfAppend(xs: seq<StackNode>, ys: seq<StackNode>, id: I64)
    ensures CountOf(xs + ys, id) == CountOf(xs, id) + CountOf(ys, id)
  {
    if ys == [] {
      assert xs + ys == xs;
    } else {
      assert (xs + ys)[..|xs + ys| - 1] == xs + ys[..|ys| - 1];
      CountOfAppend(xs, ys[..|ys| - 1], id);
    }
  }

  /** Collisions or not, the counter stored under an id is the sum of the counters that arrived with it. */
  lemma {:induction false} TallyCounts(rows: seq<StackNode>, id: I64)
    ensures NodeCount(UpsertAll(NODES, map[], rows), id) == CountOf(rows, id)
  {
    if rows != [] {
      TallyCounts(rows[..|rows| - 1], id);
    }
  }

  lemma {:induction false} VisitsCount(ids: IdScheme, traces: seq<Trace>, e: I64, p: Path, e': I64, q: Path)
    requires CollisionFree(ids, traces)
    requires p != [] ==> Occurs(traces, e, p)
    requires Occurs(traces, e', q)
    ensures CountOf(Visits(ids, e, p), PathId(ids, e', q).value) == if e == e' && q <= p then 1 else 0
    decreases |p|
  {
    if p != [] {
      var p0 := p[..|p| - 1];
      if p0 != [] { PrefixesOccur(traces, e, p, p0); }
      VisitsCount(ids, traces, e, p0, e', q);
      if PathId(ids, e, p) == PathId(ids, e', q) {
        PathIdInjective(ids, traces, e, p, e', q);
      }
      assert q <= p <==> q <= p0 || q == p;
      assert Visits(ids, e, p)[..|p0|] == Visits(ids, e, p0) by { VisitsAt(ids, e, p0); }
      CountOfAppend(Visits(ids, e, p0), [Visit(ids, e, p)], PathId(ids, e', q).value);
      assert CountOf([Visit(ids, e, p)], PathId(ids, e', q).value)
          == if Visit(ids, e, p).id == PathId(ids, e', q).value then 1 else 0;
    }
  }

  lemma TraceOccurs(traces: seq<Trace>, t: Trace)
    requires t in traces && t.path != []
    ensures Occurs(traces, t.exe, t.path)
  {
  }

  lemma {:induction false} CountPrefixAppend(xs: seq<Path>, p: Path, q: Path)
    ensures CountPrefix(xs + [p], q) == CountPrefix(xs, q) + if q <= p then 1 else 0
  {
  }

  /** The id k is visited once by each stack of e that starts with q, and by no other. */
  ghost predicate VisitedOnce(ids: IdScheme, t: Trace, e: I64, q: Path, k: I64) {
    CountOf(Visits(ids, t.exe, t.path), k) == if t.exe == e && q <= t.path then 1 else 0
  }

  lemma {:induction false} TracesVisitOnce(ids: IdScheme, all: seq<Trace>, e: I64, q: Path)
    requires CollisionFree(ids, all) && Occurs(all, e, q)
    ensures forall t :: t in all ==> VisitedOnce(ids, t, e, q, PathId(ids, e, q).value)
  {
    forall t | t in all ensures VisitedOnce(ids, t, e, q, PathId(ids, e, q).value) {
      if t.path != [] { TraceOccurs(all, t); }
      VisitsCount(ids, all, t.exe, t.path, e, q);
    }
  }

  lemma {:induction false} VisitsOfCount(ids: IdScheme, traces: seq<Trace>, e: I64, q: Path, k: I64)
    requires forall t :: t in traces ==> VisitedOnce(ids, t, e, q, k)
    ensures CountOf(VisitsOf(ids, traces), k) == CountPrefix(PathsOf(traces, e), q)
  {
    if traces != [] {
      var n := |traces| - 1;
      var t := traces[n];
      assert forall u :: u in traces[..n] ==> u in traces;
      VisitsOfCount(ids, traces[..n], e, q, k);
      CountOfAppend(VisitsOf(ids, traces[..n]), Visits(ids, t.exe, t.path), k);
      assert VisitedOnce(ids, t, e, q, k);
      CountPrefixAppend(PathsOf(traces[..n], e), t.path, q);
      if t.exe != e {
        assert PathsOf(traces, e) == PathsOf(traces[..n], e);
      }
    }
  }

  /** The tally of the visits along some stacks is their trie: it has a node exactly for every non-empty prefix of a
      stack, and the node counts the stacks with that prefix. */
  lemma {:induction false} TallyIsTrie(ids: IdScheme, traces: seq<Trace>)
    requires CollisionFree(ids, traces)
    ensures var t := UpsertAll(NODES, map[], VisitsOf(ids, traces));
            && (forall e, q :: Occurs(traces, e, q) ==>
                  && PathId(ids, e, q).value in t
                  && t[PathId(ids, e, q).value] ==
                     Visit(ids, e, q).(sample_count := CountPrefix(PathsOf(traces, e), q)))
            && (forall k :: k in t ==> exists e, q :: Occurs(traces, e, q) && PathId(ids, e, q) == Some(k))
  {
    var rows := VisitsOf(ids, traces);
    var t := UpsertAll(NODES, map[], rows);
    NodesAreLawful();
    TallyProvenance(NODES, rows);
    forall e, q | Occurs(traces, e, q)
      ensures PathId(ids, e, q).value in t
      ensures t[PathId(ids, e, q).value] == Visit(ids, e, q).(sample_count := CountPrefix(PathsOf(traces, e), q))
    {
      var v, k := Visit(ids, e, q), PathId(ids, e, q).value;
      VisitOccurs(ids, traces, e, q);
      var j :| 0 <= j < |rows| && rows[j] == v;
      assert NODES.key(rows[j]) == k;
      var i :| 0 <= i < |rows| && NODES.key(rows[i]) == k && NODES.shape(rows[i]) == NODES.shape(t[k]);
      assert rows[i] in rows && rows[i].id == v.id;
      assert rows[i] == v;
      TallyCounts(rows, k);
      TracesVisitOnce(ids, traces, e, q);
      VisitsOfCount(ids, traces, e, q, k);
      assert t[k].(sample_count := 0) == v.(sample_count := 0);
    }
    forall k | k in t ensures exists e, q :: Occurs(traces, e, q) && PathId(ids, e, q) == Some(k) {
      var i :| 0 <= i < |rows| && NODES.key(rows[i]) == k && NODES.shape(rows[i]) == NODES.shape(t[k]);
      var e, q := OnlyVisitsOccur(ids, traces, rows[i]);
      assert PathId(ids, e, q) == Some(k);
    }
  }
}
