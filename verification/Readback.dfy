/** Reading stacks back: from rows that store the stacks of an executable, build_dag (src/bin/server.rs:220-267)
    rebuilds exactly their trie. */
module Readback {
  import opened Defs
  import opened Ids
  import opened Upserts
  import opened Paths
  import opened Trie
  import opened Dag

  // ----- Rows that store stacks -----

  /** What the reader has fetched: the nodes and the frames of one executable. */
  datatype View = View(sn: Table<StackNode>, sd: Table<StackNodeData>)

  /** The node at the end of q is stored, with its count, and its frame can be looked up. */
  ghost predicate NodeStored(ids: IdScheme, traces: seq<Trace>, e: I64, v: View, q: Path)
    requires q != []
  {
    && PathId(ids, e, q).value in v.sn
    && v.sn[PathId(ids, e, q).value] == Visit(ids, e, q).(sample_count := CountPrefix(PathsOf(traces, e), q))
    && ids.frame(q[|q| - 1]) in v.sd
    && v.sd[ids.frame(q[|q| - 1])].frame == q[|q| - 1]
  }

  /** The rows of executable e are exactly the nodes of the stacks of e. */
  ghost predicate Stores(ids: IdScheme, traces: seq<Trace>, e: I64, v: View) {
    && (forall q :: Occurs(traces, e, q) ==> NodeStored(ids, traces, e, v, q))
    && (forall k :: k in v.sn ==> exists q :: Occurs(traces, e, q) && PathId(ids, e, q) == Some(k))
  }

  /** The path that a stored id stands for. */
  ghost function PathOf(ids: IdScheme, traces: seq<Trace>, e: I64, v: View, k: I64): (q: Path)
    requires Stores(ids, traces, e, v) && k in v.sn
    ensures Occurs(traces, e, q) && PathId(ids, e, q) == Some(k) && NodeStored(ids, traces, e, v, q)
  {
    var q :| Occurs(traces, e, q) && PathId(ids, e, q) == Some(k);
    q
  }

  function Longest(traces: seq<Trace>): nat {
    if traces == [] then 0
    else
      var m, n := Longest(traces[..|traces| - 1]), |traces[|traces| - 1].path|;
      if m < n then n else m
  }

  lemma {:induction false} LongestBounds(traces: seq<Trace>, e: I64, p: Path)
    requires Occurs(traces, e, p)
    ensures |p| <= Longest(traces)
  {
    var n := |traces| - 1;
    var i :| 0 <= i < |traces| && traces[i].exe == e && p <= traces[i].path;
    if i < n {
      assert traces[..n][i] == traces[i];
      LongestBounds(traces[..n], e, p);
    }
  }

  /** The parent of a stored node is the node of the path one frame shorter. */
  lemma {:induction false} ParentIsPrefix(ids: IdScheme, traces: seq<Trace>, e: I64, p: Path, q: Path)
    requires CollisionFree(ids, traces) && Occurs(traces, e, p)
    requires q != [] ==> Occurs(traces, e, q)
    requires PathId(ids, e, p[..|p| - 1]) == PathId(ids, e, q)
    ensures p == q + [p[|p| - 1]]
  {
    var p0 := p[..|p| - 1];
    if p0 != [] { PrefixesOccur(traces, e, p, p0); }
    PathIdInjective(ids, traces, e, p0, e, q);
    assert p == p0 + [p[|p| - 1]];
  }

  /** A child of the node of q stands for q and one frame more. */
  lemma {:induction false} ChildIsLonger(ids: IdScheme, traces: seq<Trace>, e: I64, v: View, q: Path, r: StackNode)
    requires CollisionFree(ids, traces) && Stores(ids, traces, e, v)
    requires q != [] ==> Occurs(traces, e, q)
    requires r.id in v.sn && v.sn[r.id] == r && r.parent_id == PathId(ids, e, q)
    ensures var p := PathOf(ids, traces, e, v, r.id); p == q + [p[|p| - 1]]
  {
    ParentIsPrefix(ids, traces, e, PathOf(ids, traces, e, v, r.id), q);
  }

  /** The node of q is stored, below that of the path one frame shorter. */
  ghost predicate Linked(ids: IdScheme, e: I64, sn: Table<StackNode>, q: Path)
    requires q != []
  {
    PathId(ids, e, q).value in sn && sn[PathId(ids, e, q).value].parent_id == PathId(ids, e, q[..|q| - 1])
  }

  lemma {:induction false} StoredRow(ids: IdScheme, traces: seq<Trace>, e: I64, v: View, q: Path)
    requires Stores(ids, traces, e, v) && Occurs(traces, e, q)
    ensures v.sn[PathId(ids, e, q).value].stack_node_data_id in v.sd
    ensures forall p :: p != [] && p <= q ==> Linked(ids, e, v.sn, p)
  {
    assert NodeStored(ids, traces, e, v, q);
    forall p | p != [] && p <= q ensures Linked(ids, e, v.sn, p) {
      PrefixesOccur(traces, e, q, p);
      assert NodeStored(ids, traces, e, v, p);
    }
  }

  /** The depth of a row is the length of its path less one. */
  lemma {:induction false} LinkedReaches(ids: IdScheme, e: I64, sn: Table<StackNode>, q: Path)
    requires q != [] && forall p :: p != [] && p <= q ==> Linked(ids, e, sn, p)
    ensures Reaches(sn, PathId(ids, e, q).value, |q| - 1)
    decreases |q|
  {
    assert Linked(ids, e, sn, q);
    if |q| > 1 {
      LinkedReaches(ids, e, sn, q[..|q| - 1]);
    }
  }

  /** Rows that store stacks are all below a root. */
  lemma StoredAreRooted(ids: IdScheme, traces: seq<Trace>, e: I64, v: View)
    requires Stores(ids, traces, e, v)
    ensures forall k :: k in v.sn ==> Rooted(v.sn, k) && v.sn[k].stack_node_data_id in v.sd
  {
    forall k | k in v.sn ensures Rooted(v.sn, k) && v.sn[k].stack_node_data_id in v.sd {
      var q := PathOf(ids, traces, e, v, k);
      StoredRow(ids, traces, e, v, q);
      LinkedReaches(ids, e, v.sn, q);
      assert Reaches(v.sn, k, |q| - 1);
    }
  }

  // ----- What build_dag rebuilds -----

  lemma OccursInLast(traces: seq<Trace>, e: I64, p: Path)
    requires traces != [] && p != []
    ensures var n := |traces| - 1;
            Occurs(traces, e, p) <==> Occurs(traces[..n], e, p) || (traces[n].exe == e && p <= traces[n].path)
  {
  }

  lemma {:induction false} OccursIffCounted(traces: seq<Trace>, e: I64, p: Path)
    requires p != []
    ensures Occurs(traces, e, p) <==> CountPrefix(PathsOf(traces, e), p) > 0
  {
    if traces != [] {
      var n := |traces| - 1;
      OccursIffCounted(traces[..n], e, p);
      OccursInLast(traces, e, p);
      CountPrefixAppend(PathsOf(traces[..n], e), traces[n].path, p);
      assert traces[n].exe != e ==> PathsOf(traces, e) == PathsOf(traces[..n], e);
    }
  }

  /** Below q, the stacks of e go on with f exactly when q + [f] occurs. */
  lemma {:induction false} GoesOn(traces: seq<Trace>, e: I64, q: Path, f: Frame)
    ensures var below := Under(Suffixes(PathsOf(traces, e), q), f);
            && (Occurs(traces, e, q + [f]) <==> below != [])
            && |below| == CountPrefix(PathsOf(traces, e), q + [f])
            && below == Suffixes(PathsOf(traces, e), q + [f])
  {
    SuffixesExtend(PathsOf(traces, e), q, f);
    SuffixesMeaning(PathsOf(traces, e), q + [f]);
    OccursIffCounted(traces, e, q + [f]);
  }

  lemma {:induction false} UnderOwnHead(paths: seq<Path>, k: nat)
    requires k < |paths| && paths[k] != []
    ensures Under(paths, paths[k][0]) != []
  {
    var n := |paths| - 1;
    if k < n {
      UnderOwnHead(paths[..n], k);
    }
  }

  lemma {:induction false} HeadOccurs(traces: seq<Trace>, e: I64, q: Path, k: nat)
    requires k < |Suffixes(PathsOf(traces, e), q)| && Suffixes(PathsOf(traces, e), q)[k] != []
    ensures Occurs(traces, e, q + [Suffixes(PathsOf(traces, e), q)[k][0]])
  {
    UnderOwnHead(Suffixes(PathsOf(traces, e), q), k);
    GoesOn(traces, e, q, Suffixes(PathsOf(traces, e), q)[k][0]);
  }

  // ----- One reading of one executable -----

  /** Everything a reading works on, and why it may. */
  datatype Context = Context(ids: IdScheme, traces: seq<Trace>, e: I64, v: View, kids: ChildMap) {

    ghost predicate Sound() {
      && CollisionFree(ids, traces)
      && Stores(ids, traces, e, v)
      && Navigable(v.sn, v.sd, kids)
      && forall k :: k in v.sn ==> Rooted(v.sn, k)
    }
  }

  const NOTHING_STORED: Context :=
    Context(IdScheme(_ => 0, (_, _, _) => 0, _ => 0), [], 0, View(map[], map[]), map[])

  type Reading = c: Context | c.Sound() ghost witness NOTHING_STORED

  ghost function Stacks(c: Reading): seq<Path> {
    PathsOf(c.traces, c.e)
  }

  ghost function Tree(c: Reading, k: I64): Flame
    requires k in c.v.sn
  {
    BuildDag(k, c.v.sn, c.v.sd, c.kids)
  }

  /** The path of a stored row. */
  ghost function RowPath(c: Reading, k: I64): (q: Path)
    requires k in c.v.sn
    ensures q != [] && Occurs(c.traces, c.e, q) && PathId(c.ids, c.e, q) == Some(k)
  {
    PathOf(c.ids, c.traces, c.e, c.v, k)
  }

  lemma {:induction false} ChildRow(c: Reading, q: Path, k: I64)
    requires q != [] ==> Occurs(c.traces, c.e, q)
    requires k in c.v.sn && c.v.sn[k].id == k && c.v.sn[k].parent_id == PathId(c.ids, c.e, q)
    ensures var p := RowPath(c, k); p == q + [p[|p| - 1]]
  {
    ChildIsLonger(c.ids, c.traces, c.e, c.v, q, c.v.sn[k]);
  }

  lemma {:induction false} RowPathUnique(c: Reading, q: Path, k: I64)
    requires Occurs(c.traces, c.e, q) && PathId(c.ids, c.e, q) == Some(k) && k in c.v.sn
    ensures RowPath(c, k) == q
  {
    PathIdInjective(c.ids, c.traces, c.e, q, c.e, RowPath(c, k));
  }

  /** Where the stacks go on below q with f, there is a stored row, and its parent is the node of q. */
  lemma {:induction false} ChildIsStored(c: Reading, q: Path, f: Frame)
    requires Occurs(c.traces, c.e, q + [f])
    ensures var k := PathId(c.ids, c.e, q + [f]).value;
            k in c.v.sn && c.v.sn[k].id == k && c.v.sn[k].parent_id == PathId(c.ids, c.e, q)
  {
  }

  /** The root of the tree rebuilt from the row of q. */
  lemma TreeRoot(c: Reading, k: I64)
    requires k in c.v.sn
    ensures var q := RowPath(c, k);
            && Tree(c, k).frame == q[|q| - 1]
            && Tree(c, k).value == |Suffixes(Stacks(c), q)| > 0
            && (k !in c.kids ==> Tree(c, k).children == NoChildren)
  {
    var q := RowPath(c, k);
    assert NodeStored(c.ids, c.traces, c.e, c.v, q);
    SuffixesMeaning(Stacks(c), q);
    OccursIffCounted(c.traces, c.e, q);
  }

  /** A row without children ends every stack that passes through it. */
  lemma ChildlessEnds(c: Reading, k: I64)
    requires k in c.v.sn && k !in c.kids
    ensures Covers([], Suffixes(Stacks(c), RowPath(c, k)))
  {
    var q := RowPath(c, k);
    var below := Suffixes(Stacks(c), q);
    forall j | 0 <= j < |below| && below[j] != [] ensures false {
      HeadOccurs(c.traces, c.e, q, j);
      ChildIsStored(c, q, below[j][0]);
    }
  }

  lemma {:induction false} ChildrenAreSiblings(c: Reading, q: Path, k: I64)
    requires k in c.kids && PathId(c.ids, c.e, q) == Some(k)
    ensures AreSiblings(c.kids[k], c.v.sn, PathId(c.ids, c.e, q)) && c.kids[k] != []
  {
  }

  lemma {:induction false} TrieNodeFrom(t: Flame, below: seq<Path>)
    requires t.value == |below| > 0
    requires t.children.NoChildren? ==> Covers([], below)
    requires t.children.SomeChildren? ==> t.children.value != [] && IsTrie(t.children.value, below)
    ensures IsTrieNode(t, below)
  {
  }

  lemma TreeChildren(c: Reading, k: I64) returns (forest: seq<Flame>)
    requires k in c.v.sn && k in c.kids
    ensures Tree(c, k).children == SomeChildren(forest)
    ensures |forest| == |c.kids[k]|
    ensures forall i :: 0 <= i < |forest| ==> c.kids[k][i].id in c.v.sn && forest[i] == Tree(c, c.kids[k][i].id)
  {
    KidsRooted(c.v.sn, c.kids, k);
    forest := BuildAll(c.kids[k], c.v.sn, c.v.sd, c.kids);
    assert Tree(c, k).children.value == forest;
  }

  /** The tree rebuilt from the row of q counts the stacks with prefix q, shows the last frame of q, and is, below,
      the trie of what remains of those stacks. */
  lemma {:induction false} TreeIsTrieNode(c: Reading, k: I64, room: nat)
    requires k in c.v.sn && Longest(c.traces) <= |RowPath(c, k)| + room
    ensures IsTrieNode(Tree(c, k), Suffixes(Stacks(c), RowPath(c, k)))
    decreases room, 1
  {
    var q, t := RowPath(c, k), Tree(c, k);
    TreeRoot(c, k);
    if k in c.kids {
      ChildrenAreSiblings(c, q, k);
      var forest := TreeChildren(c, k);
      SiblingsAreTrie(c, q, c.kids[k], forest, room);
    } else {
      ChildlessEnds(c, k);
    }
    TrieNodeFrom(t, Suffixes(Stacks(c), q));
  }

  /** The trees rebuilt from the children of the row of q are the trie of what remains, below q, of the stacks; with
      the empty q, the trees rebuilt from the roots are the trie of all stacks. */
  lemma {:induction false} SiblingsAreTrie(c: Reading, q: Path, rows: seq<StackNode>, forest: seq<Flame>, room: nat)
    requires q != [] ==> Occurs(c.traces, c.e, q)
    requires AreSiblings(rows, c.v.sn, PathId(c.ids, c.e, q)) && Longest(c.traces) <= |q| + room
    requires |forest| == |rows|
    requires forall i :: 0 <= i < |rows| ==> forest[i] == Tree(c, rows[i].id)
    ensures IsTrie(forest, Suffixes(Stacks(c), q))
    decreases room, 0
  {
    var stacks := Suffixes(Stacks(c), q);
    forall i | 0 <= i < |rows|
      ensures RowPath(c, rows[i].id) == q + [forest[i].frame]
      ensures IsTrieNode(forest[i], Under(stacks, forest[i].frame))
    {
      var k := rows[i].id;
      ChildRow(c, q, k);
      TreeRoot(c, k);
      LongestBounds(c.traces, c.e, RowPath(c, k));
      TreeIsTrieNode(c, k, room - 1);
      GoesOn(c.traces, c.e, q, forest[i].frame);
    }
    SiblingsDistinct(c, q, rows, forest);
    SiblingsCover(c, q, rows, forest);
  }

  lemma SiblingsDistinct(c: Reading, q: Path, rows: seq<StackNode>, forest: seq<Flame>)
    requires |forest| == |rows| && DistinctKeys(NODES, rows)
    requires forall i :: 0 <= i < |rows| ==>
               rows[i].id in c.v.sn && RowPath(c, rows[i].id) == q + [forest[i].frame]
    ensures DistinctFrames(forest)
  {
  }

  lemma {:induction false} SiblingsCover(c: Reading, q: Path, rows: seq<StackNode>, forest: seq<Flame>)
    requires |forest| == |rows| && AreSiblings(rows, c.v.sn, PathId(c.ids, c.e, q))
    requires forall i :: 0 <= i < |rows| ==>
               rows[i].id in c.v.sn && RowPath(c, rows[i].id) == q + [forest[i].frame]
    ensures Covers(forest, Suffixes(Stacks(c), q))
  {
    var stacks := Suffixes(Stacks(c), q);
    forall j | 0 <= j < |stacks| && stacks[j] != []
      ensures exists i :: 0 <= i < |forest| && forest[i].frame == stacks[j][0]
    {
      var f := stacks[j][0];
      HeadOccurs(c.traces, c.e, q, j);
      ChildIsStored(c, q, f);
      var k := PathId(c.ids, c.e, q + [f]).value;
      RowPathUnique(c, q + [f], k);
      var i :| 0 <= i < |rows| && rows[i] == c.v.sn[k];
      assert (q + [forest[i].frame])[|q|] == (q + [f])[|q|];
    }
  }

  // ----- The whole graph -----

  lemma OpenReading(ids: IdScheme, traces: seq<Trace>, e: I64, v: View, kids: ChildMap) returns (c: Reading)
    requires CollisionFree(ids, traces) && Stores(ids, traces, e, v) && IsChildMap(kids, v.sn, v.sn.Keys)
    ensures c.v == v && c.kids == kids && c.traces == traces && c.e == e
  {
    StoredAreRooted(ids, traces, e, v);
    c := Context(ids, traces, e, v, kids);
  }

  lemma {:induction false} RebuiltIsTrie(c: Reading, roots: seq<StackNode>, forest: seq<Flame>)
    requires AreSiblings(roots, c.v.sn, None)
    requires RowsRooted(c.v.sn, roots) && forest == BuildAll(roots, c.v.sn, c.v.sd, c.kids)
    ensures IsTrie(forest, Stacks(c))
  {
    SiblingsAreTrie(c, [], roots, forest, Longest(c.traces));
  }

  /** The trees rebuilt from all roots contain each row exactly once, at its path, and nothing else. */
  lemma EachRowOnce(c: Reading, roots: seq<StackNode>, forest: seq<Flame>)
    requires AreSiblings(roots, c.v.sn, None)
    requires RowsRooted(c.v.sn, roots) && forest == BuildAll(roots, c.v.sn, c.v.sd, c.kids)
    ensures forall k :: k in c.v.sn ==> NodePaths(forest)[RowPath(c, k)] == 1
    ensures forall k, l :: k in c.v.sn && l in c.v.sn && k != l ==> RowPath(c, k) != RowPath(c, l)
    ensures forall x :: x in NodePaths(forest) ==> exists k :: k in c.v.sn && RowPath(c, k) == x
  {
    RebuiltIsTrie(c, roots, forest);
    forall k | k in c.v.sn ensures NodePaths(forest)[RowPath(c, k)] == 1 {
      EachNodeOnce(forest, Stacks(c), RowPath(c, k));
      OccursIffCounted(c.traces, c.e, RowPath(c, k));
    }
    forall x | x in NodePaths(forest) ensures exists k :: k in c.v.sn && RowPath(c, k) == x {
      EachNodeOnce(forest, Stacks(c), x);
      OccursIffCounted(c.traces, c.e, x);
      assert NodeStored(c.ids, c.traces, c.e, c.v, x);
      RowPathUnique(c, x, PathId(c.ids, c.e, x).value);
    }
  }

  /** What build_dag rebuilds from rows that store stacks is the trie of the stacks. */
  lemma {:induction false} RebuildsAreTries(ids: IdScheme, traces: seq<Trace>, e: I64, v: View, forest: seq<Flame>)
    requires CollisionFree(ids, traces) && Stores(ids, traces, e, v) && IsRebuild(forest, v.sn, v.sd)
    ensures IsTrie(forest, PathsOf(traces, e))
  {
    var kids, roots :|
      && Navigable(v.sn, v.sd, kids) && AreSiblings(roots, v.sn, None) && RowsRooted(v.sn, roots)
      && forest == BuildAll(roots, v.sn, v.sd, kids);
    var c := OpenReading(ids, traces, e, v, kids);
    RebuiltIsTrie(c, roots, forest);
  }
}
