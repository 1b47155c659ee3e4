/** The reader's thread (src/bin/server.rs:210-276): the child map, build_dag, and what they do on any rows. */
module Dag {
  import opened Defs
  import opened Upserts
  import opened Trie

  type ChildMap = map<I64, seq<StackNode>>

  // ----- The child map -----

  /** Each parent has a non-empty list of children, each once. */
  ghost predicate KidsDistinct(kids: ChildMap) {
    forall p :: p in kids ==> kids[p] != [] && DistinctKeys(NODES, kids[p])
  }

  /** A listed child is one of the rows with ids in `done`, and is listed under its parent. */
  ghost predicate KidsSound(kids: ChildMap, sn: Table<StackNode>, done: set<I64>) {
    forall p, r :: p in kids && r in kids[p] ==> r.id in done && r.id in sn && sn[r.id] == r && r.parent_id == Some(p)
  }

  /** Every row with its id in `done` and with a parent is listed. */
  ghost predicate KidsComplete(kids: ChildMap, sn: Table<StackNode>, done: set<I64>) {
    forall k :: k in done && k in sn && sn[k].parent_id.Some? ==>
      sn[k].parent_id.value in kids && sn[k] in kids[sn[k].parent_id.value]
  }

  /** The child map of the rows with ids in `done`. */
  ghost predicate IsChildMap(kids: ChildMap, sn: Table<StackNode>, done: set<I64>) {
    KidsDistinct(kids) && KidsSound(kids, sn, done) && KidsComplete(kids, sn, done)
  }

  /** Files a row under its parent: `entry().and_modify(push).or_insert(vec![..])`. Roots are not filed. */
  function File(kids: ChildMap, v: StackNode): ChildMap {
    if v.parent_id.None? then kids
    else
      var p := v.parent_id.value;
      kids[p := if p in kids then kids[p] + [v] else [v]]
  }

  /** Inverts the parent pointers; the rows are visited in an arbitrary order. */
  method InvertParents(sn: Table<StackNode>) returns (kids: ChildMap)
    requires KeyedBy(NODES, sn)
    ensures IsChildMap(kids, sn, sn.Keys)
  {
    kids := map[];
    var rest := sn.Keys;
    ghost var done: set<I64> := {};
    while rest != {}
      invariant done + rest == sn.Keys && done !! rest
      invariant IsChildMap(kids, sn, done)
    {
      var k :| k in rest;
      FileKeepsChildMap(kids, sn, done, k);
      kids := File(kids, sn[k]);
      rest, done := rest - {k}, done + {k};
    }
    assert done == sn.Keys;
  }

  lemma FileKeepsChildMap(kids: ChildMap, sn: Table<StackNode>, done: set<I64>, k: I64)
    requires IsChildMap(kids, sn, done) && KeyedBy(NODES, sn) && k in sn && k !in done
    ensures IsChildMap(File(kids, sn[k]), sn, done + {k})
  {
  }

  // ----- Rows below the roots -----

  /** Row k is n parent steps below a row without a parent. */
  predicate Reaches(sn: Table<StackNode>, k: I64, n: nat)
    decreases n
  {
    && k in sn
    && if n == 0 then sn[k].parent_id.None? else sn[k].parent_id.Some? && Reaches(sn, sn[k].parent_id.value, n - 1)
  }

  ghost predicate Rooted(sn: Table<StackNode>, k: I64) {
    exists n: nat :: Reaches(sn, k, n)
  }

  ghost function DepthOf(sn: Table<StackNode>, k: I64): (n: nat)
    requires Rooted(sn, k)
    ensures Reaches(sn, k, n)
  {
    var n: nat :| Reaches(sn, k, n);
    n
  }

  lemma {:induction false} DepthUnique(sn: Table<StackNode>, k: I64, m: nat, n: nat)
    requires Reaches(sn, k, m) && Reaches(sn, k, n)
    ensures m == n
    decreases n
  {
    if m > 0 && n > 0 {
      DepthUnique(sn, sn[k].parent_id.value, m - 1, n - 1);
    }
  }

  lemma {:induction false} DepthIs(sn: Table<StackNode>, k: I64, n: nat)
    requires Reaches(sn, k, n)
    ensures Rooted(sn, k) && DepthOf(sn, k) == n
  {
    DepthUnique(sn, k, DepthOf(sn, k), n);
  }

  /** At most n steps below a row without a parent. */
  ghost predicate Within(sn: Table<StackNode>, k: I64, n: nat) {
    exists m: nat :: m <= n && Reaches(sn, k, m)
  }

  /** The row itself and the rows above it are n + 1 different rows. */
  lemma {:induction false} RowsAbove(sn: Table<StackNode>, k: I64, n: nat) returns (above: set<I64>)
    requires Reaches(sn, k, n)
    ensures above <= sn.Keys && |above| == n + 1
    ensures forall j :: j in above ==> Within(sn, j, n)
    decreases n
  {
    assert Within(sn, k, n);
    if n == 0 {
      above := {k};
    } else {
      var rest := RowsAbove(sn, sn[k].parent_id.value, n - 1);
      if k in rest {
        var m: nat :| m <= n - 1 && Reaches(sn, k, m);
        DepthUnique(sn, k, m, n);
      }
      above := rest + {k};
      assert forall j :: j in rest ==> Within(sn, j, n - 1);
    }
  }

  lemma {:induction false} SubsetSize(s: set<I64>, t: set<I64>)
    requires s <= t
    ensures |s| <= |t|
  {
    if s != {} {
      var x :| x in s;
      SubsetSize(s - {x}, t - {x});
    }
  }

  /** Whatever the parent links of other rows are, a row below a root has one depth, less than the number of rows. */
  lemma {:induction false} DepthBounded(sn: Table<StackNode>, k: I64, n: nat)
    requires Reaches(sn, k, n)
    ensures forall m: nat :: Reaches(sn, k, m) ==> m == n
    ensures n < |sn|
  {
    forall m: nat | Reaches(sn, k, m) ensures m == n {
      DepthUnique(sn, k, m, n);
    }
    var above := RowsAbove(sn, k, n);
    SubsetSize(above, sn.Keys);
    assert |sn| == |sn.Keys|;
  }

  lemma BelowRooted(sn: Table<StackNode>, p: I64, k: I64)
    requires Rooted(sn, p) && k in sn && sn[k].parent_id == Some(p)
    ensures Rooted(sn, k) && DepthOf(sn, k) == DepthOf(sn, p) + 1 < |sn|
  {
    assert Reaches(sn, k, DepthOf(sn, p) + 1);
    DepthIs(sn, k, DepthOf(sn, p) + 1);
    DepthBounded(sn, k, DepthOf(sn, p) + 1);
  }

  /** The rows of b include those of a, with their parents. */
  ghost predicate Extends(a: Table<StackNode>, b: Table<StackNode>) {
    forall k :: k in a ==> k in b && b[k].parent_id == a[k].parent_id
  }

  lemma {:induction false} ReachesMore(a: Table<StackNode>, b: Table<StackNode>, k: I64, n: nat)
    requires Extends(a, b) && Reaches(a, k, n)
    ensures Reaches(b, k, n)
    decreases n
  {
    if n > 0 {
      ReachesMore(a, b, a[k].parent_id.value, n - 1);
    }
  }

  // ----- build_dag -----

  /** What build_dag works on: the child map, and the frame of every row. */
  ghost predicate Navigable(sn: Table<StackNode>, sd: Table<StackNodeData>, kids: ChildMap) {
    && IsChildMap(kids, sn, sn.Keys)
    && forall k :: k in sn ==> sn[k].stack_node_data_id in sd
  }

  lemma KidsRooted(sn: Table<StackNode>, kids: ChildMap, cur: I64)
    requires IsChildMap(kids, sn, sn.Keys) && Rooted(sn, cur) && cur in kids
    ensures forall i :: 0 <= i < |kids[cur]| ==>
              Rooted(sn, kids[cur][i].id) && DepthOf(sn, kids[cur][i].id) == DepthOf(sn, cur) + 1 < |sn|
  {
    forall i | 0 <= i < |kids[cur]|
      ensures Rooted(sn, kids[cur][i].id) && DepthOf(sn, kids[cur][i].id) == DepthOf(sn, cur) + 1 < |sn|
    {
      assert kids[cur][i] in kids[cur];
      BelowRooted(sn, cur, kids[cur][i].id);
    }
  }

  /** On any rows both lookups are defined and the recursion ends: it starts below a root, every step down adds one to
      the depth, and the depth stays below the number of rows. */
  function BuildDag(cur: I64, sn: Table<StackNode>, sd: Table<StackNodeData>, kids: ChildMap): Flame
    requires Navigable(sn, sd, kids) && Rooted(sn, cur)
    decreases |sn| - DepthOf(sn, cur)
  {
    var curSn := sn[cur];
    var curSd := sd[curSn.stack_node_data_id];
    Flame(curSd.frame, curSn.sample_count,
          if cur in kids then
            KidsRooted(sn, kids, cur);
            SomeChildren(seq(|kids[cur]|, i requires 0 <= i < |kids[cur]| => BuildDag(kids[cur][i].id, sn, sd, kids)))
          else NoChildren)
  }

  ghost predicate RowsRooted(sn: Table<StackNode>, rows: seq<StackNode>) {
    forall i :: 0 <= i < |rows| ==> Rooted(sn, rows[i].id)
  }

  function BuildAll(rows: seq<StackNode>, sn: Table<StackNode>, sd: Table<StackNodeData>, kids: ChildMap): seq<Flame>
    requires Navigable(sn, sd, kids) && RowsRooted(sn, rows)
  {
    seq(|rows|, i requires 0 <= i < |rows| => BuildDag(rows[i].id, sn, sd, kids))
  }

  // ----- Which rows are shown -----

  /** The rows whose parent is the given one, each once. */
  ghost predicate AreSiblings(rows: seq<StackNode>, sn: Table<StackNode>, parent: Option<I64>) {
    && DistinctKeys(NODES, rows)
    && (forall r :: r in rows ==> r.id in sn && sn[r.id] == r && r.parent_id == parent)
    && (forall k :: k in sn && sn[k].parent_id == parent ==> sn[k] in rows)
  }

  /** The nodes of a graph, each before those below it: frames and values. */
  function Nodes(t: Flame): seq<(Frame, int)>
    decreases t
  {
    [(t.frame, t.value)] + if t.children.NoChildren? then [] else AllNodes(t.children.value)
  }

  function AllNodes(forest: seq<Flame>): seq<(Frame, int)>
    decreases forest
  {
    if forest == [] then [] else AllNodes(forest[..|forest| - 1]) + Nodes(forest[|forest| - 1])
  }

  /** What the nodes of the given rows show. */
  function Labels(shown: seq<I64>, sn: Table<StackNode>, sd: Table<StackNodeData>): seq<(Frame, int)>
    requires forall i :: 0 <= i < |shown| ==> shown[i] in sn && sn[shown[i]].stack_node_data_id in sd
  {
    seq(|shown|, i requires 0 <= i < |shown| =>
      (sd[sn[shown[i]].stack_node_data_id].frame, sn[shown[i]].sample_count))
  }

  ghost predicate RowsAt(sn: Table<StackNode>, rows: seq<StackNode>, depth: nat) {
    forall i :: 0 <= i < |rows| ==> Reaches(sn, rows[i].id, depth)
  }

  lemma KidsAt(sn: Table<StackNode>, kids: ChildMap, cur: I64)
    requires IsChildMap(kids, sn, sn.Keys) && Rooted(sn, cur) && cur in kids
    ensures RowsAt(sn, kids[cur], DepthOf(sn, cur) + 1) && DepthOf(sn, cur) + 1 < |sn|
  {
    KidsRooted(sn, kids, cur);
    assert kids[cur] != [] && DepthOf(sn, kids[cur][0].id) < |sn|;
  }

  /** The rows for which build_dag is called, in the order of the calls. */
  ghost function Calls(cur: I64, sn: Table<StackNode>, kids: ChildMap): (shown: seq<I64>)
    requires IsChildMap(kids, sn, sn.Keys) && Rooted(sn, cur)
    ensures forall i :: 0 <= i < |shown| ==> shown[i] in sn
    decreases |sn| - DepthOf(sn, cur), 0
  {
    [cur] +
    if cur in kids then
      KidsAt(sn, kids, cur);
      AllCalls(kids[cur], DepthOf(sn, cur) + 1, sn, kids)
    else []
  }

  ghost function AllCalls(rows: seq<StackNode>, depth: nat, sn: Table<StackNode>, kids: ChildMap): (shown: seq<I64>)
    requires IsChildMap(kids, sn, sn.Keys) && RowsAt(sn, rows, depth)
    ensures forall i :: 0 <= i < |shown| ==> shown[i] in sn
    decreases |sn| - depth, |rows|
  {
    if rows == [] then []
    else
      var n := |rows| - 1;
      DepthIs(sn, rows[n].id, depth);
      AllCalls(rows[..n], depth, sn, kids) + Calls(rows[n].id, sn, kids)
  }

  /** The row d steps below the root that row k, n steps below it, is at or below. */
  function AncestorAt(sn: Table<StackNode>, k: I64, n: nat, d: nat): (a: I64)
    requires Reaches(sn, k, n) && d <= n
    ensures Reaches(sn, a, d)
    decreases n
  {
    if n == d then k else AncestorAt(sn, sn[k].parent_id.value, n - 1, d)
  }

  lemma {:induction false} AncestorStep(sn: Table<StackNode>, k: I64, n: nat, d: nat)
    requires Reaches(sn, k, n) && d < n
    ensures sn[AncestorAt(sn, k, n, d + 1)].parent_id == Some(AncestorAt(sn, k, n, d))
    decreases n
  {
    if d + 1 < n {
      AncestorStep(sn, sn[k].parent_id.value, n - 1, d);
    }
  }

  /** Row k is at or below row a, which is d steps below a root. */
  ghost predicate Passes(sn: Table<StackNode>, k: I64, d: nat, a: I64) {
    Rooted(sn, k) && d <= DepthOf(sn, k) && AncestorAt(sn, k, DepthOf(sn, k), d) == a
  }

  ghost predicate PassesOne(sn: Table<StackNode>, k: I64, d: nat, rows: seq<StackNode>) {
    exists i :: 0 <= i < |rows| && Passes(sn, k, d, rows[i].id)
  }

  /** What is at or below a row is that row, or at or below one of its children. */
  lemma PassesOn(sn: Table<StackNode>, kids: ChildMap, cur: I64, k: I64)
    requires IsChildMap(kids, sn, sn.Keys) && Rooted(sn, cur) && KeyedBy(NODES, sn)
    ensures var d := DepthOf(sn, cur);
            && (Passes(sn, k, d, cur) <==> k == cur || (cur in kids && PassesOne(sn, k, d + 1, kids[cur])))
            && (k == cur && cur in kids ==> !PassesOne(sn, k, d + 1, kids[cur]))
  {
    var d := DepthOf(sn, cur);
    if Rooted(sn, k) && d < DepthOf(sn, k) {
      var a := AncestorAt(sn, k, DepthOf(sn, k), d + 1);
      AncestorStep(sn, k, DepthOf(sn, k), d);
      assert NODES.key(sn[a]) == a;
      if Passes(sn, k, d, cur) {
        assert sn[a] in kids[cur];
        var i :| 0 <= i < |kids[cur]| && kids[cur][i] == sn[a];
        assert Passes(sn, k, d + 1, kids[cur][i].id);
      }
      if cur in kids && PassesOne(sn, k, d + 1, kids[cur]) {
        var i :| 0 <= i < |kids[cur]| && Passes(sn, k, d + 1, kids[cur][i].id);
        assert kids[cur][i] in kids[cur];
      }
    }
  }

  lemma {:induction false} CallsOnce(cur: I64, sn: Table<StackNode>, kids: ChildMap, k: I64)
    requires IsChildMap(kids, sn, sn.Keys) && Rooted(sn, cur) && KeyedBy(NODES, sn)
    ensures multiset(Calls(cur, sn, kids))[k] == if Passes(sn, k, DepthOf(sn, cur), cur) then 1 else 0
    decreases |sn| - DepthOf(sn, cur), 0
  {
    PassesOn(sn, kids, cur, k);
    if cur in kids {
      KidsAt(sn, kids, cur);
      AllCallsOnce(kids[cur], DepthOf(sn, cur) + 1, sn, kids, k);
    }
  }

  lemma {:induction false} AllCallsOnce(rows: seq<StackNode>, depth: nat, sn: Table<StackNode>, kids: ChildMap, k: I64)
    requires IsChildMap(kids, sn, sn.Keys) && RowsAt(sn, rows, depth) && KeyedBy(NODES, sn) && DistinctKeys(NODES, rows)
    ensures multiset(AllCalls(rows, depth, sn, kids))[k] == if PassesOne(sn, k, depth, rows) then 1 else 0
    decreases |sn| - depth, |rows|
  {
    if rows != [] {
      var n := |rows| - 1;
      DepthIs(sn, rows[n].id, depth);
      AllCallsOnce(rows[..n], depth, sn, kids, k);
      CallsOnce(rows[n].id, sn, kids, k);
      PassesLast(sn, k, depth, rows);
    }
  }

  lemma PassesLast(sn: Table<StackNode>, k: I64, d: nat, rows: seq<StackNode>)
    requires rows != [] && DistinctKeys(NODES, rows)
    ensures var n := |rows| - 1;
            && (PassesOne(sn, k, d, rows) <==> PassesOne(sn, k, d, rows[..n]) || Passes(sn, k, d, rows[n].id))
            && !(PassesOne(sn, k, d, rows[..n]) && Passes(sn, k, d, rows[n].id))
  {
    var n := |rows| - 1;
    if PassesOne(sn, k, d, rows[..n]) {
      var i :| 0 <= i < n && Passes(sn, k, d, rows[..n][i].id);
      assert Passes(sn, k, d, rows[i].id);
      assert NODES.key(rows[i]) != NODES.key(rows[n]);
    }
    if i :| 0 <= i < |rows| && Passes(sn, k, d, rows[i].id) {
      assert i < n ==> rows[..n][i] == rows[i];
    }
  }

  lemma LabelsAppend(xs: seq<I64>, ys: seq<I64>, sn: Table<StackNode>, sd: Table<StackNodeData>)
    requires forall i :: 0 <= i < |xs| ==> xs[i] in sn && sn[xs[i]].stack_node_data_id in sd
    requires forall i :: 0 <= i < |ys| ==> ys[i] in sn && sn[ys[i]].stack_node_data_id in sd
    ensures Labels(xs + ys, sn, sd) == Labels(xs, sn, sd) + Labels(ys, sn, sd)
  {
  }

  /** The nodes of a rebuilt tree are those of the rows called for, in order. */
  lemma {:induction false} CallsShown(cur: I64, sn: Table<StackNode>, sd: Table<StackNodeData>, kids: ChildMap)
    requires Navigable(sn, sd, kids) && Rooted(sn, cur)
    ensures Nodes(BuildDag(cur, sn, sd, kids)) == Labels(Calls(cur, sn, kids), sn, sd)
    decreases |sn| - DepthOf(sn, cur), 0
  {
    var t := BuildDag(cur, sn, sd, kids);
    if cur in kids {
      KidsRooted(sn, kids, cur);
      KidsAt(sn, kids, cur);
      var forest := BuildAll(kids[cur], sn, sd, kids);
      assert t.children.value == forest;
      AllCallsShown(kids[cur], DepthOf(sn, cur) + 1, forest, sn, sd, kids);
      LabelsAppend([cur], AllCalls(kids[cur], DepthOf(sn, cur) + 1, sn, kids), sn, sd);
    }
    assert Labels([cur], sn, sd) == [(t.frame, t.value)];
  }

  lemma {:induction false} AllCallsShown(rows: seq<StackNode>, depth: nat, forest: seq<Flame>,
                                         sn: Table<StackNode>, sd: Table<StackNodeData>, kids: ChildMap)
    requires Navigable(sn, sd, kids) && RowsAt(sn, rows, depth) && |forest| == |rows|
    requires forall i :: 0 <= i < |rows| ==>
               Rooted(sn, rows[i].id) && forest[i] == BuildDag(rows[i].id, sn, sd, kids)
    ensures AllNodes(forest) == Labels(AllCalls(rows, depth, sn, kids), sn, sd)
    decreases |sn| - depth, |rows|
  {
    if rows != [] {
      var n := |rows| - 1;
      DepthIs(sn, rows[n].id, depth);
      AllCallsShown(rows[..n], depth, forest[..n], sn, sd, kids);
      CallsShown(rows[n].id, sn, sd, kids);
      LabelsAppend(AllCalls(rows[..n], depth, sn, kids), Calls(rows[n].id, sn, kids), sn, sd);
    }
  }

  lemma RootsAt(sn: Table<StackNode>, roots: seq<StackNode>)
    requires AreSiblings(roots, sn, None)
    ensures RowsAt(sn, roots, 0) && RowsRooted(sn, roots)
  {
    forall i | 0 <= i < |roots| ensures Reaches(sn, roots[i].id, 0) && Rooted(sn, roots[i].id) {
      assert roots[i] in roots;
      assert Reaches(sn, roots[i].id, 0);
    }
  }

  lemma RootedPasses(sn: Table<StackNode>, roots: seq<StackNode>, k: I64)
    requires AreSiblings(roots, sn, None) && KeyedBy(NODES, sn)
    ensures PassesOne(sn, k, 0, roots) <==> Rooted(sn, k)
  {
    if Rooted(sn, k) {
      var a := AncestorAt(sn, k, DepthOf(sn, k), 0);
      assert sn[a] in roots && NODES.key(sn[a]) == a;
      var i :| 0 <= i < |roots| && roots[i] == sn[a];
      assert Passes(sn, k, 0, roots[i].id);
    }
  }

  /** The union of the trees from all roots, for any rows: each row below a root is shown exactly once, with its frame
      and its count, and no other row is shown. */
  lemma RootedRowsShownOnce(sn: Table<StackNode>, sd: Table<StackNodeData>, kids: ChildMap, roots: seq<StackNode>)
    returns (shown: seq<I64>)
    requires Navigable(sn, sd, kids) && KeyedBy(NODES, sn) && AreSiblings(roots, sn, None) && RowsRooted(sn, roots)
    ensures forall k :: multiset(shown)[k] == if Rooted(sn, k) then 1 else 0
    ensures forall i :: 0 <= i < |shown| ==> shown[i] in sn
    ensures AllNodes(BuildAll(roots, sn, sd, kids)) == Labels(shown, sn, sd)
  {
    RootsAt(sn, roots);
    shown := AllCalls(roots, 0, sn, kids);
    forall k ensures multiset(shown)[k] == if Rooted(sn, k) then 1 else 0 {
      AllCallsOnce(roots, 0, sn, kids, k);
      RootedPasses(sn, roots, k);
    }
    AllCallsShown(roots, 0, BuildAll(roots, sn, sd, kids), sn, sd, kids);
  }

  // ----- The reader's thread -----

  function Roots(sn: seq<StackNode>): seq<StackNode> {
    if sn == [] then []
    else
      var r := sn[|sn| - 1];
      Roots(sn[..|sn| - 1]) + if r.parent_id.None? then [r] else []
  }

  lemma {:induction false} RootsMeaning(sn: seq<StackNode>)
    ensures forall r :: r in Roots(sn) <==> r in sn && r.parent_id.None?
    ensures DistinctKeys(NODES, sn) ==> DistinctKeys(NODES, Roots(sn))
  {
    if sn != [] {
      var n := |sn| - 1;
      var rest, r := Roots(sn[..n]), sn[n];
      RootsMeaning(sn[..n]);
      assert sn == sn[..n] + [r];
      if DistinctKeys(NODES, sn) {
        forall i, j | 0 <= i < j < |Roots(sn)| ensures NODES.key(Roots(sn)[i]) != NODES.key(Roots(sn)[j]) {
          if j < |rest| {
            assert NODES.key(rest[i]) != NODES.key(rest[j]);
          } else {
            assert rest[i] in rest;
            var k :| 0 <= k < n && sn[k] == rest[i];
            assert NODES.key(sn[k]) != NODES.key(sn[n]);
          }
        }
      }
    }
  }

  lemma {:induction false} RootsAreSiblings(sn: seq<StackNode>, m: Table<StackNode>)
    requires Enumerates(NODES, sn, m)
    ensures AreSiblings(Roots(sn), m, None)
  {
    RootsMeaning(sn);
    forall r | r in Roots(sn) ensures r.id in m && m[r.id] == r && r.parent_id == None {
      var i :| 0 <= i < |sn| && sn[i] == r;
      assert NODES.key(sn[i]) in m;
    }
  }

  /** The frames of the rows have been looked up in a table of frames. */
  ghost predicate LookedUp(sn: Table<StackNode>, sd: Table<StackNodeData>, frames: Table<StackNodeData>) {
    forall k :: k in sn ==> var d := sn[k].stack_node_data_id; d in sd && d in frames && sd[d] == frames[d]
  }

  /** A tree depends on no other frames than those of the rows. */
  lemma {:induction false} OnlyLookedUpMatters(cur: I64, sn: Table<StackNode>, sd: Table<StackNodeData>,
                                               frames: Table<StackNodeData>, kids: ChildMap)
    requires Navigable(sn, sd, kids) && LookedUp(sn, sd, frames) && Rooted(sn, cur)
    ensures BuildDag(cur, sn, sd, kids) == BuildDag(cur, sn, frames, kids)
    decreases |sn| - DepthOf(sn, cur)
  {
    if cur in kids {
      KidsRooted(sn, kids, cur);
      forall i | 0 <= i < |kids[cur]|
        ensures BuildDag(kids[cur][i].id, sn, sd, kids) == BuildDag(kids[cur][i].id, sn, frames, kids)
      {
        OnlyLookedUpMatters(kids[cur][i].id, sn, sd, frames, kids);
      }
      assert BuildDag(cur, sn, sd, kids).children.value == BuildDag(cur, sn, frames, kids).children.value;
    }
  }

  /** The trees that build_dag makes of all roots, in whatever order roots and siblings stand. */
  ghost predicate IsRebuild(forest: seq<Flame>, sn: Table<StackNode>, sd: Table<StackNodeData>) {
    exists kids, roots ::
      && Navigable(sn, sd, kids) && AreSiblings(roots, sn, None) && RowsRooted(sn, roots)
      && forest == BuildAll(roots, sn, sd, kids)
  }

  /** The reader's thread, on any rows: it ends, and both lookups succeed when the frames of the nodes are there. The
      nodes come in any order, the frames with repetitions. */
  method Rebuild(sn: seq<StackNode>, snd: seq<StackNodeData>, ghost nodes: Table<StackNode>,
                 ghost frames: Table<StackNodeData>)
    returns (forest: seq<Flame>)
    requires Enumerates(NODES, sn, nodes) && LookedUp(nodes, Collect(FRAMES, snd), frames)
    ensures IsRebuild(forest, nodes, frames)
  {
    var sdMap := Collect(FRAMES, snd);
    var snMap := Collect(NODES, sn);
    CollectEnumeration(NODES, sn, nodes);
    assert KeyedBy(NODES, snMap) by { CollectMeaning(NODES, sn); }
    var kids := InvertParents(snMap);
    RootsAreSiblings(sn, snMap);
    RootsAt(snMap, Roots(sn));
    forest := BuildAll(Roots(sn), snMap, sdMap, kids);
    RebuiltFromFrames(Roots(sn), snMap, sdMap, frames, kids);
  }

  lemma RebuiltFromFrames(roots: seq<StackNode>, sn: Table<StackNode>, sd: Table<StackNodeData>,
                          frames: Table<StackNodeData>, kids: ChildMap)
    requires Navigable(sn, sd, kids) && LookedUp(sn, sd, frames)
    requires AreSiblings(roots, sn, None) && RowsRooted(sn, roots)
    ensures IsRebuild(BuildAll(roots, sn, sd, kids), sn, frames)
  {
    forall i | 0 <= i < |roots|
      ensures BuildDag(roots[i].id, sn, sd, kids) == BuildDag(roots[i].id, sn, frames, kids)
    {
      OnlyLookedUpMatters(roots[i].id, sn, sd, frames, kids);
    }
    assert BuildAll(roots, sn, sd, kids) == BuildAll(roots, sn, frames, kids);
  }
}
