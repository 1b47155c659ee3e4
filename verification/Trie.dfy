/** Flame graphs as tries: what it means for a flame graph to represent a list of stacks, and what follows: prefix
    counts, the sums shown at each node, and the recovery of every stack from the graph. */
module Trie {
  import opened Defs
  import opened Paths

  /** A node of a flame graph: its frame, its value, and the nodes below it. */
  datatype Flame = Flame(frame: Frame, value: int, children: Children)

  datatype Children = NoChildren | SomeChildren(value: seq<Flame>)

  // ----- The stacks below a prefix -----

  /** What remains, below f, of the paths that start with f. */
  function Under(paths: seq<Path>, f: Frame): seq<Path> {
    if paths == [] then []
    else
      var p := paths[|paths| - 1];
      Under(paths[..|paths| - 1], f) + if p != [] && p[0] == f then [p[1..]] else []
  }

  /** What remains, below q, of the paths that start with q. */
  function Suffixes(paths: seq<Path>, q: Path): seq<Path>
    decreases |q|
  {
    if q == [] then paths else Suffixes(Under(paths, q[0]), q[1..])
  }

  lemma HeadAndTail(p: Path, f: Frame, q: Path)
    ensures [f] + q <= p <==> p != [] && p[0] == f && q <= p[1..]
    ensures [f] + q == p <==> p != [] && p[0] == f && q == p[1..]
  {
  }

  lemma {:induction false} UnderCounts(paths: seq<Path>, f: Frame, q: Path)
    ensures CountPrefix(Under(paths, f), q) == CountPrefix(paths, [f] + q)
  {
    if paths != [] {
      var n := |paths| - 1;
      UnderCounts(paths[..n], f, q);
      HeadAndTail(paths[n], f, q);
      if paths[n] != [] && paths[n][0] == f {
        CountPrefixAppend(Under(paths[..n], f), paths[n][1..], q);
      } else {
        assert Under(paths, f) == Under(paths[..n], f);
      }
    }
  }

  lemma {:induction false} UnderOccurrences(paths: seq<Path>, f: Frame, q: Path)
    ensures multiset(Under(paths, f))[q] == multiset(paths)[[f] + q]
  {
    if paths != [] {
      var n := |paths| - 1;
      UnderOccurrences(paths[..n], f, q);
      HeadAndTail(paths[n], f, q);
      assert paths == paths[..n] + [paths[n]];
    }
  }

  lemma {:induction false} SuffixesMeaning(paths: seq<Path>, q: Path)
    ensures |Suffixes(paths, q)| == CountPrefix(paths, q)
    ensures multiset(Suffixes(paths, q))[[]] == multiset(paths)[q]
    decreases |q|
  {
    if q == [] {
      AllStartWithNothing(paths);
    } else {
      SuffixesMeaning(Under(paths, q[0]), q[1..]);
      UnderCounts(paths, q[0], q[1..]);
      UnderOccurrences(paths, q[0], q[1..]);
      assert q == [q[0]] + q[1..];
    }
  }

  lemma {:induction false} AllStartWithNothing(paths: seq<Path>)
    ensures CountPrefix(paths, []) == |paths|
  {
    if paths != [] {
      AllStartWithNothing(paths[..|paths| - 1]);
    }
  }

  lemma {:induction false} SuffixesExtend(paths: seq<Path>, q: Path, f: Frame)
    ensures Suffixes(paths, q + [f]) == Under(Suffixes(paths, q), f)
    decreases |q|
  {
    if q == [] {
      assert ([] + [f])[1..] == [];
      assert Suffixes(Under(paths, f), []) == Under(paths, f);
    } else {
      assert (q + [f])[1..] == q[1..] + [f];
      SuffixesExtend(Under(paths, q[0]), q[1..], f);
    }
  }

  // ----- Tries -----

  function Kids(t: Flame): seq<Flame> {
    if t.children.NoChildren? then [] else t.children.value
  }

  predicate DistinctFrames(forest: seq<Flame>) {
    forall i, j :: 0 <= i < j < |forest| ==> forest[i].frame != forest[j].frame
  }

  predicate Covers(forest: seq<Flame>, paths: seq<Path>) {
    forall k :: 0 <= k < |paths| && paths[k] != [] ==>
      exists i :: 0 <= i < |forest| && forest[i].frame == paths[k][0]
  }

  /** The forest is the trie of the paths: siblings are distinct, the frame of every path's head is there, and each
      tree counts the paths that start with its frame and is, below, the trie of what remains of them. A node
      without children has none; it never has an empty list of them. */
  predicate IsTrie(forest: seq<Flame>, paths: seq<Path>)
    decreases forest
  {
    && DistinctFrames(forest)
    && Covers(forest, paths)
    && forall i :: 0 <= i < |forest| ==> IsTrieNode(forest[i], Under(paths, forest[i].frame))
  }

  predicate IsTrieNode(t: Flame, below: seq<Path>)
    decreases t
  {
    && below != []
    && t.value == |below|
    && if t.children.NoChildren? then Covers([], below) else t.children.value != [] && IsTrie(t.children.value, below)
  }

  function Find(forest: seq<Flame>, f: Frame): Option<Flame> {
    if forest == [] then None
    else if forest[0].frame == f then Some(forest[0])
    else Find(forest[1..], f)
  }

  /** The node of the graph at the end of a non-empty path. */
  function NodeAt(forest: seq<Flame>, p: Path): Option<Flame>
    requires p != []
    decreases |p|
  {
    var t := Find(forest, p[0]);
    if t.None? || |p| == 1 then t else NodeAt(Kids(t.value), p[1..])
  }

  lemma {:induction false} FindMeaning(forest: seq<Flame>, f: Frame)
    ensures var t := Find(forest, f);
            && (t.Some? ==> t.value in forest && t.value.frame == f)
            && (t.None? ==> forall i :: 0 <= i < |forest| ==> forest[i].frame != f)
  {
    if forest != [] {
      FindMeaning(forest[1..], f);
      forall i | 0 <= i < |forest| && Find(forest, f).None? ensures forest[i].frame != f {
        assert i > 0 ==> forest[i] == forest[1..][i - 1];
      }
    }
  }

  lemma {:induction false} NothingUnder(paths: seq<Path>, f: Frame)
    requires forall k :: 0 <= k < |paths| && paths[k] != [] ==> paths[k][0] != f
    ensures Under(paths, f) == []
  {
    if paths != [] {
      NothingUnder(paths[..|paths| - 1], f);
    }
  }

  /** One step of a lookup. */
  lemma {:induction false} TrieFind(forest: seq<Flame>, paths: seq<Path>, f: Frame)
    requires IsTrie(forest, paths)
    ensures var t := Find(forest, f);
            && (t.Some? <==> Under(paths, f) != [])
            && (t.Some? ==> t.value.frame == f && IsTrieNode(t.value, Under(paths, f)))
  {
    FindMeaning(forest, f);
    if Find(forest, f).None? {
      NothingUnder(paths, f);
    } else {
      var i :| 0 <= i < |forest| && forest[i] == Find(forest, f).value;
      assert IsTrieNode(forest[i], Under(paths, forest[i].frame));
    }
  }

  lemma {:induction false} KidsAreTrie(t: Flame, below: seq<Path>)
    requires IsTrieNode(t, below)
    ensures IsTrie(Kids(t), below)
  {
  }

  lemma {:induction false} NothingBelow(q: Path)
    ensures Suffixes([], q) == []
    decreases |q|
  {
    if q != [] {
      assert Under([], q[0]) == [];
      NothingBelow(q[1..]);
    }
  }

  lemma {:induction false} TrieDescend(forest: seq<Flame>, paths: seq<Path>, p: Path)
    requires IsTrie(forest, paths) && p != []
    ensures var t := NodeAt(forest, p);
            && (t.Some? <==> Suffixes(paths, p) != [])
            && (t.Some? ==> t.value.frame == p[|p| - 1] && IsTrieNode(t.value, Suffixes(paths, p)))
    decreases |p|
  {
    var t, below := Find(forest, p[0]), Under(paths, p[0]);
    TrieFind(forest, paths, p[0]);
    assert Suffixes(paths, p) == Suffixes(below, p[1..]);
    if t.None? {
      NothingBelow(p[1..]);
    } else if |p| == 1 {
      assert Suffixes(below, []) == below;
    } else {
      KidsAreTrie(t.value, below);
      assert NodeAt(forest, p) == NodeAt(Kids(t.value), p[1..]);
      TrieDescend(Kids(t.value), below, p[1..]);
    }
  }

  /** Looking a path up in a trie: there is a node exactly when some stack has the path as a prefix, its value is the
      number of those stacks, and below it hangs the trie of what remains of them. */
  lemma {:induction false} TrieLookup(forest: seq<Flame>, paths: seq<Path>, p: Path)
    requires IsTrie(forest, paths) && p != []
    ensures var t := NodeAt(forest, p);
            && (t.Some? <==> CountPrefix(paths, p) > 0)
            && (t.Some? ==>
                  && t.value.frame == p[|p| - 1]
                  && t.value.value == CountPrefix(paths, p)
                  && IsTrie(Kids(t.value), Suffixes(paths, p)))
  {
    TrieDescend(forest, paths, p);
    SuffixesMeaning(paths, p);
    if NodeAt(forest, p).Some? {
      KidsAreTrie(NodeAt(forest, p).value, Suffixes(paths, p));
    }
  }

  // ----- Sums -----

  function SumValues(forest: seq<Flame>): int {
    if forest == [] then 0 else SumValues(forest[..|forest| - 1]) + forest[|forest| - 1].value
  }

  function UnderTotal(fs: seq<Frame>, paths: seq<Path>): nat {
    if fs == [] then 0 else UnderTotal(fs[..|fs| - 1], paths) + |Under(paths, fs[|fs| - 1])|
  }

  lemma {:induction false} UnderStep(paths: seq<Path>, p: Path, f: Frame)
    ensures |Under(paths + [p], f)| == |Under(paths, f)| + if p != [] && p[0] == f then 1 else 0
  {
  }

  lemma {:induction false} UnderTotalStep(fs: seq<Frame>, paths: seq<Path>, p: Path)
    requires forall i, j :: 0 <= i < j < |fs| ==> fs[i] != fs[j]
    ensures UnderTotal(fs, paths + [p]) == UnderTotal(fs, paths) + if p != [] && p[0] in fs then 1 else 0
  {
    if fs != [] {
      var n := |fs| - 1;
      UnderTotalStep(fs[..n], paths, p);
      UnderStep(paths, p, fs[n]);
      assert fs == fs[..n] + [fs[n]];
    }
  }

  lemma {:induction false} UnderTotalMeaning(fs: seq<Frame>, paths: seq<Path>)
    requires forall i, j :: 0 <= i < j < |fs| ==> fs[i] != fs[j]
    requires forall k :: 0 <= k < |paths| && paths[k] != [] ==> paths[k][0] in fs
    ensures UnderTotal(fs, paths) + multiset(paths)[[]] == |paths|
  {
    if paths == [] {
      NothingInTotal(fs);
    } else {
      var n := |paths| - 1;
      assert paths == paths[..n] + [paths[n]];
      UnderTotalMeaning(fs, paths[..n]);
      UnderTotalStep(fs, paths[..n], paths[n]);
    }
  }

  lemma {:induction false} NothingInTotal(fs: seq<Frame>)
    ensures UnderTotal(fs, []) == 0
  {
    if fs != [] {
      NothingInTotal(fs[..|fs| - 1]);
    }
  }

  lemma {:induction false} SumIsUnderTotal(forest: seq<Flame>, fs: seq<Frame>, paths: seq<Path>)
    requires |fs| == |forest|
    requires forall i :: 0 <= i < |fs| ==> fs[i] == forest[i].frame && forest[i].value == |Under(paths, fs[i])|
    ensures SumValues(forest) == UnderTotal(fs, paths)
  {
    if fs != [] {
      SumIsUnderTotal(forest[..|fs| - 1], fs[..|fs| - 1], paths);
    }
  }

  /** The values of sibling trees add up to the number of non-empty stacks they stand for. */
  lemma {:induction false} TrieSums(forest: seq<Flame>, paths: seq<Path>)
    requires IsTrie(forest, paths)
    ensures SumValues(forest) == |paths| - multiset(paths)[[]]
  {
    var fs := seq(|forest|, i requires 0 <= i < |forest| => forest[i].frame);
    forall i | 0 <= i < |fs| ensures forest[i].value == |Under(paths, fs[i])| {
      assert IsTrieNode(forest[i], Under(paths, forest[i].frame));
    }
    forall k | 0 <= k < |paths| && paths[k] != [] ensures paths[k][0] in fs {
      var i :| 0 <= i < |forest| && forest[i].frame == paths[k][0];
      assert fs[i] == paths[k][0];
    }
    SumIsUnderTotal(forest, fs, paths);
    UnderTotalMeaning(fs, paths);
  }

  /** At every node the value is at least the sum of the children's values, and the difference is the number of
      stacks that end exactly there. */
  lemma {:induction false} TrieEnds(forest: seq<Flame>, paths: seq<Path>, p: Path)
    requires IsTrie(forest, paths) && p != [] && NodeAt(forest, p).Some?
    ensures var t := NodeAt(forest, p).value;
            t.value - SumValues(Kids(t)) == multiset(paths)[p]
  {
    TrieLookup(forest, paths, p);
    TrieSums(Kids(NodeAt(forest, p).value), Suffixes(paths, p));
    SuffixesMeaning(paths, p);
  }

  // ----- Reading the stacks back -----

  /** Every node of the forest, as the path to it, as often as its weight says. */
  function Emit(forest: seq<Flame>, above: Path, weight: Flame -> nat): multiset<Path>
    decreases forest
  {
    if forest == [] then multiset{}
    else EmitTree(forest[0], above + [forest[0].frame], weight) + Emit(forest[1..], above, weight)
  }

  function EmitTree(t: Flame, here: Path, weight: Flame -> nat): multiset<Path>
    decreases t
  {
    multiset{}[here := weight(t)] + if t.children.NoChildren? then multiset{} else Emit(t.children.value, here, weight)
  }

  /** Siblings are distinct at every level. */
  predicate Deterministic(forest: seq<Flame>)
    decreases forest
  {
    DistinctFrames(forest) && forall i :: 0 <= i < |forest| ==> DeterministicTree(forest[i])
  }

  predicate DeterministicTree(t: Flame)
    decreases t
  {
    t.children.SomeChildren? ==> Deterministic(t.children.value)
  }

  lemma {:induction false} TriesAreDeterministic(forest: seq<Flame>, paths: seq<Path>)
    requires IsTrie(forest, paths)
    ensures Deterministic(forest)
    decreases forest
  {
    forall i | 0 <= i < |forest| ensures DeterministicTree(forest[i]) {
      assert IsTrieNode(forest[i], Under(paths, forest[i].frame));
      NodesAreDeterministic(forest[i], Under(paths, forest[i].frame));
    }
  }

  lemma {:induction false} NodesAreDeterministic(t: Flame, below: seq<Path>)
    requires IsTrieNode(t, below)
    ensures DeterministicTree(t)
    decreases t
  {
    if t.children.SomeChildren? {
      TriesAreDeterministic(t.children.value, below);
    }
  }

  /** Only paths that go below the starting point are emitted. */
  lemma {:induction false} EmitGoesDown(forest: seq<Flame>, above: Path, weight: Flame -> nat, x: Path)
    requires x in Emit(forest, above, weight)
    ensures above <= x && above != x
    decreases forest
  {
    var here := above + [forest[0].frame];
    if x in EmitTree(forest[0], here, weight) {
      EmitTreeGoesDown(forest[0], here, weight, x);
      assert x[..|above|] == here[..|above|] == above;
    } else {
      EmitGoesDown(forest[1..], above, weight, x);
    }
  }

  lemma {:induction false} EmitTreeGoesDown(t: Flame, here: Path, weight: Flame -> nat, x: Path)
    requires x in EmitTree(t, here, weight)
    ensures here <= x
    decreases t
  {
    if x != here {
      EmitGoesDown(t.children.value, here, weight, x);
    }
  }

  lemma {:induction false} EmitTreeGoesElsewhere(t: Flame, above: Path, weight: Flame -> nat, y: Path)
    requires y != [] && y[0] != t.frame
    ensures above + y !in EmitTree(t, above + [t.frame], weight)
  {
    var here := above + [t.frame];
    assert here[|above|] == t.frame && (above + y)[|above|] == y[0];
    if above + y in EmitTree(t, here, weight) {
      EmitTreeGoesDown(t, here, weight, above + y);
    }
  }

  function WeightAt(t: Option<Flame>, weight: Flame -> nat): nat {
    if t.Some? then weight(t.value) else 0
  }

  lemma FirstIsOnly(forest: seq<Flame>)
    requires forest != [] && DistinctFrames(forest)
    ensures Find(forest[1..], forest[0].frame).None?
  {
    var f := forest[0].frame;
    FindMeaning(forest[1..], f);
    assert forall i :: 0 <= i < |forest[1..]| ==> forest[1..][i] == forest[i + 1];
  }

  lemma {:induction false} TailDeterministic(forest: seq<Flame>)
    requires forest != [] && Deterministic(forest)
    ensures Deterministic(forest[1..])
  {
  }

  /** A path is emitted as often as the weight of the one node found along it says. */
  lemma {:induction false} EmitMeaning(forest: seq<Flame>, above: Path, weight: Flame -> nat, y: Path)
    requires Deterministic(forest) && y != []
    ensures Emit(forest, above, weight)[above + y] == WeightAt(NodeAt(forest, y), weight)
    decreases forest
  {
    if forest != [] {
      var t, here := forest[0], above + [forest[0].frame];
      TailDeterministic(forest);
      EmitMeaning(forest[1..], above, weight, y);
      if y[0] == t.frame {
        FirstIsOnly(forest);
        assert above + y == here + y[1..];
        EmitTreeMeaning(t, here, weight, y[1..]);
        assert |y| == 1 <==> y[1..] == [];
      } else {
        EmitTreeGoesElsewhere(t, above, weight, y);
      }
    }
  }

  lemma {:induction false} EmitTreeMeaning(t: Flame, here: Path, weight: Flame -> nat, z: Path)
    requires DeterministicTree(t)
    ensures EmitTree(t, here, weight)[here + z] ==
            if z == [] then weight(t) else WeightAt(NodeAt(Kids(t), z), weight)
    decreases t
  {
    if z == [] {
      assert here + z == here;
      if t.children.SomeChildren? && here in Emit(t.children.value, here, weight) {
        EmitGoesDown(t.children.value, here, weight, here);
      }
    } else if t.children.SomeChildren? {
      EmitMeaning(t.children.value, here, weight, z);
    }
  }

  /** The stacks a flame graph stands for: at every node, as many as its value exceeds its children's. */
  function Decode(forest: seq<Flame>): multiset<Path> {
    Emit(forest, [], Own)
  }

  function Own(t: Flame): nat {
    var d := t.value - SumValues(Kids(t));
    if d < 0 then 0 else d
  }

  /** Nothing is lost: from the trie alone every non-empty stack is read back, as often as it was sampled. */
  lemma {:induction false} RoundTrip(forest: seq<Flame>, paths: seq<Path>)
    requires IsTrie(forest, paths)
    ensures Decode(forest) == multiset(paths)[[] := 0]
  {
    TriesAreDeterministic(forest, paths);
    forall x: Path ensures Decode(forest)[x] == multiset(paths)[[] := 0][x] {
      if x == [] {
        if x in Decode(forest) {
          EmitGoesDown(forest, [], Own, x);
        }
      } else {
        EmitMeaning(forest, [], Own, x);
        assert [] + x == x;
        TrieLookup(forest, paths, x);
        if NodeAt(forest, x).Some? {
          TrieEnds(forest, paths, x);
        } else {
          SuffixesMeaning(paths, x);
        }
      }
    }
  }

  /** Every node of the graph, as the path to it. */
  function NodePaths(forest: seq<Flame>): multiset<Path> {
    Emit(forest, [], One)
  }

  function One(t: Flame): nat { 1 }

  /** Every prefix of a stack is a node of the graph exactly once, and nothing else is. */
  lemma {:induction false} EachNodeOnce(forest: seq<Flame>, paths: seq<Path>, x: Path)
    requires IsTrie(forest, paths)
    ensures NodePaths(forest)[x] == if x != [] && CountPrefix(paths, x) > 0 then 1 else 0
  {
    TriesAreDeterministic(forest, paths);
    if x == [] {
      if x in NodePaths(forest) {
        EmitGoesDown(forest, [], One, x);
      }
    } else {
      EmitMeaning(forest, [], One, x);
      assert [] + x == x;
      TrieLookup(forest, paths, x);
    }
  }
}
