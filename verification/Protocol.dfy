/** What every interleaving of posts keeps, whatever was posted: referential integrity, every row with all but its
    counters, and the sums of the counters. */
module Protocol {
  import opened Defs
  import opened Upserts
  import opened Store

  // ----- For any posts whatsoever -----

  ghost predicate Integrity(db: Db) {
    forall k :: k in db.nodes ==> db.nodes[k].id == k && References(db, db.nodes[k])
  }

  lemma {:induction false} InsertFramesKeeps(t: Table<StackNodeData>, rows: seq<StackNodeData>)
    ensures forall k :: k in t ==> k in InsertFrames(t, rows) && InsertFrames(t, rows)[k] == t[k]
  {
    if rows != [] {
      InsertFramesKeeps(t, rows[..|rows| - 1]);
    }
  }

  lemma {:induction false} UpsertAllKeeps<R>(rule: Rule<R>, t: Table<R>, rows: seq<R>)
    ensures t.Keys <= UpsertAll(rule, t, rows).Keys
  {
    if rows != [] {
      UpsertAllKeeps(rule, t, rows[..|rows| - 1]);
    }
  }

  /** A stored node keeps its parent, data and executable; a new one has those of the row that brought it. */
  lemma {:induction false} NodesKeepShape(t: Table<StackNode>, rows: seq<StackNode>, k: I64)
    requires k in UpsertAll(NODES, t, rows)
    ensures var r := UpsertAll(NODES, t, rows)[k].(sample_count := 0);
            if k in t then r == t[k].(sample_count := 0)
            else exists i :: 0 <= i < |rows| && rows[i].id == k && r == rows[i].(sample_count := 0)
  {
    var n := |rows| - 1;
    if rows != [] && k in UpsertAll(NODES, t, rows[..n]) {
      NodesKeepShape(t, rows[..n], k);
      if k !in t {
        var i :| 0 <= i < n && rows[..n][i].id == k
                 && UpsertAll(NODES, t, rows[..n])[k].(sample_count := 0) == rows[..n][i].(sample_count := 0);
        assert rows[i].id == k;
      }
    } else if rows != [] {
      assert NODES.key(rows[n]) == k;
      assert UpsertAll(NODES, t, rows)[k] == rows[n];
      if k in t { UpsertAllKeeps(NODES, t, rows[..n]); }
    }
  }

  lemma {:induction false} ShapesKept<R(!new)>(rule: Rule<R>, t: Table<R>, rows: seq<R>)
    requires Lawful(rule)
    ensures KeepsShapes(rule, t, UpsertAll(rule, t, rows))
  {
    if rows != [] {
      ShapesKept(rule, t, rows[..|rows| - 1]);
    }
  }

  lemma {:induction false} ExecutableShapesKept(t: Table<Executable>, rows: seq<Executable>)
    ensures KeepsShapes(EXECUTABLES, t, UpsertAll(EXECUTABLES, t, rows))
  {
    ExecutablesAreLawful();
    ShapesKept(EXECUTABLES, t, rows);
  }

  lemma {:induction false} NodeShapesKept(t: Table<StackNode>, rows: seq<StackNode>)
    ensures KeepsShapes(NODES, t, UpsertAll(NODES, t, rows))
  {
    NodesAreLawful();
    ShapesKept(NODES, t, rows);
  }

  /** The rows of a are all in b, the same but for their counters. */
  ghost predicate KeepsShapes<R(!new)>(rule: Rule<R>, a: Table<R>, b: Table<R>) {
    forall k :: k in a ==> k in b && rule.shape(b[k]) == rule.shape(a[k])
  }

  /** Later states only add: a row that a reader has seen is still there, unchanged but for its counters. */
  ghost predicate Grows(a: Db, b: Db) {
    && (forall k :: k in a.frames ==> k in b.frames && b.frames[k] == a.frames[k])
    && KeepsShapes(EXECUTABLES, a.executables, b.executables)
    && KeepsShapes(NODES, a.nodes, b.nodes)
  }

  lemma {:induction false} FramesGrow(db: Db, rows: seq<StackNodeData>)
    ensures Grows(db, db.(frames := InsertFrames(db.frames, rows)))
  {
    InsertFramesKeeps(db.frames, rows);
  }

  lemma {:induction false} ExecutablesGrow(db: Db, rows: seq<Executable>)
    ensures Grows(db, db.(executables := UpsertAll(EXECUTABLES, db.executables, rows)))
  {
    ExecutableShapesKept(db.executables, rows);
  }

  lemma {:induction false} NodesGrow(db: Db, rows: seq<StackNode>)
    ensures Grows(db, db.(nodes := UpsertAll(NODES, db.nodes, rows)))
  {
    NodeShapesKept(db.nodes, rows);
  }

  lemma TransactGrows(db: Db, post: StoData, committed: nat)
    requires Transact(db, post, committed).Some?
    ensures Grows(db, Transact(db, post, committed).value)
  {
    match committed
    case 0 => FramesGrow(db, Taken(post.stack_node_datas));
    case 1 => ExecutablesGrow(db, Taken(post.profiled_binaries));
    case 2 => NodesGrow(db, Taken(post.stack_nodes));
    case _ =>
  }

  lemma TransactKeepsIntegrity(db: Db, post: StoData, committed: nat)
    requires Integrity(db) && Transact(db, post, committed).Some?
    ensures Integrity(Transact(db, post, committed).value)
  {
    var after := Transact(db, post, committed).value;
    TransactGrows(db, post, committed);
    forall k | k in after.nodes ensures after.nodes[k].id == k && References(after, after.nodes[k]) {
      if committed == 2 {
        NodesKeepShape(db.nodes, Taken(post.stack_nodes), k);
      }
      if k in db.nodes {
        assert References(db, db.nodes[k]);
      }
    }
  }

  /** In every reachable state, also between the transactions of posts in flight, and whatever was posted, each stored
      node's parent, frame and executable are stored. */
  lemma {:induction false} AlwaysIntegrity(posts: seq<StoData>, schedule: seq<nat>)
    ensures Integrity(Run(posts, schedule).db)
  {
    if schedule != [] {
      var n := |schedule| - 1;
      AlwaysIntegrity(posts, schedule[..n]);
      var s, i := Run(posts, schedule[..n]), schedule[n];
      if i < |posts| && Transact(s.db, posts[i], s.progress[i].committed).Some? {
        TransactKeepsIntegrity(s.db, posts[i], s.progress[i].committed);
      }
    }
  }

  lemma {:induction false} InsertFramesKeyed(t: Table<StackNodeData>, rows: seq<StackNodeData>)
    requires KeyedBy(FRAMES, t)
    ensures KeyedBy(FRAMES, InsertFrames(t, rows))
  {
    if rows != [] {
      InsertFramesKeyed(t, rows[..|rows| - 1]);
    }
  }

  lemma {:induction false} FramesKeyed(posts: seq<StoData>, schedule: seq<nat>)
    ensures KeyedBy(FRAMES, Run(posts, schedule).db.frames)
  {
    if schedule != [] {
      var n := |schedule| - 1;
      var s, i := Run(posts, schedule[..n]), schedule[n];
      FramesKeyed(posts, schedule[..n]);
      if i < |posts| {
        InsertFramesKeyed(s.db.frames, Taken(posts[i].stack_node_datas));
      }
    }
  }

  lemma {:induction false} RunsGrow(posts: seq<StoData>, schedule: seq<nat>, more: seq<nat>)
    ensures Grows(Run(posts, schedule).db, Run(posts, schedule + more).db)
  {
    if more == [] {
      assert schedule + more == schedule;
    } else {
      var n := |more| - 1;
      assert (schedule + more)[..|schedule + more| - 1] == schedule + more[..n];
      RunsGrow(posts, schedule, more[..n]);
      var s, i := Run(posts, schedule + more[..n]), more[n];
      if i < |posts| && Transact(s.db, posts[i], s.progress[i].committed).Some? {
        TransactGrows(s.db, posts[i], s.progress[i].committed);
      }
    }
  }

  // ----- The index on the contents of frames -----

  predicate Indexed(f: Frame) {
    f.file.Some? && f.line.Some?
  }

  /** No indexed frame is stored twice. */
  ghost predicate Unique(t: Table<StackNodeData>) {
    forall k, l :: k in t && l in t && k != l && t[k].frame == t[l].frame ==> !Indexed(t[k].frame)
  }

  /** The row is stored; or a row with another id and the same indexed frame is. */
  ghost predicate Kept(t: Table<StackNodeData>, r: StackNodeData) {
    r.id in t || (Indexed(r.frame) && exists k :: k in t && t[k].frame == r.frame)
  }

  lemma {:induction false} InsertFramesUnique(t: Table<StackNodeData>, rows: seq<StackNodeData>)
    requires Unique(t)
    ensures Unique(InsertFrames(t, rows))
  {
    if rows != [] {
      InsertFramesUnique(t, rows[..|rows| - 1]);
    }
  }

  lemma {:induction false} InsertFramesKept(t: Table<StackNodeData>, rows: seq<StackNodeData>)
    ensures forall r :: r in rows ==> Kept(InsertFrames(t, rows), r)
  {
    if rows != [] {
      var n := |rows| - 1;
      var u := InsertFrames(t, rows[..n]);
      InsertFramesKept(t, rows[..n]);
      assert rows == rows[..n] + [rows[n]];
      forall r | r in rows ensures Kept(InsertFrames(t, rows), r) {
        if r in rows[..n] {
          StaysKept(u, rows[n], r);
        } else {
          NewRowKept(u, r);
        }
      }
    }
  }

  lemma StaysKept(t: Table<StackNodeData>, s: StackNodeData, r: StackNodeData)
    requires Kept(t, r)
    ensures Kept(InsertFrame(t, s), r)
  {
    if r.id !in t {
      var k :| k in t && t[k].frame == r.frame;
      assert InsertFrame(t, s)[k].frame == r.frame;
    }
  }

  lemma NewRowKept(t: Table<StackNodeData>, r: StackNodeData)
    ensures Kept(InsertFrame(t, r), r)
  {
    if r.id !in t && Conflicts(t, r) {
      var k :| k in t && SameIndexEntry(t[k].frame, r.frame);
      assert t[k].frame == r.frame;
    }
  }

  /** In every reachable state no indexed frame is stored twice, whatever was posted; and of a post that has committed
      its frames, no frame among the first 16383 is missing. */
  lemma {:induction false} AlwaysIndexed(posts: seq<StoData>, schedule: seq<nat>)
    ensures var s := Run(posts, schedule);
            && Unique(s.db.frames)
            && forall i, r :: 0 <= i < |posts| && s.progress[i].committed >= 1 &&
                              r in Taken(posts[i].stack_node_datas) ==>
                 Kept(s.db.frames, r)
  {
    if schedule != [] {
      var n := |schedule| - 1;
      var was, j := Run(posts, schedule[..n]), schedule[n];
      var s := Run(posts, schedule);
      AlwaysIndexed(posts, schedule[..n]);
      assert schedule == schedule[..n] + [j];
      RunsGrow(posts, schedule[..n], [j]);
      if j < |posts| {
        InsertFramesUnique(was.db.frames, Taken(posts[j].stack_node_datas));
        InsertFramesKept(was.db.frames, Taken(posts[j].stack_node_datas));
      }
      forall i, r | 0 <= i < |posts| && s.progress[i].committed >= 1 && r in Taken(posts[i].stack_node_datas)
        ensures Kept(s.db.frames, r)
      {
        if was.progress[i].committed >= 1 {
          assert Kept(was.db.frames, r);
        }
      }
    }
  }

  // ----- Conservation -----

  /** The counts that the posts with finished flags have brought. */
  function SumPosted<R>(posted: seq<seq<R>>, on: seq<bool>, weight: R -> int): int
    requires |posted| == |on|
  {
    if posted == [] then 0
    else
      var n := |posted| - 1;
      SumPosted(posted[..n], on[..n], weight) + if on[n] then SumRows(posted[n], weight) else 0
  }

  lemma {:induction false} SumPostedStep<R>(posted: seq<seq<R>>, on: seq<bool>, i: nat, weight: R -> int)
    requires |posted| == |on| && i < |on| && !on[i]
    ensures SumPosted(posted, on[i := true], weight) == SumPosted(posted, on, weight) + SumRows(posted[i], weight)
  {
    var n := |posted| - 1;
    if i == n {
      assert on[i := true][..n] == on[..n];
    } else {
      SumPostedStep(posted[..n], on[..n], i, weight);
      assert on[i := true][..n] == on[..n][i := true];
    }
  }

  lemma {:induction false} SumPostedNothing<R>(posted: seq<seq<R>>, on: seq<bool>, weight: R -> int)
    requires |posted| == |on| && forall i :: 0 <= i < |on| ==> !on[i]
    ensures SumPosted(posted, on, weight) == 0
  {
    if posted != [] {
      SumPostedNothing(posted[..|posted| - 1], on[..|on| - 1], weight);
    }
  }

  function PostedNodes(posts: seq<StoData>): seq<seq<StackNode>> {
    seq(|posts|, i requires 0 <= i < |posts| => Taken(posts[i].stack_nodes))
  }

  function PostedExecutables(posts: seq<StoData>): seq<seq<Executable>> {
    seq(|posts|, i requires 0 <= i < |posts| => Taken(posts[i].profiled_binaries))
  }

  /** Post i comes forward by one transaction: only its own flag changes, and only that of the transaction. */
  lemma HaveStep(progress: seq<Progress>, i: nat, n: nat)
    requires i < |progress|
    ensures var p := progress[i];
            && Have(progress[i := p.(failed := true)], n) == Have(progress, n)
            && Have(progress[i := p.(committed := p.committed + 1)], n)
               == (if p.committed + 1 == n then Have(progress, n)[i := true] else Have(progress, n))
  {
  }

  lemma TransactConserves(db: Db, post: StoData, committed: nat, nodeWeight: StackNode -> int,
                          executableWeight: Executable -> int)
    requires Transact(db, post, committed).Some? && KeyedBy(NODES, db.nodes) && KeyedBy(EXECUTABLES, db.executables)
    requires Additive(NODES, nodeWeight) && Additive(EXECUTABLES, executableWeight)
    ensures var after := Transact(db, post, committed).value;
            && KeyedBy(NODES, after.nodes) && KeyedBy(EXECUTABLES, after.executables)
            && Total(after.nodes, nodeWeight)
               == Total(db.nodes, nodeWeight) +
                  (if committed == 2 then SumRows(Taken(post.stack_nodes), nodeWeight) else 0)
            && Total(after.executables, executableWeight)
               == Total(db.executables, executableWeight) +
                  (if committed == 1 then SumRows(Taken(post.profiled_binaries), executableWeight) else 0)
  {
    UpsertAllConserves(NODES, db.nodes, Taken(post.stack_nodes), nodeWeight);
    UpsertAllConserves(EXECUTABLES, db.executables, Taken(post.profiled_binaries), executableWeight);
  }

  ghost predicate Conserved(posts: seq<StoData>, s: System, nodeWeight: StackNode -> int,
                            executableWeight: Executable -> int) {
    && |s.progress| == |posts|
    && KeyedBy(NODES, s.db.nodes) && KeyedBy(EXECUTABLES, s.db.executables)
    && Total(s.db.nodes, nodeWeight) == SumPosted(PostedNodes(posts), Have(s.progress, 3), nodeWeight)
    && Total(s.db.executables, executableWeight)
       == SumPosted(PostedExecutables(posts), Have(s.progress, 2), executableWeight)
  }

  lemma StepConserves(posts: seq<StoData>, s: System, i: nat, nodeWeight: StackNode -> int,
                      executableWeight: Executable -> int)
    requires Conserved(posts, s, nodeWeight, executableWeight)
    requires Additive(NODES, nodeWeight) && Additive(EXECUTABLES, executableWeight)
    ensures Conserved(posts, Step(posts, s, i), nodeWeight, executableWeight)
  {
    if i < |posts| && !Finished(s.progress[i]) {
      var p := s.progress[i];
      HaveStep(s.progress, i, 2);
      HaveStep(s.progress, i, 3);
      if Transact(s.db, posts[i], p.committed).Some? {
        TransactConserves(s.db, posts[i], p.committed, nodeWeight, executableWeight);
        if p.committed == 1 {
          SumPostedStep(PostedExecutables(posts), Have(s.progress, 2), i, executableWeight);
        } else if p.committed == 2 {
          SumPostedStep(PostedNodes(posts), Have(s.progress, 3), i, nodeWeight);
        }
      }
    }
  }

  /** Nothing is lost and nothing is counted twice, collisions or not: at any moment the counters of the nodes add up
      to those in the node rows of the posts that have committed them, and likewise for the executables; and so does
      every other weight that adding rows adds up, such as the counter of one executable. */
  lemma {:induction false} AlwaysConserved(posts: seq<StoData>, schedule: seq<nat>, nodeWeight: StackNode -> int,
                                           executableWeight: Executable -> int)
    requires Additive(NODES, nodeWeight) && Additive(EXECUTABLES, executableWeight)
    ensures Conserved(posts, Run(posts, schedule), nodeWeight, executableWeight)
  {
    if schedule == [] {
      SumPostedNothing(PostedNodes(posts), Have(Run(posts, schedule).progress, 3), nodeWeight);
      SumPostedNothing(PostedExecutables(posts), Have(Run(posts, schedule).progress, 2), executableWeight);
    } else {
      var n := |schedule| - 1;
      AlwaysConserved(posts, schedule[..n], nodeWeight, executableWeight);
      StepConserves(posts, Run(posts, schedule[..n]), schedule[n], nodeWeight, executableWeight);
    }
  }
}
