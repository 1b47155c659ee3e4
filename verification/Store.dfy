/** The database and the three transactions of one post (src/bin/server.rs:73-153), with the keys and the deferred
    foreign keys of the tables (migrations/20230305040305_init.up.sql:2-35). */
module Store {
  import opened Defs
  import opened Upserts

  const BIND_LIMIT: nat := 65535

  datatype Db = Db(frames: Table<StackNodeData>, executables: Table<Executable>, nodes: Table<StackNode>)

  const EMPTY: Db := Db(map[], map[], map[])

  /** Each statement takes at most this many rows; the rest is dropped silently. */
  function Taken<R>(rows: seq<R>): seq<R> {
    if |rows| <= BIND_LIMIT / 4 then rows else rows[..BIND_LIMIT / 4]
  }

  // ----- Frames: ON CONFLICT DO NOTHING -----

  /** The unique index on (symbol, file, line_number); a missing file or line never equals another. */
  predicate SameIndexEntry(a: Frame, b: Frame) {
    && a.symbol == b.symbol
    && a.file.Some? && b.file.Some? && a.file.value == b.file.value
    && a.line.Some? && b.line.Some? && a.line.value == b.line.value
  }

  predicate Conflicts(t: Table<StackNodeData>, r: StackNodeData) {
    r.id in t || exists k :: k in t && SameIndexEntry(t[k].frame, r.frame)
  }

  function InsertFrame(t: Table<StackNodeData>, r: StackNodeData): Table<StackNodeData> {
    if Conflicts(t, r) then t else t[r.id := r]
  }

  function InsertFrames(t: Table<StackNodeData>, rows: seq<StackNodeData>): Table<StackNodeData> {
    if rows == [] then t else InsertFrame(InsertFrames(t, rows[..|rows| - 1]), rows[|rows| - 1])
  }

  // ----- The transactions: None where the statement fails and nothing is stored -----

  /** An insert without rows is not a statement; too many binds are refused. */
  predicate Issuable(rows: nat, bindsPerRow: nat) {
    0 < rows && bindsPerRow * rows <= BIND_LIMIT
  }

  function FramesTx(db: Db, all: seq<StackNodeData>): Option<Db> {
    var rows := Taken(all);
    if !Issuable(|rows|, 4) then None
    else Some(db.(frames := InsertFrames(db.frames, rows)))
  }

  /** DO UPDATE refuses to touch one row twice. */
  function ExecutablesTx(db: Db, all: seq<Executable>): Option<Db> {
    var rows := Taken(all);
    if !Issuable(|rows|, 8) || !DistinctKeys(EXECUTABLES, rows) then None
    else Some(db.(executables := UpsertAll(EXECUTABLES, db.executables, rows)))
  }

  predicate References(db: Db, r: StackNode) {
    && (r.parent_id.Some? ==> r.parent_id.value in db.nodes)
    && r.stack_node_data_id in db.frames
    && r.executable_id in db.executables
  }

  /** The foreign keys of the inserted rows are checked when the transaction commits. */
  function NodesTx(db: Db, all: seq<StackNode>): Option<Db> {
    var rows := Taken(all);
    if !Issuable(|rows|, 4) || !DistinctKeys(NODES, rows) then None
    else
      var after := db.(nodes := UpsertAll(NODES, db.nodes, rows));
      if forall i :: 0 <= i < |rows| && rows[i].id !in db.nodes ==> References(after, rows[i])
      then Some(after) else None
  }

  /** Frame and node statements never exceed the bind limit and lose rows exactly beyond the first 16383; the executable
      statement, with eight binds a row, is refused from 8192 rows on. */
  lemma BindArithmetic<R>(rows: seq<R>)
    ensures Taken(rows) <= rows && (|rows| > 16383 ==> |Taken(rows)| == 16383)
    ensures 4 * |Taken(rows)| <= BIND_LIMIT
    ensures Taken(rows) == rows <==> |rows| <= 16383
    ensures 8 * |Taken(rows)| <= BIND_LIMIT <==> |rows| <= 8191
  {
  }

  /** The first transaction fails exactly on a post without frames; the second exactly without executables, with a
      repeated one, or with more than 8191, although the statement takes up to 16383. */
  lemma StatementsFailExactly(db: Db, frames: seq<StackNodeData>, executables: seq<Executable>)
    ensures FramesTx(db, frames).None? <==> frames == []
    ensures ExecutablesTx(db, executables).None? <==>
              executables == [] || |executables| > 8191 || !DistinctKeys(EXECUTABLES, executables)
  {
    BindArithmetic(frames);
    BindArithmetic(executables);
    if |executables| <= 8191 {
      assert Taken(executables) == executables;
    }
  }

  /** What a new row refers to is neither stored nor, for a parent, among the rows that come with it. */
  ghost predicate Dangles(db: Db, rows: seq<StackNode>, r: StackNode) {
    || (r.parent_id.Some? && r.parent_id.value !in db.nodes
        && forall j :: 0 <= j < |rows| ==> Some(rows[j].id) != r.parent_id)
    || r.stack_node_data_id !in db.frames
    || r.executable_id !in db.executables
  }

  lemma {:induction false} UpsertedKeys<R(!new)>(rule: Rule<R>, t: Table<R>, rows: seq<R>, k: I64)
    ensures k in UpsertAll(rule, t, rows) <==> k in t || exists j :: 0 <= j < |rows| && rule.key(rows[j]) == k
  {
    if rows != [] {
      var n := |rows| - 1;
      UpsertedKeys(rule, t, rows[..n], k);
      if j :| 0 <= j < n && rule.key(rows[..n][j]) == k {
        assert rule.key(rows[j]) == k;
      }
      if j :| 0 <= j < |rows| && rule.key(rows[j]) == k {
        assert j < n ==> rule.key(rows[..n][j]) == k;
      }
    }
  }

  /** The third transaction fails exactly without nodes, with a repeated one, or with a new one that dangles. A row
      whose id is already stored is not checked, whatever it refers to. */
  lemma {:induction false} NodesFailExactly(db: Db, all: seq<StackNode>)
    ensures var rows := Taken(all);
            NodesTx(db, all).None? <==>
              || all == []
              || (exists i, j :: 0 <= i < j < |rows| && rows[i].id == rows[j].id)
              || (exists i :: 0 <= i < |rows| && rows[i].id !in db.nodes && Dangles(db, rows, rows[i]))
  {
    var rows := Taken(all);
    var after := db.(nodes := UpsertAll(NODES, db.nodes, rows));
    BindArithmetic(all);
    forall i | 0 <= i < |rows| ensures Dangles(db, rows, rows[i]) <==> !References(after, rows[i]) {
      DanglingExactly(db, rows, rows[i]);
    }
    DistinctIds(rows);
  }

  lemma {:induction false} DanglingExactly(db: Db, rows: seq<StackNode>, r: StackNode)
    ensures Dangles(db, rows, r) <==> !References(db.(nodes := UpsertAll(NODES, db.nodes, rows)), r)
  {
    if r.parent_id.Some? {
      UpsertedKeys(NODES, db.nodes, rows, r.parent_id.value);
      assert forall j :: 0 <= j < |rows| ==> NODES.key(rows[j]) == rows[j].id;
    }
  }

  lemma {:induction false} DistinctIds(rows: seq<StackNode>)
    ensures DistinctKeys(NODES, rows) <==> !exists i, j :: 0 <= i < j < |rows| && rows[i].id == rows[j].id
  {
    assert forall i :: 0 <= i < |rows| ==> NODES.key(rows[i]) == rows[i].id;
  }

  // ----- Posts in flight -----

  /** How many of its three transactions a post has committed, and whether the next one failed. A failed transaction
      panics: the post goes no further. */
  datatype Progress = Progress(committed: nat, failed: bool)

  datatype System = System(db: Db, progress: seq<Progress>)

  /** The next transaction of a post: None when it fails. A post that has failed or has no transaction left does
      nothing. */
  function Transact(db: Db, post: StoData, committed: nat): Option<Db> {
    match committed
    case 0 => FramesTx(db, post.stack_node_datas)
    case 1 => ExecutablesTx(db, post.profiled_binaries)
    case 2 => NodesTx(db, post.stack_nodes)
    case _ => Some(db)
  }

  predicate Finished(p: Progress) {
    p.failed || p.committed >= 3
  }

  /** Post i carries out its next transaction, if it has one. */
  function Step(posts: seq<StoData>, s: System, i: nat): System
    requires |s.progress| == |posts|
  {
    if i >= |posts| || Finished(s.progress[i]) then s
    else
      var p := s.progress[i];
      match Transact(s.db, posts[i], p.committed)
      case Some(db) => System(db, s.progress[i := p.(committed := p.committed + 1)])
      case None => s.(progress := s.progress[i := p.(failed := true)])
  }

  /** Any interleaving of any number of posts: at each point the schedule names the post that goes on. */
  function Run(posts: seq<StoData>, schedule: seq<nat>): (s: System)
    ensures |s.progress| == |posts|
  {
    if schedule == [] then System(EMPTY, seq(|posts|, _ => Progress(0, false)))
    else Step(posts, Run(posts, schedule[..|schedule| - 1]), schedule[|schedule| - 1])
  }

  lemma {:induction false} OneTurnMore(posts: seq<StoData>, schedule: seq<nat>, i: nat)
    ensures Run(posts, schedule + [i]) == Step(posts, Run(posts, schedule), i)
  {
    assert (schedule + [i])[..|schedule|] == schedule;
  }

  /** Which posts have committed at least n transactions. */
  function Have(progress: seq<Progress>, n: nat): seq<bool> {
    seq(|progress|, i requires 0 <= i < |progress| => progress[i].committed >= n)
  }
}
