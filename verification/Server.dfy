/** The server: its tables, the posts it is working on, and its reader (src/bin/server.rs:73-277). */
module Server {
  import opened Defs
  import opened Upserts
  import opened Store
  import opened Protocol
  import opened Dag
  import opened Present
  import opened Picture
  import opened EndToEnd

  class Server {
    var db: Db
    var posts: seq<StoData>
    var progress: seq<Progress>
    ghost var schedule: seq<nat>

    /** The state is the one that the schedule of turns so far leads to. */
    ghost predicate Valid()
      reads this
    {
      && |progress| == |posts|
      && (forall j :: 0 <= j < |schedule| ==> schedule[j] < |posts|)
      && Run(posts, schedule) == System(db, progress)
    }

    constructor ()
      ensures Valid() && posts == [] && schedule == []
    {
      db, posts, progress, schedule := EMPTY, [], [], [];
    }

    /** A new request: none of its transactions has begun. */
    method Accept(post: StoData)
      requires Valid()
      modifies `posts, `progress
      ensures Valid() && posts == old(posts) + [post]
    {
      OnePostMore(posts, schedule, post);
      posts, progress := posts + [post], progress + [Progress(0, false)];
    }

    method StoreFrames(all: seq<StackNodeData>) returns (ok: bool)
      modifies `db
      ensures var after := FramesTx(old(db), all);
              ok == after.Some? && db == if ok then after.value else old(db)
    {
      var rows := Taken(all);
      if !Issuable(|rows|, 4) {
        return false;
      }
      var frames := db.frames;
      for i := 0 to |rows|
        invariant frames == InsertFrames(db.frames, rows[..i])
      {
        assert rows[..i + 1][..i] == rows[..i];
        if !Conflicts(frames, rows[i]) {
          frames := frames[rows[i].id := rows[i]];
        }
      }
      assert rows[..|rows|] == rows;
      db := db.(frames := frames);
      ok := true;
    }

    method StoreExecutables(all: seq<Executable>) returns (ok: bool)
      modifies `db
      ensures var after := ExecutablesTx(old(db), all);
              ok == after.Some? && db == if ok then after.value else old(db)
    {
      var rows := Taken(all);
      if !Issuable(|rows|, 8) {
        return false;
      }
      var executables, distinct := UpsertRows(EXECUTABLES, db.executables, rows);
      if !distinct {
        return false;
      }
      db := db.(executables := executables);
      ok := true;
    }

    method StoreNodes(all: seq<StackNode>) returns (ok: bool)
      modifies `db
      ensures var after := NodesTx(old(db), all);
              ok == after.Some? && db == if ok then after.value else old(db)
    {
      var rows := Taken(all);
      if !Issuable(|rows|, 4) {
        return false;
      }
      var nodes, distinct := UpsertRows(NODES, db.nodes, rows);
      if !distinct {
        return false;
      }
      var after := db.(nodes := nodes);
      for i := 0 to |rows|
        invariant forall j :: 0 <= j < i && rows[j].id !in db.nodes ==> References(after, rows[j])
      {
        if rows[i].id !in db.nodes && !References(after, rows[i]) {
          return false;
        }
      }
      db := after;
      ok := true;
    }

    /** The next transaction of a post, in their fixed order. */
    method Proceed(post: StoData, committed: nat) returns (ok: bool)
      requires committed < 3
      modifies `db
      ensures var after := Transact(old(db), post, committed);
              ok == after.Some? && db == if ok then after.value else old(db)
    {
      if committed == 0 {
        ok := StoreFrames(post.stack_node_datas);
      } else if committed == 1 {
        ok := StoreExecutables(post.profiled_binaries);
      } else {
        ok := StoreNodes(post.stack_nodes);
      }
    }

    /** Post i goes on to its next await: its next transaction is carried out, and a failed one ends it. */
    method Resume(i: nat)
      requires Valid() && i < |posts|
      modifies `db, `progress, `schedule
      ensures Valid() && schedule == old(schedule) + [i]
    {
      var post, p := posts[i], progress[i];
      if !Finished(p) {
        var ok := Proceed(post, p.committed);
        progress := progress[i := if ok then p.(committed := p.committed + 1) else p.(failed := true)];
      }
      schedule := schedule + [i];
      assert schedule[..|schedule| - 1] == old(schedule);
    }

    /** Other requests go on while one waits. */
    method ResumeAll(turns: seq<nat>)
      requires Valid() && forall j :: 0 <= j < |turns| ==> turns[j] < |posts|
      modifies `db, `progress, `schedule
      ensures Valid() && schedule == old(schedule) + turns
    {
      for j := 0 to |turns|
        invariant Valid() && schedule == old(schedule) + turns[..j]
      {
        Resume(turns[j]);
      }
    }

    /** The flame graph of executable e; one id is set aside for a demonstration. Whatever was posted, and whatever
        happens between the queries, the reader comes to an end and no lookup fails: the answer shows the rows
        that were stored at the first query. So it depicts the stacks that were committed by then. */
    method Dag(e: I64, between: seq<nat>, later: seq<nat>) returns (answer: Option<D3FlamegraphData>)
      requires Valid()
      requires forall j :: 0 <= j < |between| ==> between[j] < |posts|
      requires forall j :: 0 <= j < |later| ==> later[j] < |posts|
      modifies `db, `progress, `schedule
      ensures Valid() && schedule == if e == 123 then old(schedule) else old(schedule) + between + later
      ensures e == 123 ==> answer == Some(DEMO)
      ensures e != 123 ==> (answer.Some? <==> e in db.executables)
      ensures e != 123 && answer.Some? ==>
                && AnswersFrom(answer.value, db.executables[e].basename, Restrict(old(db).nodes, e), old(db).frames)
                && DepictsCommitted(answer.value, db.executables[e].basename, posts, Run(posts, old(schedule)), e)
    {
      if e == DEMO_ID {
        answer := Some(DEMO);
      } else {
        ghost var was := schedule;
        answer := Query(e, between, later);
        if answer.Some? {
          AnswersShowRows(posts, was, e, answer.value, db.executables[e].basename);
          AnswersDepictCommitted(posts, was, e, answer.value, db.executables[e].basename);
        }
      }
    }

    /** Three queries, and between them any turns of any posts: the nodes, the frames of the nodes by then, the
        executable. Without a row for the executable there is no answer. */
    method Query(e: I64, between: seq<nat>, later: seq<nat>) returns (answer: Option<D3FlamegraphData>)
      requires Valid()
      requires forall j :: 0 <= j < |between| ==> between[j] < |posts|
      requires forall j :: 0 <= j < |later| ==> later[j] < |posts|
      modifies `db, `progress, `schedule
      ensures Valid() && schedule == old(schedule) + between + later
      ensures answer.Some? <==> e in db.executables
      ensures answer.Some? ==> Answers(answer.value, db.executables[e].basename, old(db), e)
    {
      ghost var was := db;
      var sn, snd := Fetch(e, between);
      ResumeAll(later);
      answer := Respond(e, sn, snd, was);
    }

    /** The last query, and the thread that builds the answer. */
    method Respond(e: I64, sn: seq<StackNode>, snd: seq<StackNodeData>, ghost was: Db)
      returns (answer: Option<D3FlamegraphData>)
      requires Fetched(was, e, sn, snd)
      ensures answer.Some? <==> e in db.executables
      ensures answer.Some? ==> Answers(answer.value, db.executables[e].basename, was, e)
    {
      if e !in db.executables {
        return None;
      }
      var forest := Rebuild(sn, snd, Restrict(was.nodes, e), was.frames);
      answer := Some(Answer(db.executables[e].basename, forest));
    }

    /** The first two queries. */
    method Fetch(e: I64, between: seq<nat>) returns (sn: seq<StackNode>, snd: seq<StackNodeData>)
      requires Valid() && forall j :: 0 <= j < |between| ==> between[j] < |posts|
      modifies `db, `progress, `schedule
      ensures Valid() && schedule == old(schedule) + between
      ensures Fetched(old(db), e, sn, snd)
    {
      ghost var was := schedule;
      SelectedKeyed(posts, schedule, e);
      sn := Values(NODES, Restrict(db.nodes, e));
      ResumeAll(between);
      AlwaysIntegrity(posts, schedule);
      snd := SelectFrames(db, e);
      SelectedLater(posts, was, between, e, snd);
    }
  }

  /** The nodes of e in a state of the database, in any order, and their frames, with repetitions. */
  ghost predicate Fetched(db: Db, e: I64, sn: seq<StackNode>, snd: seq<StackNodeData>) {
    && Enumerates(NODES, sn, Restrict(db.nodes, e))
    && LookedUp(Restrict(db.nodes, e), Collect(FRAMES, snd), db.frames)
  }

  lemma {:induction false} SelectedKeyed(posts: seq<StoData>, schedule: seq<nat>, e: I64)
    ensures KeyedBy(NODES, Restrict(Run(posts, schedule).db.nodes, e))
  {
    AlwaysIntegrity(posts, schedule);
  }

  /** The frames selected later are those of the nodes selected first, as they were then. */
  lemma {:induction false} SelectedLater(posts: seq<StoData>, schedule: seq<nat>, between: seq<nat>, e: I64,
                                         snd: seq<StackNodeData>)
    requires IsSelection(Run(posts, schedule + between).db, e, snd)
    ensures var db := Run(posts, schedule).db; LookedUp(Restrict(db.nodes, e), Collect(FRAMES, snd), db.frames)
  {
    AlwaysIntegrity(posts, schedule);
    AlwaysIntegrity(posts, schedule + between);
    FramesKeyed(posts, schedule + between);
    RunsGrow(posts, schedule, between);
    SelectionLookedUp(Run(posts, schedule).db, Run(posts, schedule + between).db, e, snd);
  }

  /** Posts that have not had a turn make no difference. */
  lemma {:induction false} OnePostMore(posts: seq<StoData>, schedule: seq<nat>, post: StoData)
    requires forall j :: 0 <= j < |schedule| ==> schedule[j] < |posts|
    ensures var s := Run(posts, schedule);
            Run(posts + [post], schedule) == System(s.db, s.progress + [Progress(0, false)])
  {
    if schedule == [] {
      assert seq(|posts| + 1, _ => Progress(0, false)) == seq(|posts|, _ => Progress(0, false)) + [Progress(0, false)];
    } else {
      var n := |schedule| - 1;
      OnePostMore(posts, schedule[..n], post);
      var i := schedule[n];
      assert (posts + [post])[i] == posts[i];
      var s := Run(posts, schedule[..n]);
      var p, waiting := s.progress[i], Progress(0, false);
      assert (s.progress + [waiting])[i] == p;
      assert (s.progress + [waiting])[i := p.(committed := p.committed + 1)]
          == s.progress[i := p.(committed := p.committed + 1)] + [waiting];
      assert (s.progress + [waiting])[i := p.(failed := true)] == s.progress[i := p.(failed := true)] + [waiting];
    }
  }

  /** Rows are upserted one after the other; a key met twice is refused. */
  method UpsertRows<R(==)>(rule: Rule<R>, t: Table<R>, rows: seq<R>) returns (after: Table<R>, distinct: bool)
    ensures distinct == DistinctKeys(rule, rows)
    ensures distinct ==> after == UpsertAll(rule, t, rows)
  {
    after, distinct := t, true;
    var touched: set<I64> := {};
    for i := 0 to |rows|
      invariant touched == set j | 0 <= j < i :: rule.key(rows[j])
      invariant distinct && DistinctKeys(rule, rows[..i])
      invariant after == UpsertAll(rule, t, rows[..i])
    {
      assert rows[..i + 1][..i] == rows[..i];
      var k := rule.key(rows[i]);
      if k in touched {
        return after, false;
      }
      touched := touched + {k};
      after := after[k := if k in after then rule.add(after[k], rows[i]) else rows[i]];
    }
    assert rows[..|rows|] == rows;
  }

  /** The frames joined to the nodes of e. */
  ghost predicate IsSelection(db: Db, e: I64, snd: seq<StackNodeData>) {
    && (forall r :: r in snd ==> exists d :: d in db.frames && db.frames[d] == r)
    && (forall k :: k in Restrict(db.nodes, e) ==>
          db.nodes[k].stack_node_data_id in db.frames && db.frames[db.nodes[k].stack_node_data_id] in snd)
  }

  /** One row is selected for each node, so the same row may come more than once. */
  method SelectFrames(db: Db, e: I64) returns (snd: seq<StackNodeData>)
    requires Integrity(db)
    ensures IsSelection(db, e, snd)
  {
    snd := [];
    var selected := Restrict(db.nodes, e);
    var rest := selected.Keys;
    while rest != {}
      invariant rest <= selected.Keys
      invariant forall r :: r in snd ==> exists d :: d in db.frames && db.frames[d] == r
      invariant forall k :: k in selected && k !in rest ==> db.frames[db.nodes[k].stack_node_data_id] in snd
    {
      var k :| k in rest;
      ghost var was := snd;
      snd := snd + [db.frames[db.nodes[k].stack_node_data_id]];
      rest := rest - {k};
      assert snd[|was|] == db.frames[db.nodes[k].stack_node_data_id];
      assert forall r :: r in was ==> r in snd;
    }
  }

  /** The frames selected later include those of the nodes selected before. */
  lemma {:induction false} SelectionLookedUp(before: Db, now: Db, e: I64, snd: seq<StackNodeData>)
    requires Integrity(before) && Integrity(now) && Grows(before, now)
    requires KeyedBy(FRAMES, now.frames) && IsSelection(now, e, snd)
    ensures LookedUp(Restrict(before.nodes, e), Collect(FRAMES, snd), before.frames)
  {
    var sd := Collect(FRAMES, snd);
    CollectMeaning(FRAMES, snd);
    forall k | k in Restrict(before.nodes, e)
      ensures var d := before.nodes[k].stack_node_data_id; d in sd && d in before.frames && sd[d] == before.frames[d]
    {
      assert NODES.shape(now.nodes[k]) == NODES.shape(before.nodes[k]);
      assert now.nodes[k].stack_node_data_id == before.nodes[k].stack_node_data_id;
      assert k in Restrict(now.nodes, e);
      assert References(before, before.nodes[k]);
      var d := now.nodes[k].stack_node_data_id;
      assert FRAMES.key(now.frames[d]) == d;
      var d' :| d' in now.frames && now.frames[d'] == sd[d];
      assert FRAMES.key(sd[d]) == d;
    }
  }
}
