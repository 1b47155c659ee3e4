/** What a deployment's hash must do for its ids to be free of collisions (src/bin/cli.rs:186-240). */
module Hashing {
  import opened Defs
  import opened Ids
  import opened Paths

  /** The bytes that are hashed for a visited node. */
  function BytesOf(r: StackNode): seq<Byte> {
    NodeBytes(r.parent_id, r.stack_node_data_id, r.executable_id)
  }

  /** The hash does not clash on the bytes of two different nodes that are visited. */
  ghost predicate NoNodeClash(h: Hash, traces: seq<Trace>) {
    var visits := VisitsOf(Hashed(h), traces);
    forall r, s :: r in visits && s in visits && Clash(h, BytesOf(r), BytesOf(s)) ==> BytesOf(r) == BytesOf(s)
  }

  /** Nor on the bytes of two frames that occur, where these are different. */
  ghost predicate NoFrameClash(h: Hash, traces: seq<Trace>) {
    forall f, g :: FrameOccurs(traces, f) && FrameOccurs(traces, g) && Clash(h, FrameBytes(f), FrameBytes(g)) ==>
      FrameBytes(f) == FrameBytes(g)
  }

  /** The bytes of the frames that occur determine them. When they do, FrameBytesFaithfulExactly says. */
  ghost predicate FramesDetermined(traces: seq<Trace>) {
    forall f, g :: FrameOccurs(traces, f) && FrameOccurs(traces, g) && FrameBytes(f) == FrameBytes(g) ==> f == g
  }

  lemma {:induction false} VisitId(h: Hash, traces: seq<Trace>, r: StackNode)
    requires r in VisitsOf(Hashed(h), traces)
    ensures r.id == IdOf(h, BytesOf(r)) && r.sample_count == 1
  {
    var e, p := OnlyVisitsOccur(Hashed(h), traces, r);
  }

  lemma {:induction false} VisitsFaithfulExactly(h: Hash, traces: seq<Trace>)
    ensures Faithful(VisitsOf(Hashed(h), traces)) <==> NoNodeClash(h, traces)
  {
    var visits := VisitsOf(Hashed(h), traces);
    forall r, s | r in visits && s in visits
      ensures r.id == s.id <==> Clash(h, BytesOf(r), BytesOf(s))
      ensures r == s <==> BytesOf(r) == BytesOf(s)
    {
      VisitId(h, traces, r);
      VisitId(h, traces, s);
      IdsCoincideExactly(h, BytesOf(r), BytesOf(s));
      NodeBytesInjective(r.parent_id, r.stack_node_data_id, r.executable_id,
                         s.parent_id, s.stack_node_data_id, s.executable_id);
    }
  }

  lemma {:induction false} FramesFaithfulExactly(h: Hash, traces: seq<Trace>)
    ensures FramesFaithful(Hashed(h), traces) <==> NoFrameClash(h, traces) && FramesDetermined(traces)
  {
    forall f, g ensures Hashed(h).frame(f) == Hashed(h).frame(g) <==> Clash(h, FrameBytes(f), FrameBytes(g)) {
      IdsCoincideExactly(h, FrameBytes(f), FrameBytes(g));
    }
    assert forall f, g :: FrameBytes(f) == FrameBytes(g) ==> Clash(h, FrameBytes(f), FrameBytes(g));
  }

  /** The ids of a deployment are free of collisions on some stacks exactly when its hash does not clash on the byte
      strings that occur, for nodes and for frames, and the frames' bytes determine them. */
  lemma {:induction false} CollisionFreeExactly(h: Hash, traces: seq<Trace>)
    ensures CollisionFree(Hashed(h), traces) <==>
            NoNodeClash(h, traces) && NoFrameClash(h, traces) && FramesDetermined(traces)
  {
    VisitsFaithfulExactly(h, traces);
    FramesFaithfulExactly(h, traces);
  }
}
