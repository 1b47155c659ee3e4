/** The buffering thread of the client (src/bin/cli.rs:257-282). */
module Receiver {
  import opened Defs

  const CAPACITY: nat := 200

  datatype State = State(buf: seq<Sample>, handedOff: seq<seq<Sample>>)

  /** What one received message does: the message that finds the buffer full hands it off, and is itself dropped. */
  function Next<C>(symbolize: C -> Sample, s: State, chunk: C): State {
    if |s.buf| < CAPACITY then s.(buf := s.buf + [symbolize(chunk)])
    else State([], s.handedOff + [s.buf])
  }

  function After<C>(symbolize: C -> Sample, chunks: seq<C>): State {
    if chunks == [] then State([], [])
    else Next(symbolize, After(symbolize, chunks[..|chunks| - 1]), chunks[|chunks| - 1])
  }

  class BufferThread<C> {
    const symbolize: C -> Sample
    var buf: seq<Sample>
    var handedOff: seq<seq<Sample>>
    ghost var received: seq<C>

    ghost predicate Valid()
      reads this
    {
      State(buf, handedOff) == After(symbolize, received)
    }

    constructor (symbolize: C -> Sample)
      ensures Valid() && received == [] && this.symbolize == symbolize
    {
      this.symbolize := symbolize;
      buf, handedOff, received := [], [], [];
    }

    method Receive(chunk: C)
      requires Valid()
      modifies this
      ensures Valid() && received == old(received) + [chunk]
    {
      if |buf| < CAPACITY {
        buf := buf + [symbolize(chunk)];
      } else {
        handedOff := handedOff + [buf];
        buf := [];
      }
      received := received + [chunk];
      assert received[..|received| - 1] == old(received);
    }
  }

  function Symbolized<C>(symbolize: C -> Sample, chunks: seq<C>): seq<Sample> {
    seq(|chunks|, i requires 0 <= i < |chunks| => symbolize(chunks[i]))
  }

  /** After n messages, n div 201 buffers have been handed off: the k-th holds the 200 messages from the 201k-th on,
      the message after them is lost, and the messages since the last loss are still in the buffer. */
  lemma {:induction false} BufferAccounting<C>(symbolize: C -> Sample, chunks: seq<C>)
    ensures var s, n := After(symbolize, chunks), |chunks|;
            && |s.handedOff| == n / 201
            && (forall k :: 0 <= k < |s.handedOff| ==>
                  s.handedOff[k] == Symbolized(symbolize, chunks[201 * k..201 * k + 200]))
            && s.buf == Symbolized(symbolize, chunks[201 * (n / 201)..])
            && n == 200 * |s.handedOff| + |s.buf| + |s.handedOff|
  {
    if chunks != [] {
      var n := |chunks| - 1;
      var was, now := After(symbolize, chunks[..n]), After(symbolize, chunks);
      BufferAccounting(symbolize, chunks[..n]);
      var h := n / 201;
      forall k | 0 <= k < h
        ensures now.handedOff[k] == Symbolized(symbolize, chunks[201 * k..201 * k + 200])
      {
        assert chunks[..n][201 * k..201 * k + 200] == chunks[201 * k..201 * k + 200];
      }
      if |was.buf| < CAPACITY {
        assert (n + 1) / 201 == h;
        assert chunks[201 * h..] == chunks[..n][201 * h..] + [chunks[n]];
      } else {
        assert (n + 1) / 201 == h + 1 && n == 201 * h + 200;
        assert chunks[..n][201 * h..] == chunks[201 * h..201 * h + 200];
        assert chunks[201 * (h + 1)..] == [];
      }
    }
  }
}
