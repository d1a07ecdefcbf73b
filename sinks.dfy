/**
 * The output sink (an io.Writer). Every io.WriteString call is one write,
 * recorded in `written`. The sink accepts `limit` writes and rejects every
 * later one with `failure`; with no limit it never fails. Because both
 * serialisers stop at the first rejected write, this covers every way a
 * deterministic sink can fail.
 */
module Sinks {
  import opened Wrappers

  datatype IoError = IoError(reason: string)

  /** The `error` result of a Go call: nil or the error. */
  datatype Status = Ok | Err(error: IoError)

  class Sink {
    var written: seq<string>
    const limit: Option<nat>
    const failure: IoError

    ghost predicate Valid()
      reads this
    {
      Fits(|written|)
    }

    constructor (limit: Option<nat>, failure: IoError)
      ensures Valid() && written == []
      ensures this.limit == limit && this.failure == failure
    {
      written := [];
      this.limit := limit;
      this.failure := failure;
    }

    /** The sink accepts `n` writes in all. */
    predicate Fits(n: nat)
    {
      limit.None? || n <= limit.value
    }

    /**
     * Attempting the writes `ws` in order, stopping at the first rejected
     * one, on a sink holding `before`: what it then holds and what is reported.
     */
    function Deliver(before: seq<string>, ws: seq<string>): (r: (seq<string>, Status))
      requires Fits(|before|)
      ensures Fits(|before| + |ws|) ==> r == (before + ws, Ok)
      ensures !Fits(|before| + |ws|) ==> r.1 == Err(failure)
                                         && |r.0| == limit.value
    {
      var all := before + ws;
      if Fits(|all|) then (all, Ok) else (all[..limit.value], Err(failure))
    }

    /** A batch reported as accepted was accepted in full. */
    lemma DeliverAccepted(before: seq<string>, ws: seq<string>)
      requires Fits(|before|) && Deliver(before, ws).1.Ok?
      ensures Fits(|before| + |ws|) && Deliver(before, ws).0 == before + ws
    {
    }

    /**
     * Attempting `ws` on a sink holding `before` + `sent`, as the part of a
     * planned sequence `sent` + `ws` + `rest` that comes next: on success the
     * sink holds `sent` + `ws`; on failure the outcome is that of attempting
     * the whole plan.
     */
    lemma Continue(before: seq<string>, sent: seq<string>, ws: seq<string>, rest: seq<string>)
      requires Fits(|before| + |sent|)
      ensures Deliver(before + sent, ws).1.Ok? ==>
                Deliver(before + sent, ws).0 == before + (sent + ws) && Fits(|before| + |sent + ws|)
      ensures Deliver(before + sent, ws).1.Err? ==>
                Deliver(before + sent, ws) == Deliver(before, sent + (ws + rest))
    {
      var all := before + sent + ws;
      assert all == before + (sent + ws);
      if !Fits(|all|) {
        DeliverFailed(before + sent, ws, rest);
        DeliverThen(before, sent, ws + rest);
      }
    }

    /** A rejected batch leaves what was there plus an accepted proper prefix of the batch. */
    lemma DeliverRejected(before: seq<string>, ws: seq<string>)
      requires Fits(|before|) && !Fits(|before| + |ws|)
      ensures before <= Deliver(before, ws).0 < before + ws
    {
    }

    /** io.WriteString: one write. */
    method Write(s: string) returns (st: Status)
      requires Valid()
      modifies this
      ensures Valid()
      ensures (written, st) == Deliver(old(written), [s])
    {
      if limit.Some? && |written| >= limit.value {
        st := Err(failure);
      } else {
        written := written + [s];
        st := Ok;
      }
    }

    /** Writes accepted in full, followed by further attempts, compose. */
    lemma DeliverThen(before: seq<string>, ws1: seq<string>, ws2: seq<string>)
      requires Fits(|before| + |ws1|)
      ensures Deliver(before + ws1, ws2) == Deliver(before, ws1 + ws2)
    {
      assert before + ws1 + ws2 == before + (ws1 + ws2);
    }

    /** Once a write has been rejected, nothing planned after it is attempted. */
    lemma {:induction false} DeliverFailed(before: seq<string>, ws: seq<string>, more: seq<string>)
      requires Fits(|before|) && !Fits(|before| + |ws|)
      ensures Deliver(before, ws + more) == Deliver(before, ws)
    {
      assert (before + (ws + more))[..limit.value] == (before + ws)[..limit.value];
    }
  }
}
