/**
 * The claim race of crates/mxdx-fabric/src/worker.rs: a worker writes itself into the claim
 * state key of a task, then reads the key back and has won if it still finds itself there.
 *
 * The state key is a linearizable register, a trace is any interleaving of the workers' steps,
 * and one worker runs one claim at a time. A claim whose sync or read fails is abandoned.
 */
module ClaimRace {
  import opened Common

  type Worker = string

  datatype Event =
    | Write(worker: Worker)
    | Read(worker: Worker)
    | Abandon(worker: Worker)

  type Trace = seq<Event>

  /** The content of the state key after a trace. */
  function Register(trace: Trace): Option<Worker> {
    if trace == [] then None
    else if trace[|trace| - 1].Write? then Some(trace[|trace| - 1].worker)
    else Register(trace[..|trace| - 1])
  }

  /** Has the worker written without having read or given up since? */
  predicate Pending(trace: Trace, w: Worker) {
    trace != [] &&
    var e := trace[|trace| - 1];
    if e.worker == w then e.Write? else Pending(trace[..|trace| - 1], w)
  }

  /** Each worker alternates: a write, then a read or giving up. */
  ghost predicate Interleaving(trace: Trace) {
    forall k :: 0 <= k < |trace| ==> (trace[k].Write? <==> !Pending(trace[..k], trace[k].worker))
  }

  /** The read at `r` belongs to the write at `i`: no step of the same worker lies between. */
  ghost predicate Claim(trace: Trace, i: nat, r: nat) {
    && i < r < |trace|
    && trace[i].Write? && trace[r].Read? && trace[i].worker == trace[r].worker
    && forall k :: i < k < r ==> trace[k].worker != trace[i].worker
  }

  /** `try_claim` returns true at `r`. */
  predicate Wins(trace: Trace, r: nat) {
    r < |trace| && trace[r].Read? && Register(trace[..r]) == Some(trace[r].worker)
  }

  // ---------------------------------------------------------------------------
  // The register shows the last write
  // ---------------------------------------------------------------------------

  lemma {:induction false} RegisterIsLastWrite(trace: Trace) returns (m: nat)
    requires Register(trace).Some?
    ensures m < |trace| && trace[m] == Write(Register(trace).value)
    ensures forall k :: m < k < |trace| ==> !trace[k].Write?
  {
    var n := |trace| - 1;
    if trace[n].Write? {
      m := n;
    } else {
      m := RegisterIsLastWrite(trace[..n]);
    }
  }

  lemma {:induction false} LastWriteShows(trace: Trace, m: nat)
    requires m < |trace| && trace[m].Write? && forall k :: m < k < |trace| ==> !trace[k].Write?
    ensures Register(trace) == Some(trace[m].worker)
  {
    var n := |trace| - 1;
    if m < n {
      LastWriteShows(trace[..n], m);
    }
  }

  lemma {:induction false} PendingHasWrite(trace: Trace, w: Worker) returns (i: nat)
    requires Pending(trace, w)
    ensures i < |trace| && trace[i] == Write(w)
    ensures forall k :: i < k < |trace| ==> trace[k].worker != w
  {
    var n := |trace| - 1;
    if trace[n].worker == w {
      i := n;
    } else {
      i := PendingHasWrite(trace[..n], w);
    }
  }

  /** In an interleaving every read completes exactly one claim. */
  lemma ReadHasClaim(trace: Trace, r: nat) returns (i: nat)
    requires Interleaving(trace) && r < |trace| && trace[r].Read?
    ensures Claim(trace, i, r)
  {
    i := PendingHasWrite(trace[..r], trace[r].worker);
  }

  // ---------------------------------------------------------------------------
  // Main results
  // ---------------------------------------------------------------------------

  /**
   * A claim wins if and only if nobody else writes in its window, that is between its write and
   * its read.
   */
  lemma WinsIffUndisturbed(trace: Trace, i: nat, r: nat)
    requires Claim(trace, i, r)
    ensures Wins(trace, r) <==> forall k :: i < k < r ==> !trace[k].Write?
  {
    var before := trace[..r];
    if forall k :: i < k < r ==> !trace[k].Write? {
      LastWriteShows(before, i);
    }
    if Wins(trace, r) {
      var m := RegisterIsLastWrite(before);
      assert before[m] == trace[m] && m <= i;
      forall k | i < k < r ensures !trace[k].Write? {
        assert before[k] == trace[k];
      }
    }
  }

  /** Winning claims of different workers have disjoint windows. */
  lemma WinnersAreDisjoint(trace: Trace, i: nat, r: nat, j: nat, s: nat)
    requires Claim(trace, i, r) && Claim(trace, j, s)
    requires trace[i].worker != trace[j].worker
    requires Wins(trace, r) && Wins(trace, s)
    ensures r < j || s < i
  {
    WinsIffUndisturbed(trace, i, r);
    WinsIffUndisturbed(trace, j, s);
  }

  /** So among claims that all overlap one another, at most one worker wins. */
  lemma OverlappingElectOne(trace: Trace, claims: set<(nat, nat)>)
    requires forall c :: c in claims ==> Claim(trace, c.0, c.1)
    requires forall c, d :: c in claims && d in claims ==> c.0 < d.1
    ensures forall c, d :: c in claims && d in claims && Wins(trace, c.1) && Wins(trace, d.1) ==>
      trace[c.0].worker == trace[d.0].worker
  {
    forall c, d | c in claims && d in claims && Wins(trace, c.1) && Wins(trace, d.1)
      ensures trace[c.0].worker == trace[d.0].worker
    {
      if trace[c.0].worker != trace[d.0].worker {
        WinnersAreDisjoint(trace, c.0, c.1, d.0, d.1);
      }
    }
  }

  /** If all writes precede all reads, a read wins exactly if its worker wrote last. */
  lemma LastWriterWins(trace: Trace, split: nat, last: nat)
    requires last < split <= |trace| && trace[last].Write?
    requires forall k :: last < k < |trace| ==> !trace[k].Write?
    requires forall k :: 0 <= k < split ==> !trace[k].Read?
    ensures forall r :: 0 <= r < |trace| && trace[r].Read? ==>
      (Wins(trace, r) <==> trace[r].worker == trace[last].worker)
  {
    forall r | 0 <= r < |trace| && trace[r].Read?
      ensures Wins(trace, r) <==> trace[r].worker == trace[last].worker
    {
      LastWriteShows(trace[..r], last);
    }
  }

  /** Somebody always can win: the claim with the last write of all wins when it reads. */
  lemma FinalClaimWins(trace: Trace, i: nat, r: nat)
    requires Claim(trace, i, r) && forall k :: i < k < |trace| ==> !trace[k].Write?
    ensures Wins(trace, r)
  {
    WinsIffUndisturbed(trace, i, r);
  }

  /** The election is not global: claims one after the other can all win. */
  lemma TwoCanWin(a: Worker, b: Worker)
    requires a != b
    ensures var trace := [Write(a), Read(a), Write(b), Read(b)];
      Interleaving(trace) && Wins(trace, 1) && Wins(trace, 3)
  {
    var t1 := [] + [Write(a)];
    var t2 := t1 + [Read(a)];
    var t3 := t2 + [Write(b)];
    StepEffect([], Write(a), a);
    StepEffect([], Write(a), b);
    StepEffect(t1, Read(a), b);
    StepEffect(t2, Write(b), b);
    var trace := [Write(a), Read(a), Write(b), Read(b)];
    assert trace[..0] == [] && trace[..1] == t1 && trace[..2] == t2 && trace[..3] == t3;
    forall k | 0 <= k < |trace| ensures trace[k].Write? <==> !Pending(trace[..k], trace[k].worker) {
      assert k == 0 || k == 1 || k == 2 || k == 3;
    }
  }

  lemma StepEffect(trace: Trace, e: Event, w: Worker)
    ensures Pending(trace + [e], w) == if e.worker == w then e.Write? else Pending(trace, w)
    ensures Register(trace + [e]) == if e.Write? then Some(e.worker) else Register(trace)
  {
    assert (trace + [e])[..|trace|] == trace;
  }
}
