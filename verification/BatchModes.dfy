/**
 * When a push is sent (packages/core/batched-sender.js): up to a batch window of 10 ms every push
 * is flushed at once, above it pushes wait for the timer, and the end of a rate-limit wait takes
 * in whatever has been pushed meanwhile.
 */
module BatchModes {
  import opened Common
  import opened BatchedSender

  /** The window is `batchMs` at first and is only ever set to values in the range. */
  ghost predicate StaysWithin(batchMs: int, actions: seq<Action>, low: int, high: int) {
    low <= batchMs <= high && forall a :: a in actions && a.SetBatchMs? ==> low <= a.ms <= high
  }

  lemma StaysWithinStep(batchMs: int, actions: seq<Action>, low: int, high: int)
    requires StaysWithin(batchMs, actions, low, high) && actions != []
    ensures var ms := if actions[0].SetBatchMs? then actions[0].ms else batchMs;
      StaysWithin(ms, actions[1..], low, high)
  {
    assert actions[0] in actions;
  }

  lemma KeepsWindow(s: State, a: Action)
    ensures Next(s, a).batchMs == if a.SetBatchMs? then a.ms else s.batchMs
  {
    hide Concat, Payload;
  }

  // ---------------------------------------------------------------------------
  // Immediate mode
  // ---------------------------------------------------------------------------

  lemma ImmediateStep(w: World, a: Action)
    requires w.s.batchMs <= 10 && w.s.buffer == [] && !w.s.timer
    ensures Step(w, a).s.buffer == [] && !Step(w, a).s.timer
  {
    hide Concat, Payload;
  }

  lemma {:induction false} ImmediateRun(w: World, actions: seq<Action>, low: int)
    requires StaysWithin(w.s.batchMs, actions, low, 10) && w.s.buffer == [] && !w.s.timer
    ensures Exec(w, actions).s.buffer == [] && !Exec(w, actions).s.timer
    decreases actions
  {
    if actions != [] {
      ImmediateStep(w, actions[0]);
      KeepsWindow(w.s, actions[0]);
      StaysWithinStep(w.s.batchMs, actions, low, 10);
      hide StaysWithin, Next;
      ImmediateRun(Step(w, actions[0]), actions[1..], low);
    }
  }

  /** In every run whose window stays at most 10 ms nothing is ever buffered and no timer armed. */
  lemma NothingWaitsInImmediateMode(batchMs: int, actions: seq<Action>, low: int)
    requires StaysWithin(batchMs, actions, low, 10)
    ensures var s := Exec(Start(batchMs), actions).s; s.buffer == [] && !s.timer
  {
    ImmediateRun(Start(batchMs), actions, low);
  }

  // ---------------------------------------------------------------------------
  // Batched mode
  // ---------------------------------------------------------------------------

  /** The steps that may number a flush when pushes do not. */
  function Occasions(actions: seq<Action>): nat {
    if actions == [] then 0
    else (if actions[0].TimerFires? || actions[0].WaitOver? || actions[0].FlushCall? then 1 else 0)
         + Occasions(actions[1..])
  }

  lemma BatchedStep(w: World, a: Action)
    requires w.s.batchMs > 10
    ensures Step(w, a).s.next <= w.s.next + Occasions([a])
  {
    assert [a][1..] == [];
    hide Concat, Payload;
  }

  lemma {:induction false} BatchedRun(w: World, actions: seq<Action>, high: int)
    requires StaysWithin(w.s.batchMs, actions, 11, high)
    ensures Exec(w, actions).s.next <= w.s.next + Occasions(actions) && Exec(w, actions).s.batchMs > 10
    decreases actions
  {
    if actions != [] {
      BatchedStep(w, actions[0]);
      KeepsWindow(w.s, actions[0]);
      StaysWithinStep(w.s.batchMs, actions, 11, high);
      assert Occasions(actions) == Occasions([actions[0]]) + Occasions(actions[1..]) by {
        assert [actions[0]][1..] == [];
      }
      hide StaysWithin, Next;
      BatchedRun(Step(w, actions[0]), actions[1..], high);
    }
  }

  /**
   * In every run whose window stays above 10 ms, a push to a live sender adds its chunk to the
   * buffer, arms the timer and leaves queue, numbering and drain alone, so no more flushes are
   * numbered than the timer fired, waits ended and flushes were asked for.
   */
  lemma PushesWaitInBatchedMode(batchMs: int, actions: seq<Action>, high: int, bytes: Bytes)
    requires StaysWithin(batchMs, actions, 11, high)
    ensures var w := Exec(Start(batchMs), actions);
      && w.s.next <= Occasions(actions)
      && (!w.s.destroyed ==>
            var w' := Step(w, Push(bytes));
            && w'.s.buffer == w.s.buffer + [bytes] && w'.s.timer
            && w'.s.queue == w.s.queue && w'.s.next == w.s.next && w'.s.phase == w.s.phase)
  {
    BatchedRun(Start(batchMs), actions, high);
    hide Exec, StaysWithin;
  }

  // ---------------------------------------------------------------------------
  // Steps that empty the buffer
  // ---------------------------------------------------------------------------

  lemma WaitingStep(w: World, a: Action)
    requires w.s.phase == Waiting && a != WaitOver
    ensures Step(w, a).s.phase == Waiting && Step(w, a).resolved == w.resolved
  {
    hide Concat, Payload;
  }

  lemma {:induction false} WaitingRun(w: World, actions: seq<Action>)
    requires w.s.phase == Waiting && WaitOver !in actions
    ensures Exec(w, actions).s.phase == Waiting && Exec(w, actions).resolved == w.resolved
    decreases actions
  {
    if actions != [] {
      assert actions[0] in actions;
      WaitingStep(w, actions[0]);
      hide Step;
      WaitingRun(Step(w, actions[0]), actions[1..]);
    }
  }

  /** After a rate limit the packet stays queued, and nothing is sent before the wait is over. */
  lemma NothingSentWhileWaiting(w: World, actions: seq<Action>)
    requires w.s.phase.Sending? && WaitOver !in actions
    ensures var limited := Step(w, RateLimited);
      && limited.s == w.s.(phase := Waiting) && limited.resolved == w.resolved
      && Exec(limited, actions).s.phase == Waiting && Exec(limited, actions).resolved == w.resolved
  {
    WaitingRun(Step(w, RateLimited), actions);
    hide Exec;
  }

  lemma PushAfterDestroy(w: World, bytes: Bytes)
    requires w.s.destroyed
    ensures Step(w, Push(bytes)) == w
  {
  }

  lemma CoalescedIs(queue: seq<Packet>)
    requires queue != []
    ensures Coalesced(queue) == [Packet(queue[|queue| - 1].num, Payload(queue))]
  {
    if |queue| == 1 {
      PayloadOne(queue[0]);
    }
  }

  /** Numbering the buffer adds its bytes to those of the queue and empties it. */
  lemma NumberedIs(s: State)
    requires s.queue != [] ==> s.queue[|s.queue| - 1].num + 1 == s.next
    ensures var n := Numbered(s);
      && n.buffer == [] && n.timer == s.timer && n.destroyed == s.destroyed
      && Payload(n.queue) == Payload(s.queue) + Concat(s.buffer)
      && (s.queue != [] ==> n.queue != [])
      && (n.queue != [] ==> n.queue[|n.queue| - 1].num + 1 == n.next)
  {
    if s.buffer != [] {
      var p := Packet(s.next, Concat(s.buffer));
      PayloadAppend(s.queue, [p]);
      PayloadOne(p);
    }
  }

  lemma WaitStep(w: World)
    requires Inv(w) && w.s.phase == Waiting && !w.s.destroyed
    ensures var s := Step(w, WaitOver).s;
      && s.buffer == [] && !s.timer && |s.queue| == 1 && s.phase == Compressing(s.queue[0])
      && s.queue[0].num + 1 == s.next && s.queue[0].data == Payload(w.s.queue) + Concat(w.s.buffer)
  {
    TrailEndsLast(w);
    NumberedIs(w.s.(timer := false));
    CoalescedIs(Numbered(w.s.(timer := false)).queue);
    hide Concat, Payload, Numbered, Coalesced, Blocks, Packets, End;
  }

  /**
   * The end of a rate-limit wait empties buffer and timer of a live sender and sends all it holds
   * as one packet, under the last number given out.
   */
  lemma WaitCoalesces(batchMs: int, actions: seq<Action>)
    ensures var w := Exec(Start(batchMs), actions);
      w.s.phase == Waiting && !w.s.destroyed ==>
        var s := Step(w, WaitOver).s;
        && s.buffer == [] && !s.timer && |s.queue| == 1 && s.phase == Compressing(s.queue[0])
        && s.queue[0].num + 1 == s.next && s.queue[0].data == Payload(w.s.queue) + Concat(w.s.buffer)
  {
    var w := Exec(Start(batchMs), actions);
    assert Inv(Start(batchMs));
    ExecInv(Start(batchMs), actions);
    hide Exec, Start, Inv, Step;
    if w.s.phase == Waiting && !w.s.destroyed {
      WaitStep(w);
    }
  }

  lemma PayloadOne(p: Packet)
    ensures Payload([p]) == p.data
  {
    assert Payload([p]) == p.data + Payload([]);
  }

  /** The last packet of the queue has the last number given out. */
  lemma TrailEndsLast(w: World)
    requires Inv(w) && !w.s.destroyed && w.s.queue != []
    ensures w.s.queue[|w.s.queue| - 1].num + 1 == w.s.next
  {
    hide Packets, Blocks, Concat;
    var trail := Trail(w);
    assert trail[|trail| - 1] == w.s.queue[|w.s.queue| - 1];
  }

  /** The timer's flush, like a flush call, leaves nothing in the buffer. */
  lemma FlushesEmptyTheBuffer(batchMs: int, actions: seq<Action>, a: Action)
    requires a == TimerFires || a == FlushCall
    ensures var w := Exec(Start(batchMs), actions);
      Enabled(w.s, a) ==> Step(w, a).s.buffer == [] && !Step(w, a).s.timer
  {
    assert Inv(Start(batchMs));
    ExecInv(Start(batchMs), actions);
    hide Concat, Payload;
  }
}
