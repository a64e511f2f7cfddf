/**
 * The rate-limit-aware sender (packages/core/batched-sender.js).
 *
 * The state machine cuts the `#drain` coroutine at its three suspension points:
 * compressing a packet, sending it, and waiting out a rate limit.
 */
module BatchedSender {
  import opened Common

  /** Where the drain coroutine is suspended; `Idle` is `#sending == false`. */
  datatype Phase =
    | Idle
    | Compressing(packet: Packet)
    | Sending(packet: Packet)
    | Waiting

  datatype State = State(
    buffer: seq<Bytes>,
    queue: seq<Packet>,
    next: nat,
    timer: bool,
    phase: Phase,
    destroyed: bool,
    batchMs: int
  )

  datatype Action =
    | Push(bytes: Bytes)
    | TimerFires
    | Compressed
    | SendOk
    | RateLimited
    | SendFailed
    | WaitOver
    | FlushCall
    | SetBatchMs(ms: int)
    | Destroy

  function Initial(batchMs: int): State {
    State([], [], 0, false, Idle, false, batchMs)
  }

  /** Numbers the buffered chunks as one packet at the end of the queue. */
  function Numbered(s: State): State {
    if s.buffer == [] then s
    else s.(buffer := [],
            queue := s.queue + [Packet(s.next, Concat(s.buffer))],
            next := s.next + 1)
  }

  function Coalesced(queue: seq<Packet>): seq<Packet> {
    if |queue| > 1 then [Packet(queue[|queue| - 1].num, Payload(queue))] else queue
  }

  /** The head of the drain loop, up to the first suspension point. */
  function Pumped(s: State): State {
    if s.queue != [] && !s.destroyed then
      var q := Coalesced(s.queue);
      s.(queue := q, phase := Compressing(q[0]))
    else
      s.(phase := Idle)
  }

  function Drained(s: State): State {
    if s.phase != Idle || s.destroyed then s else Pumped(s)
  }

  function Flushed(s: State): State {
    var s := s.(timer := false);
    if s.buffer == [] then s else Drained(Numbered(s))
  }

  function Shift<T>(q: seq<T>): seq<T> {
    if q == [] then [] else q[1..]
  }

  predicate Enabled(s: State, a: Action) {
    match a
    case TimerFires => s.timer
    case Compressed => s.phase.Compressing?
    case SendOk => s.phase.Sending?
    case RateLimited => s.phase.Sending?
    case SendFailed => s.phase.Sending?
    case WaitOver => s.phase.Waiting?
    case _ => true
  }

  /** One step; an action that is not enabled leaves the state alone. */
  function Next(s: State, a: Action): State {
    if !Enabled(s, a) then s else
    match a
    case Push(bytes) =>
      if s.destroyed then s
      else
        var s := s.(buffer := s.buffer + [bytes]);
        if s.batchMs <= 10 then Flushed(s) else s.(timer := true)
    case TimerFires => Flushed(s)
    case Compressed => s.(phase := Sending(s.phase.packet))
    case SendOk => Pumped(s.(queue := Shift(s.queue)))
    case RateLimited => s.(phase := Waiting)
    case SendFailed => Pumped(s.(queue := Shift(s.queue)))
    case WaitOver => Pumped(Numbered(s.(timer := false)))
    case FlushCall =>
      var s := Numbered(s.(timer := false));
      if s.queue != [] then Drained(s) else s
    case SetBatchMs(ms) => s.(batchMs := ms)
    case Destroy => s.(destroyed := true, timer := false, buffer := [], queue := [])
  }

  // ---------------------------------------------------------------------------
  // Histories
  // ---------------------------------------------------------------------------

  datatype Outcome = Sent(packet: Packet) | Dropped(packet: Packet)

  /**
   * A sender together with what happened so far: the bytes accepted by `push`,
   * the data of every numbered flush, and the fate of every packet that left the queue.
   */
  datatype World = World(s: State, pushed: Bytes, flushes: seq<Bytes>, resolved: seq<Outcome>)

  function Start(batchMs: int): World {
    World(Initial(batchMs), [], [], [])
  }

  function Step(w: World, a: Action): World {
    var s := Next(w.s, a);
    var chunks := if a.Push? && !w.s.destroyed then w.s.buffer + [a.bytes] else w.s.buffer;
    World(
      s,
      if a.Push? && !w.s.destroyed then w.pushed + a.bytes else w.pushed,
      if s.next > w.s.next then w.flushes + [Concat(chunks)] else w.flushes,
      if !w.s.phase.Sending? then w.resolved
      else if a.SendOk? then w.resolved + [Sent(w.s.phase.packet)]
      else if a.SendFailed? then w.resolved + [Dropped(w.s.phase.packet)]
      else w.resolved)
  }

  function Exec(w: World, actions: seq<Action>): World
    decreases actions
  {
    if actions == [] then w else Exec(Step(w, actions[0]), actions[1..])
  }

  lemma {:induction false} ExecAppend(w: World, a: seq<Action>, b: seq<Action>)
    ensures Exec(w, a + b) == Exec(Exec(w, a), b)
    decreases a
  {
    if a == [] {
      assert a + b == b;
    } else {
      assert (a + b)[0] == a[0] && (a + b)[1..] == a[1..] + b;
      ExecAppend(Step(w, a[0]), a[1..], b);
    }
  }

  function Packets(outcomes: seq<Outcome>): seq<Packet> {
    if outcomes == [] then [] else [outcomes[0].packet] + Packets(outcomes[1..])
  }

  /** The packets that reached the network, in send order. */
  function Wire(outcomes: seq<Outcome>): seq<Packet> {
    if outcomes == [] then []
    else (if outcomes[0].Sent? then [outcomes[0].packet] else []) + Wire(outcomes[1..])
  }

  lemma {:induction false} PacketsAppend(a: seq<Outcome>, b: seq<Outcome>)
    ensures Packets(a + b) == Packets(a) + Packets(b)
  {
    if a == [] {
      assert a + b == b;
    } else {
      assert (a + b)[0] == a[0] && (a + b)[1..] == a[1..] + b;
      PacketsAppend(a[1..], b);
    }
  }

  // ---------------------------------------------------------------------------
  // Blocks of flush numbers
  // ---------------------------------------------------------------------------

  /** The first flush number after the packets `ps`, counting from `from`. */
  function End(ps: seq<Packet>, from: nat): nat {
    if ps == [] then from else ps[|ps| - 1].num + 1
  }

  /**
   * The packets carry adjacent blocks of flush numbers: each starts where the
   * previous one ended, ends at its own number, and holds exactly those flushes' data.
   */
  ghost predicate Blocks(ps: seq<Packet>, flushes: seq<Bytes>, from: nat) {
    ps != [] ==>
      && from <= ps[0].num < |flushes|
      && ps[0].data == Concat(flushes[from..ps[0].num + 1])
      && Blocks(ps[1..], flushes, ps[0].num + 1)
  }

  lemma {:induction false} BlocksAppend(a: seq<Packet>, b: seq<Packet>, flushes: seq<Bytes>, from: nat)
    ensures Blocks(a + b, flushes, from) <==> Blocks(a, flushes, from) && Blocks(b, flushes, End(a, from))
  {
    if a == [] {
      assert a + b == b;
    } else {
      assert (a + b)[0] == a[0] && (a + b)[1..] == a[1..] + b;
      BlocksAppend(a[1..], b, flushes, a[0].num + 1);
      assert End(a[1..], a[0].num + 1) == End(a, from);
    }
  }

  /** Merging adjacent blocks into one packet under the last number gives a block again. */
  lemma {:induction false} BlocksPayload(ps: seq<Packet>, flushes: seq<Bytes>, from: nat)
    requires from <= |flushes| && Blocks(ps, flushes, from)
    ensures from <= End(ps, from) <= |flushes|
    ensures Payload(ps) == Concat(flushes[from..End(ps, from)])
    ensures ps != [] ==> from < End(ps, from)
  {
    if ps != [] {
      var mid := ps[0].num + 1;
      BlocksPayload(ps[1..], flushes, mid);
      var end := End(ps[1..], mid);
      assert end == End(ps, from);
      assert flushes[from..end] == flushes[from..mid] + flushes[mid..end];
      ConcatAppend(flushes[from..mid], flushes[mid..end]);
    }
  }

  lemma BlocksCoalesced(ps: seq<Packet>, flushes: seq<Bytes>, from: nat)
    requires from <= |flushes| && Blocks(ps, flushes, from)
    ensures Blocks(Coalesced(ps), flushes, from)
    ensures End(Coalesced(ps), from) == End(ps, from)
    ensures Payload(Coalesced(ps)) == Payload(ps)
  {
    BlocksPayload(ps, flushes, from);
    if |ps| > 1 {
      var one := Packet(ps[|ps| - 1].num, Payload(ps));
      assert Payload([one]) == one.data + Payload([]);
    }
  }

  lemma TrailCoalesced(done: seq<Packet>, queue: seq<Packet>, flushes: seq<Bytes>)
    requires Blocks(done + queue, flushes, 0)
    ensures Blocks(done + Coalesced(queue), flushes, 0)
    ensures End(done + Coalesced(queue), 0) == End(done + queue, 0)
  {
    BlocksAppend(done, queue, flushes, 0);
    BlocksPayload(done, flushes, 0);
    BlocksCoalesced(queue, flushes, End(done, 0));
    BlocksAppend(done, Coalesced(queue), flushes, 0);
  }

  /** Flushing more data does not disturb blocks already numbered. */
  lemma {:induction false} BlocksGrow(ps: seq<Packet>, flushes: seq<Bytes>, more: seq<Bytes>, from: nat)
    requires Blocks(ps, flushes, from)
    ensures Blocks(ps, flushes + more, from)
  {
    if ps != [] {
      assert (flushes + more)[from..ps[0].num + 1] == flushes[from..ps[0].num + 1];
      BlocksGrow(ps[1..], flushes, more, ps[0].num + 1);
    }
  }

  /** The first packets of a trail of blocks carry the first flushed bytes. */
  lemma BlocksPrefix(ps: seq<Packet>, more: seq<Packet>, flushes: seq<Bytes>)
    requires Blocks(ps + more, flushes, 0)
    ensures Payload(ps) <= Concat(flushes)
  {
    BlocksAppend(ps, more, flushes, 0);
    BlocksPayload(ps, flushes, 0);
    var n := End(ps, 0);
    assert flushes == flushes[0..n] + flushes[n..];
    ConcatAppend(flushes[0..n], flushes[n..]);
  }

  /** A packet holding just the last flush is a block. */
  lemma BlocksSingle(p: Packet, flushes: seq<Bytes>)
    requires p.num + 1 == |flushes| && p.data == flushes[p.num]
    ensures Blocks([p], flushes, p.num)
  {
    assert flushes[p.num..p.num + 1] == [p.data];
    assert Concat([p.data]) == p.data + Concat([]);
  }

  lemma {:induction false} BlocksIncrease(ps: seq<Packet>, flushes: seq<Bytes>, from: nat)
    requires Blocks(ps, flushes, from)
    ensures StrictlyIncreasing(ps)
    ensures forall i :: 0 <= i < |ps| ==> from <= ps[i].num < |flushes|
  {
    if ps != [] {
      BlocksIncrease(ps[1..], flushes, ps[0].num + 1);
      forall i | 0 < i < |ps| ensures ps[0].num < ps[i].num < |flushes| {
        assert ps[i] == ps[1..][i - 1];
      }
      forall i, j | 0 <= i < j < |ps| ensures ps[i].num < ps[j].num {
        if i > 0 {
          assert ps[i] == ps[1..][i - 1] && ps[j] == ps[1..][j - 1];
        }
      }
    }
  }

  // ---------------------------------------------------------------------------
  // The invariant of every run
  // ---------------------------------------------------------------------------

  /** Everything resolved so far, then the packets still held. */
  function Trail(w: World): seq<Packet> {
    Packets(w.resolved) +
    if !w.s.destroyed then w.s.queue
    else if w.s.phase.Compressing? || w.s.phase.Sending? then [w.s.phase.packet]
    else []
  }

  ghost predicate Inv(w: World) {
    && |w.flushes| == w.s.next
    && Concat(w.flushes) <= w.pushed
    && Blocks(Trail(w), w.flushes, 0)
    && (w.s.timer <==> w.s.buffer != [])
    && (w.s.destroyed ==> w.s.buffer == [] && w.s.queue == [])
    && (!w.s.destroyed ==>
          && w.pushed == Concat(w.flushes) + Concat(w.s.buffer)
          && End(Trail(w), 0) == w.s.next
          && (w.s.phase == Idle <==> w.s.queue == [])
          && (w.s.phase.Compressing? || w.s.phase.Sending? ==> w.s.queue[0] == w.s.phase.packet))
  }

  /** The part of `Inv` that must hold whenever the drain loop is re-entered. */
  ghost predicate Ready(s: State, pushed: Bytes, flushes: seq<Bytes>, resolved: seq<Outcome>) {
    && !s.destroyed
    && |flushes| == s.next
    && Blocks(Packets(resolved) + s.queue, flushes, 0)
    && End(Packets(resolved) + s.queue, 0) == s.next
    && (s.timer <==> s.buffer != [])
    && pushed == Concat(flushes) + Concat(s.buffer)
  }

  lemma ReadyPumped(s: State, pushed: Bytes, flushes: seq<Bytes>, resolved: seq<Outcome>)
    requires Ready(s, pushed, flushes, resolved)
    ensures Inv(World(Pumped(s), pushed, flushes, resolved))
  {
    TrailCoalesced(Packets(resolved), s.queue, flushes);
  }

  /** Numbering the buffer appends one block holding the new flush. */
  lemma ReadyNumbered(s: State, pushed: Bytes, flushes: seq<Bytes>, resolved: seq<Outcome>)
    requires !s.destroyed && |flushes| == s.next && s.buffer != []
    requires Blocks(Packets(resolved) + s.queue, flushes, 0)
    requires End(Packets(resolved) + s.queue, 0) == s.next
    requires pushed == Concat(flushes) + Concat(s.buffer)
    ensures Ready(Numbered(s.(timer := false)), pushed, flushes + [Concat(s.buffer)], resolved)
  {
    var data := Concat(s.buffer);
    var all := flushes + [data];
    var ps := Packets(resolved) + s.queue;
    var p := Packet(s.next, data);
    BlocksGrow(ps, flushes, [data], 0);
    BlocksSingle(p, all);
    BlocksAppend(ps, [p], all, 0);
    assert Packets(resolved) + (s.queue + [p]) == ps + [p];
    ConcatAppend(flushes, [data]);
    assert Concat([data]) == data;
  }

  /** Flushing a live sender whose buffer holds `chunks`. */
  lemma FlushedInv(w: World, s: State, pushed: Bytes)
    requires Inv(w) && !w.s.destroyed
    requires s == w.s.(buffer := s.buffer, timer := s.timer) && s.buffer != []
    requires pushed == Concat(w.flushes) + Concat(s.buffer)
    ensures Inv(World(Flushed(s), pushed, w.flushes + [Concat(s.buffer)], w.resolved))
  {
    ReadyNumbered(s, pushed, w.flushes, w.resolved);
    var n := Numbered(s.(timer := false));
    if w.s.phase == Idle {
      ReadyPumped(n, pushed, w.flushes + [Concat(s.buffer)], w.resolved);
    } else {
      assert n.queue[0] == w.s.queue[0];
    }
  }

  lemma PushedBytes(flushes: seq<Bytes>, buffer: seq<Bytes>, bytes: Bytes)
    ensures Concat(flushes) + Concat(buffer) + bytes == Concat(flushes) + Concat(buffer + [bytes])
  {
    ConcatAppend(buffer, [bytes]);
    assert Concat([bytes]) == bytes + Concat([]);
  }

  lemma PushInv(w: World, bytes: Bytes)
    requires Inv(w) && !w.s.destroyed
    ensures Inv(Step(w, Push(bytes)))
  {
    var s := w.s.(buffer := w.s.buffer + [bytes]);
    PushedBytes(w.flushes, w.s.buffer, bytes);
    if s.batchMs <= 10 {
      FlushedInv(w, s, w.pushed + bytes);
    } else {
      var w' := World(s.(timer := true), w.pushed + bytes, w.flushes, w.resolved);
      assert Trail(w') == Trail(w);
      assert Step(w, Push(bytes)) == w';
    }
  }

  lemma PacketsSnoc(resolved: seq<Outcome>, o: Outcome)
    ensures Packets(resolved + [o]) == Packets(resolved) + [o.packet]
  {
    PacketsAppend(resolved, [o]);
    assert Packets([o]) == [o.packet] + Packets([]);
  }

  lemma ResolveStep(w: World, a: Action, o: Outcome)
    requires w.s.phase.Sending? && (a == SendOk || a == SendFailed)
    requires o == if a == SendOk then Sent(w.s.phase.packet) else Dropped(w.s.phase.packet)
    ensures Step(w, a) == World(Pumped(w.s.(queue := Shift(w.s.queue))), w.pushed, w.flushes, w.resolved + [o])
  {
    hide Concat, Coalesced;
  }

  /** A packet leaves the queue with an outcome. */
  lemma ResolveInv(w: World, a: Action)
    requires Inv(w) && w.s.phase.Sending? && (a == SendOk || a == SendFailed)
    ensures Inv(Step(w, a))
  {
    hide Packets, Blocks, Concat, End, Step, Next, Payload;
    var p := w.s.phase.packet;
    var o := if a == SendOk then Sent(p) else Dropped(p);
    PacketsSnoc(w.resolved, o);
    ResolveStep(w, a, o);
    if w.s.destroyed {
      assert Packets(w.resolved) + [p] + [] == Packets(w.resolved) + [p];
      assert Trail(Step(w, a)) == Trail(w);
    } else {
      var s := w.s.(queue := w.s.queue[1..]);
      assert Packets(w.resolved) + [p] + w.s.queue[1..] == Packets(w.resolved) + w.s.queue;
      hide Pumped;
      ReadyPumped(s, w.pushed, w.flushes, w.resolved + [o]);
    }
  }

  lemma ResumeInv(w: World, a: Action)
    requires Inv(w) && (a == WaitOver || a == FlushCall) && Enabled(w.s, a)
    ensures Inv(Step(w, a))
  {
    var s := w.s.(timer := false);
    var n := Numbered(s);
    if w.s.destroyed {
    } else if w.s.buffer != [] {
      ReadyNumbered(w.s, w.pushed, w.flushes, w.resolved);
      var flushes := w.flushes + [Concat(w.s.buffer)];
      ReadyPumped(n, w.pushed, flushes, w.resolved);
      assert w.s.queue != [] ==> n.queue[0] == w.s.queue[0];
    } else {
      ReadyPumped(n, w.pushed, w.flushes, w.resolved);
    }
  }

  /** Of the packets still held, destroy leaves at most the one in flight. */
  lemma DestroyTrail(w: World)
    requires Inv(w) && !w.s.destroyed
    ensures Trail(Step(w, Destroy)) <= Trail(w)
  {
    hide Packets, Blocks, Concat, End;
  }

  lemma BlocksOfPrefix(ps: seq<Packet>, all: seq<Packet>, flushes: seq<Bytes>)
    requires Blocks(all, flushes, 0) && ps <= all
    ensures Blocks(ps, flushes, 0)
  {
    hide Blocks;
    BlocksAppend(ps, all[|ps|..], flushes, 0);
    assert ps + all[|ps|..] == all;
  }

  lemma DestroyInv(w: World)
    requires Inv(w)
    ensures Inv(Step(w, Destroy))
  {
    hide Blocks, Concat, End, Packets;
    if !w.s.destroyed {
      DestroyTrail(w);
      BlocksOfPrefix(Trail(Step(w, Destroy)), Trail(w), w.flushes);
    }
    hide Trail;
  }

  lemma StepInv(w: World, a: Action)
    requires Inv(w)
    ensures Inv(Step(w, a))
  {
    match a
    case Push(bytes) => if !w.s.destroyed { PushInv(w, bytes); }
    case TimerFires => if w.s.timer { FlushedInv(w, w.s, w.pushed); }
    case SendOk => if w.s.phase.Sending? { ResolveInv(w, a); }
    case SendFailed => if w.s.phase.Sending? { ResolveInv(w, a); }
    case RateLimited =>
      var done := Packets(w.resolved);
      assert Trail(w) == done + Trail(w)[|done|..] && done + [] == done;
      BlocksAppend(done, Trail(w)[|done|..], w.flushes, 0);
    case WaitOver => if w.s.phase.Waiting? { ResumeInv(w, a); }
    case FlushCall => ResumeInv(w, a);
    case Destroy => DestroyInv(w);
    case _ =>
  }

  lemma {:induction false} ExecInv(w: World, actions: seq<Action>)
    requires Inv(w)
    ensures Inv(Exec(w, actions))
    decreases actions
  {
    if actions != [] {
      StepInv(w, actions[0]);
      ExecInv(Step(w, actions[0]), actions[1..]);
    }
  }

  // ---------------------------------------------------------------------------
  // Finishing the sends
  // ---------------------------------------------------------------------------

  function Rank(s: State): nat {
    4 * |s.queue| +
    match s.phase
    case Idle => 0
    case Sending(_) => 1
    case Compressing(_) => 2
    case Waiting => 3
  }

  /** The step that resumes a suspended drain, assuming sends now succeed. */
  function Resume(phase: Phase): Action {
    match phase
    case Idle => FlushCall
    case Compressing(_) => Compressed
    case Sending(_) => SendOk
    case Waiting => WaitOver
  }

  /** Resuming a drain brings it closer to its end, whatever has been buffered meanwhile. */
  lemma ResumeAdvances(w: World)
    requires !w.s.destroyed && w.s.phase != Idle && w.s.queue != []
    ensures var w' := Step(w, Resume(w.s.phase));
      && Rank(w'.s) < Rank(w.s)
      && !w'.s.destroyed && !w'.s.timer == (!w.s.timer || w.s.phase.Waiting?)
      && w'.pushed == w.pushed
  {
    hide Concat, Payload;
  }

  lemma FlushCallEmpties(w: World)
    ensures var w' := Step(w, FlushCall);
      && w'.s.destroyed == w.s.destroyed && !w'.s.timer
      && w'.pushed == w.pushed && w'.resolved == w.resolved
  {
  }

  // ---------------------------------------------------------------------------
  // Main results
  // ---------------------------------------------------------------------------

  /**
   * Conservation. Until the sender is destroyed, the bytes pushed are exactly the
   * bytes of the resolved packets, then the queue, then the buffer.
   */
  lemma Conservation(batchMs: int, actions: seq<Action>)
    ensures var w := Exec(Start(batchMs), actions);
      !w.s.destroyed ==>
        w.pushed == Payload(Packets(w.resolved)) + Payload(w.s.queue) + Concat(w.s.buffer)
  {
    var w := Exec(Start(batchMs), actions);
    ExecInv(Start(batchMs), actions);
    if !w.s.destroyed {
      var done := Packets(w.resolved);
      BlocksPayload(Trail(w), w.flushes, 0);
      assert w.flushes[0..|w.flushes|] == w.flushes;
      PayloadAppend(done, w.s.queue);
    }
  }

  /**
   * Numbering. In every run, destroyed or not, the resolved packets carry adjacent
   * blocks of flushes from flush 0 on, and the numbers on the wire strictly increase.
   */
  lemma Numbering(batchMs: int, actions: seq<Action>)
    ensures var w := Exec(Start(batchMs), actions);
      && Blocks(Packets(w.resolved), w.flushes, 0)
      && StrictlyIncreasing(Packets(w.resolved))
      && StrictlyIncreasing(Wire(w.resolved))
  {
    var w := Exec(Start(batchMs), actions);
    ExecInv(Start(batchMs), actions);
    ResolvedIncreases(w);
    WireIncreases(w.resolved);
  }

  lemma ResolvedIncreases(w: World)
    requires Inv(w)
    ensures Blocks(Packets(w.resolved), w.flushes, 0)
    ensures StrictlyIncreasing(Packets(w.resolved))
  {
    var done := Packets(w.resolved);
    assert Trail(w) == done + Trail(w)[|done|..];
    BlocksAppend(done, Trail(w)[|done|..], w.flushes, 0);
    BlocksIncrease(done, w.flushes, 0);
  }

  lemma {:induction false} WireIncreases(outcomes: seq<Outcome>)
    requires StrictlyIncreasing(Packets(outcomes))
    ensures StrictlyIncreasing(Wire(outcomes))
    ensures forall p :: p in Wire(outcomes) ==> p in Packets(outcomes)
  {
    if outcomes != [] {
      var tail := Packets(outcomes[1..]);
      assert Packets(outcomes)[1..] == tail;
      WireIncreases(outcomes[1..]);
      var rest := Wire(outcomes[1..]);
      forall i | 0 <= i < |rest| ensures outcomes[0].packet.num < rest[i].num {
        assert rest[i] in rest && rest[i] in tail;
        var j :| 0 <= j < |tail| && tail[j] == rest[i];
        assert Packets(outcomes)[0] == outcomes[0].packet && Packets(outcomes)[j + 1] == tail[j];
      }
    }
  }

  /**
   * Nothing is stranded. A live sender with buffered data has its flush timer armed
   * and one with a queue has an active drain; a sender with neither has resolved all it was given.
   */
  lemma NothingStranded(batchMs: int, actions: seq<Action>)
    ensures var w := Exec(Start(batchMs), actions);
      && (w.s.buffer != [] <==> w.s.timer)
      && (!w.s.destroyed ==>
            && (w.s.queue != [] <==> w.s.phase != Idle)
            && (!w.s.timer && w.s.phase == Idle ==> w.pushed == Payload(Packets(w.resolved))))
  {
    ExecInv(Start(batchMs), actions);
    Conservation(batchMs, actions);
  }

  // ---------------------------------------------------------------------------
  // The imperative sender
  // ---------------------------------------------------------------------------

  class Sender {
    var buffer: seq<Bytes>
    var queue: seq<Packet>
    var next: nat
    var flushTimer: bool
    var phase: Phase
    var destroyed: bool
    var batchMs: int

    function Model(): State
      reads this
    {
      State(buffer, queue, next, flushTimer, phase, destroyed, batchMs)
    }

    constructor (batchMs: int)
      ensures Model() == Initial(batchMs)
    {
      buffer, queue, next := [], [], 0;
      flushTimer, phase, destroyed := false, Idle, false;
      this.batchMs := batchMs;
    }

    method Push(data: Bytes)
      modifies this
      ensures Model() == Next(old(Model()), Action.Push(data))
    {
      if destroyed { return; }
      buffer := buffer + [data];
      if batchMs <= 10 {
        flushTimer := false;
        Flush();
        return;
      }
      if !flushTimer {
        flushTimer := true;
      }
    }

    /** The private `#flush`, also the callback of the batch timer. */
    method Flush()
      modifies this
      ensures Model() == Flushed(old(Model()))
    {
      flushTimer := false;
      if |buffer| == 0 { return; }
      TakeBuffer();
      Drain();
    }

    method TakeBuffer()
      modifies this`buffer, this`queue, this`next
      ensures Model() == Numbered(old(Model()))
    {
      if |buffer| > 0 {
        var combined := ConcatBytes(buffer);
        buffer := [];
        queue := queue + [Packet(next, combined[..])];
        next := next + 1;
      }
    }

    method Drain()
      modifies this`queue, this`phase
      ensures Model() == Drained(old(Model()))
    {
      if phase != Idle || destroyed { return; }
      Pump();
    }

    /** Runs the drain loop from its condition to the next suspension point. */
    method Pump()
      modifies this`queue, this`phase
      ensures Model() == Pumped(old(Model()))
    {
      if |queue| > 0 && !destroyed {
        if |queue| > 1 {
          var packets := queue;
          var combined := ConcatBytes(seq(|packets|, i requires 0 <= i < |packets| => packets[i].data));
          PayloadIsConcat(queue);
          assert combined[..] == Payload(queue);
          queue := [Packet(queue[|queue| - 1].num, combined[..])];
        }
        phase := Compressing(queue[0]);
      } else {
        phase := Idle;
      }
    }

    method OnTimer()
      requires flushTimer
      modifies this
      ensures Model() == Next(old(Model()), TimerFires)
    {
      Flush();
    }

    method OnCompressed()
      requires phase.Compressing?
      modifies this`phase
      ensures Model() == Next(old(Model()), Compressed)
    {
      phase := Sending(phase.packet);
    }

    /** `sendEvent` settled: it succeeded, or failed with an error that is not a rate limit. */
    method OnSettled(success: bool)
      requires phase.Sending?
      modifies this`queue, this`phase
      ensures Model() == Next(old(Model()), if success then SendOk else SendFailed)
    {
      if |queue| > 0 {
        queue := queue[1..];
      }
      Pump();
    }

    method OnRateLimited()
      requires phase.Sending?
      modifies this`phase
      ensures Model() == Next(old(Model()), RateLimited)
    {
      phase := Waiting;
    }

    method OnWaitOver()
      requires phase.Waiting?
      modifies this
      ensures Model() == Next(old(Model()), WaitOver)
    {
      flushTimer := false;
      TakeBuffer();
      Pump();
    }

    method FlushNow()
      modifies this
      ensures Model() == Next(old(Model()), FlushCall)
    {
      flushTimer := false;
      TakeBuffer();
      if |queue| > 0 && phase == Idle {
        Drain();
      }
    }

    method Destroy()
      modifies this
      ensures Model() == Next(old(Model()), Action.Destroy)
    {
      destroyed := true;
      flushTimer := false;
      buffer := [];
      queue := [];
    }
  }

  lemma {:induction false} PayloadIsConcat(ps: seq<Packet>)
    ensures Payload(ps) == Concat(seq(|ps|, i requires 0 <= i < |ps| => ps[i].data))
  {
    if ps != [] {
      PayloadIsConcat(ps[1..]);
      var parts := seq(|ps|, i requires 0 <= i < |ps| => ps[i].data);
      var rest := ps[1..];
      assert parts[1..] == seq(|rest|, i requires 0 <= i < |rest| => rest[i].data);
    }
  }
}
