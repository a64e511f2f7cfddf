/**
 * The terminal byte stream end to end: a BatchedSender, a room, and a TerminalSocket.
 *
 * Coalescing after a rate limit keeps only the last sequence number, so the room sees
 * deliberate holes in the numbering, which the receiver first asks for and then skips.
 */
module Pipeline {
  import opened Common
  import S = BatchedSender
  import R = TerminalSocket

  /**
   * `room` holds the packets the homeserver has accepted, in order, and `taken` of them have been
   * enqueued at the receiver. A packet may be accepted, and received, while its send is still
   * pending: `accepted` says that the packet being sent is in the room already. `lost` says that
   * a send has failed for good without having been accepted.
   */
  datatype System = System(tx: S.World, room: seq<Packet>, accepted: bool, lost: bool, taken: nat, rx: R.World)

  datatype Action =
    | Tx(tx: S.Action)
    | Accept
    | Transfer
    | GapTimer
    | RetransmitTimer
    | CloseSocket

  function Start(batchMs: int): System {
    System(S.Start(batchMs), [], false, false, 0, R.START)
  }

  /** A send succeeds only once accepted and is rate limited only before; it may fail either way. */
  predicate Possible(sys: System, b: S.Action) {
    (b.SendOk? ==> sys.accepted) && (b.RateLimited? ==> !sys.accepted)
  }

  predicate Settles(tx: S.World, b: S.Action) {
    tx.s.phase.Sending? && (b.SendOk? || b.SendFailed?)
  }

  function Step(sys: System, a: Action): System {
    match a
    case Tx(b) =>
      if !Possible(sys, b) then sys
      else sys.(tx := S.Step(sys.tx, b),
                accepted := sys.accepted && !Settles(sys.tx, b),
                lost := sys.lost || (Settles(sys.tx, b) && !sys.accepted))
    case Accept =>
      if sys.tx.s.phase.Sending? && !sys.accepted
      then sys.(room := sys.room + [sys.tx.s.phase.packet], accepted := true)
      else sys
    case Transfer =>
      if sys.taken < |sys.room|
      then sys.(taken := sys.taken + 1, rx := R.Step(sys.rx, R.Arrive(sys.room[sys.taken])))
      else sys
    case GapTimer => sys.(rx := R.Step(sys.rx, R.GapFires))
    case RetransmitTimer => sys.(rx := R.Step(sys.rx, R.RetransmitFires))
    case CloseSocket => sys.(rx := R.Step(sys.rx, R.Close))
  }

  function Exec(sys: System, actions: seq<Action>): System
    decreases actions
  {
    if actions == [] then sys else Exec(Step(sys, actions[0]), actions[1..])
  }

  // ---------------------------------------------------------------------------
  // In-order arrival
  // ---------------------------------------------------------------------------

  /** The resolved packets, and the one being sent if it has been accepted. */
  function SoFar(tx: S.World, accepted: bool): seq<Packet> {
    if accepted && tx.s.phase.Sending? then S.Packets(tx.resolved) + [tx.s.phase.packet] else S.Packets(tx.resolved)
  }

  ghost predicate RoomInv(tx: S.World, room: seq<Packet>, accepted: bool, lost: bool) {
    && S.Inv(tx)
    && (accepted ==> tx.s.phase.Sending?)
    && StrictlyIncreasing(room)
    && (forall p :: p in room ==> p in SoFar(tx, accepted))
    && (!lost ==> room == SoFar(tx, accepted))
  }

  ghost predicate Inv(sys: System) {
    && RoomInv(sys.tx, sys.room, sys.accepted, sys.lost)
    && sys.taken <= |sys.room|
    && RxInv(sys.rx, sys.room[..sys.taken])
  }

  /** What the room has seen so far begins the trail of the sender. */
  lemma SoFarIncreases(tx: S.World, accepted: bool)
    requires S.Inv(tx)
    ensures SoFar(tx, accepted) <= S.Trail(tx)
    ensures StrictlyIncreasing(SoFar(tx, accepted))
  {
    hide S.Packets, S.Blocks, S.End, Concat;
    S.BlocksIncrease(S.Trail(tx), tx.flushes, 0);
    assert SoFar(tx, accepted) <= S.Trail(tx);
    IncreasingPrefix(S.Trail(tx), |SoFar(tx, accepted)|);
  }

  /** The receiver has taken in `packets`, all delivered or still buffered, in order. */
  ghost predicate RxInv(rx: R.World, packets: seq<Packet>) {
    && R.Inv(rx)
    && !R.Doomed(rx.s)
    && rx.delivered + rx.s.buffer == packets
    && rx.s.expected <= S.End(packets, 0)
  }

  /** Appending a larger number to a sorted buffer is what sorting does. */
  lemma InsertLast(ps: seq<Packet>, p: Packet)
    requires forall q :: q in ps ==> q.num < p.num
    ensures R.Insert(ps, p) == ps + [p]
  {
    if ps != [] {
      assert ps[|ps| - 1] in ps;
    }
  }

  lemma NumsBeforeEnd(packets: seq<Packet>)
    requires StrictlyIncreasing(packets)
    ensures forall p :: p in packets ==> p.num < S.End(packets, 0)
  {
  }

  /** A flush moves packets from the buffer to the output without reordering them. */
  lemma FlushedKeepsOrder(t: R.State, delivered: seq<Packet>, packets: seq<Packet>)
    requires StrictlyIncreasing(packets)
    requires delivered + t.buffer == packets
    requires t.expected <= S.End(packets, 0)
    ensures delivered + R.ReadyPackets(t) + R.Flushed(t).buffer == packets
    ensures R.Flushed(t).expected <= S.End(packets, 0)
  {
    R.FlushedShape(t);
    var out, rest := R.ReadyPackets(t), R.Flushed(t).buffer;
    assert delivered + out + rest == delivered + (out + rest);
    if out != [] {
      NumsBeforeEnd(packets);
      var last := out[|out| - 1];
      assert last in t.buffer && last in packets;
    }
  }

  lemma LastIsLargest(packets: seq<Packet>, p: Packet)
    requires StrictlyIncreasing(packets + [p])
    ensures StrictlyIncreasing(packets)
    ensures forall q :: q in packets ==> q.num < p.num
    ensures S.End(packets, 0) <= p.num
  {
    var all := packets + [p];
    assert all[|packets|] == p;
    forall i | 0 <= i < |packets| ensures packets[i].num < p.num {
      assert all[i] == packets[i];
    }
    forall i, j | 0 <= i < j < |packets| ensures packets[i].num < packets[j].num {
      assert all[i] == packets[i] && all[j] == packets[j];
    }
  }

  lemma EnqueuedAtEnd(rx: R.World, packets: seq<Packet>, p: Packet)
    requires R.Sorted(rx.s.buffer) && rx.delivered + rx.s.buffer == packets
    requires rx.s.expected <= p.num && forall q :: q in packets ==> q.num < p.num
    ensures R.Enqueued(rx.s, p) == rx.s.(buffer := rx.s.buffer + [p])
    ensures forall q :: q in rx.s.buffer ==> q.num < p.num
    ensures rx.delivered + (rx.s.buffer + [p]) == packets + [p]
  {
    forall q | q in rx.s.buffer ensures q.num < p.num {
      assert q in packets;
    }
    InsertLast(rx.s.buffer, p);
    R.SortAppended(rx.s.buffer, p);
  }

  lemma ArriveInv(rx: R.World, packets: seq<Packet>, p: Packet)
    requires RxInv(rx, packets) && StrictlyIncreasing(packets + [p])
    ensures RxInv(R.Step(rx, R.Arrive(p)), packets + [p])
  {
    LastIsLargest(packets, p);
    EnqueuedAtEnd(rx, packets, p);
    R.StepInv(rx, R.Arrive(p));
    R.StepHealthy(rx, R.Arrive(p));
    FlushedKeepsOrder(R.Enqueued(rx.s, p), rx.delivered, packets + [p]);
  }

  lemma RxStepInv(rx: R.World, packets: seq<Packet>, a: R.Action)
    requires RxInv(rx, packets) && StrictlyIncreasing(packets) && !a.Arrive?
    ensures RxInv(R.Step(rx, a), packets)
  {
    R.StepInv(rx, a);
    R.StepHealthy(rx, a);
    match R.BeforeFlush(rx.s, a)
    case Some(t) =>
      NumsBeforeEnd(packets);
      assert rx.s.buffer[0] in packets;
      FlushedKeepsOrder(t, rx.delivered, packets);
    case None =>
      assert rx.delivered + [] == rx.delivered;
  }

  /** A step of the sender that settles nothing leaves the packet being sent alone. */
  lemma StillSending(tx: S.World, b: S.Action)
    requires !Settles(tx, b)
    ensures S.Step(tx, b).resolved == tx.resolved
    ensures tx.s.phase.Sending? && !b.RateLimited? ==> S.Step(tx, b).s.phase == tx.s.phase
  {
    hide Concat, Payload;
  }

  lemma Settling(tx: S.World, b: S.Action)
    requires Settles(tx, b)
    ensures S.Packets(S.Step(tx, b).resolved) == S.Packets(tx.resolved) + [tx.s.phase.packet]
    ensures !S.Step(tx, b).s.phase.Sending?
  {
    S.PacketsSnoc(tx.resolved, if b.SendOk? then S.Sent(tx.s.phase.packet) else S.Dropped(tx.s.phase.packet));
    hide Concat, Payload, S.Packets;
  }

  /** What has settled stays at the end of what the room has seen so far. */
  lemma SettledSoFar(tx: S.World, b: S.Action, accepted: bool)
    requires Settles(tx, b)
    ensures SoFar(S.Step(tx, b), false) == SoFar(tx, true)
    ensures accepted ==> SoFar(S.Step(tx, b), false) == SoFar(tx, accepted)
    ensures SoFar(tx, accepted) <= SoFar(S.Step(tx, b), false)
  {
    Settling(tx, b);
    hide S.Packets, S.Step;
  }

  lemma UnsettledSoFar(tx: S.World, b: S.Action, accepted: bool)
    requires !Settles(tx, b) && (accepted ==> tx.s.phase.Sending? && !b.RateLimited?)
    ensures SoFar(S.Step(tx, b), accepted) == SoFar(tx, accepted)
    ensures accepted ==> S.Step(tx, b).s.phase.Sending?
  {
    StillSending(tx, b);
    hide S.Packets, S.Step;
  }

  lemma TxStepInv(sys: System, b: S.Action)
    requires Inv(sys) && Possible(sys, b)
    ensures Inv(Step(sys, Tx(b)))
  {
    hide S.Inv, S.Step, StrictlyIncreasing, RxInv, SoFar;
    S.StepInv(sys.tx, b);
    if Settles(sys.tx, b) {
      SettledSoFar(sys.tx, b, sys.accepted);
    } else {
      UnsettledSoFar(sys.tx, b, sys.accepted);
    }
  }

  lemma AppendLargest(room: seq<Packet>, before: seq<Packet>, p: Packet)
    requires StrictlyIncreasing(room) && StrictlyIncreasing(before + [p])
    requires forall q :: q in room ==> q in before
    ensures StrictlyIncreasing(room + [p])
  {
    LastIsLargest(before, p);
    forall i | 0 <= i < |room| ensures room[i].num < p.num {
      assert room[i] in before;
    }
  }

  lemma AcceptInv(sys: System)
    requires Inv(sys) && sys.tx.s.phase.Sending? && !sys.accepted
    ensures Inv(Step(sys, Accept))
  {
    var p, before, room := sys.tx.s.phase.packet, SoFar(sys.tx, false), sys.room;
    SoFarIncreases(sys.tx, true);
    hide S.Packets, S.Inv, RxInv, StrictlyIncreasing;
    AppendLargest(room, before, p);
    assert (room + [p])[..sys.taken] == room[..sys.taken];
  }

  lemma IncreasingPrefix(ps: seq<Packet>, n: nat)
    requires StrictlyIncreasing(ps) && n <= |ps|
    ensures StrictlyIncreasing(ps[..n])
  {
  }

  lemma TransferInv(sys: System)
    requires Inv(sys) && sys.taken < |sys.room|
    ensures Inv(Step(sys, Transfer))
  {
    hide RxInv, SoFar, S.Inv;
    var room, n := sys.room, sys.taken;
    IncreasingPrefix(room, n + 1);
    assert room[..n + 1] == room[..n] + [room[n]];
    ArriveInv(sys.rx, room[..n], room[n]);
  }

  lemma StepInv(sys: System, a: Action)
    requires Inv(sys)
    ensures Inv(Step(sys, a))
  {
    IncreasingPrefix(sys.room, sys.taken);
    hide RxInv, RoomInv;
    var before := sys.room[..sys.taken];
    match a
    case Tx(b) => if Possible(sys, b) { TxStepInv(sys, b); }
    case Accept => if sys.tx.s.phase.Sending? && !sys.accepted { AcceptInv(sys); }
    case Transfer => if sys.taken < |sys.room| { TransferInv(sys); }
    case GapTimer => RxStepInv(sys.rx, before, R.GapFires);
    case RetransmitTimer => RxStepInv(sys.rx, before, R.RetransmitFires);
    case CloseSocket => RxStepInv(sys.rx, before, R.Close);
  }

  lemma {:induction false} ExecInv(sys: System, actions: seq<Action>)
    requires Inv(sys)
    ensures Inv(Exec(sys, actions))
    decreases actions
  {
    if actions != [] {
      StepInv(sys, actions[0]);
      ExecInv(Step(sys, actions[0]), actions[1..]);
    }
  }

  lemma StartInv(batchMs: int)
    ensures Inv(Start(batchMs))
  {
  }

  // ---------------------------------------------------------------------------
  // Main results
  // ---------------------------------------------------------------------------

  /**
   * Every run, lossy or not: the delivered packets are a prefix of those the room accepted,
   * whatever the timers did about the holes in their numbering.
   */
  lemma DeliversRoomPrefix(batchMs: int, actions: seq<Action>)
    ensures var sys := Exec(Start(batchMs), actions); sys.rx.delivered <= sys.room
  {
    StartInv(batchMs);
    ExecInv(Start(batchMs), actions);
    var sys := Exec(Start(batchMs), actions);
    assert sys.rx.delivered <= sys.room[..sys.taken] <= sys.room;
  }

  /** The bytes of the first packets of a room that lost nothing are the first bytes pushed. */
  lemma RoomPrefixOfPushed(sys: System, ps: seq<Packet>)
    requires RoomInv(sys.tx, sys.room, sys.accepted, false) && ps <= sys.room
    ensures Payload(ps) <= sys.tx.pushed
  {
    var trail := S.Trail(sys.tx);
    SoFarIncreases(sys.tx, sys.accepted);
    hide S.Packets, SoFar, S.Trail;
    assert trail == ps + trail[|ps|..];
    S.BlocksPrefix(ps, trail[|ps|..], sys.tx.flushes);
  }

  /**
   * End to end, at every moment of every run that lost nothing: the bytes delivered are a prefix
   * of the bytes pushed. Rate limits, coalescing, packets received before their send returns,
   * sends that fail after having been accepted, destroying the sender and closing the socket are
   * all allowed.
   */
  lemma DeliveredIsPrefix(batchMs: int, actions: seq<Action>)
    ensures var sys := Exec(Start(batchMs), actions);
      !sys.lost ==> Payload(sys.rx.delivered) <= sys.tx.pushed
  {
    StartInv(batchMs);
    ExecInv(Start(batchMs), actions);
    DeliversRoomPrefix(batchMs, actions);
    var sys := Exec(Start(batchMs), actions);
    hide Exec, Start, RxInv, RoomInv;
    if !sys.lost {
      RoomPrefixOfPushed(sys, sys.rx.delivered);
    }
  }

  /** Nothing is left to do: no data or timer at the sender, all of the room taken, no receiver timer. */
  ghost predicate Settled(sys: System) {
    && sys.tx.s.phase == S.Idle && !sys.tx.s.timer
    && sys.taken == |sys.room|
    && !sys.rx.s.gapTimer && !sys.rx.s.retransmitTimer
  }

  lemma SettledIsComplete(sys: System)
    requires Inv(sys) && !sys.lost && Settled(sys)
    requires !sys.tx.s.destroyed && !sys.rx.s.closed
    ensures Payload(sys.rx.delivered) == sys.tx.pushed
  {
    hide S.Packets, S.Blocks;
    var tx, room := sys.tx, sys.room;
    assert sys.rx.delivered + [] == room[..sys.taken] == room;
    assert S.Trail(tx) == room + [] == room;
    S.BlocksPayload(room, tx.flushes, 0);
    assert tx.flushes[0..|tx.flushes|] == tx.flushes;
    assert Concat(tx.s.buffer) == [];
  }

  /** Once everything has settled, the bytes delivered are exactly the bytes pushed. */
  lemma DeliveredIsComplete(batchMs: int, actions: seq<Action>)
    ensures var sys := Exec(Start(batchMs), actions);
      !sys.lost && !sys.tx.s.destroyed && !sys.rx.s.closed && Settled(sys)
      ==> Payload(sys.rx.delivered) == sys.tx.pushed
  {
    StartInv(batchMs);
    ExecInv(Start(batchMs), actions);
    var sys := Exec(Start(batchMs), actions);
    hide Exec, Start;
    if !sys.lost && !sys.tx.s.destroyed && !sys.rx.s.closed && Settled(sys) {
      SettledIsComplete(sys);
    }
  }

  // ---------------------------------------------------------------------------
  // Settling is always possible
  // ---------------------------------------------------------------------------

  lemma {:induction false} ExecAppend(sys: System, a: seq<Action>, b: seq<Action>)
    ensures Exec(sys, a + b) == Exec(Exec(sys, a), b)
    decreases a
  {
    if a == [] {
      assert a + b == b;
    } else {
      assert (a + b)[0] == a[0] && (a + b)[1..] == a[1..] + b;
      ExecAppend(Step(sys, a[0]), a[1..], b);
    }
  }

  ghost predicate Live(sys: System) {
    Inv(sys) && !sys.lost && !sys.tx.s.destroyed && !sys.rx.s.closed
  }

  /** Acceptance if it is due, then the step that resumes the drain. */
  function Onward(sys: System): seq<Action> {
    if sys.tx.s.phase.Sending? && !sys.accepted then [Accept, Tx(S.SendOk)] else [Tx(S.Resume(sys.tx.s.phase))]
  }

  lemma ResumeStep(sys: System)
    requires Live(sys) && !sys.tx.s.timer && sys.tx.s.phase != S.Idle && (sys.tx.s.phase.Sending? ==> sys.accepted)
    ensures var sys' := Step(sys, Tx(S.Resume(sys.tx.s.phase)));
      && Live(sys') && !sys'.tx.s.timer && sys'.tx.pushed == sys.tx.pushed
      && S.Rank(sys'.tx.s) < S.Rank(sys.tx.s)
  {
    StepInv(sys, Tx(S.Resume(sys.tx.s.phase)));
    S.ResumeAdvances(sys.tx);
    hide S.Step, S.Blocks, S.Packets, S.Trail, RxInv, SoFar;
  }

  lemma SendStep(sys: System)
    requires Live(sys) && !sys.tx.s.timer && sys.tx.s.phase != S.Idle
    ensures var sys' := Exec(sys, Onward(sys));
      && Live(sys') && !sys'.tx.s.timer && sys'.tx.pushed == sys.tx.pushed
      && S.Rank(sys'.tx.s) < S.Rank(sys.tx.s)
  {
    hide Inv, S.Rank, S.Step;
    if sys.tx.s.phase.Sending? && !sys.accepted {
      var mid := Step(sys, Accept);
      StepInv(sys, Accept);
      ResumeStep(mid);
      assert [Accept, Tx(S.SendOk)][1..] == [Tx(S.SendOk)];
      assert Exec(mid, [Tx(S.SendOk)]) == Exec(Step(mid, Tx(S.SendOk)), []);
    } else {
      ResumeStep(sys);
      var a := Tx(S.Resume(sys.tx.s.phase));
      assert Exec(sys, [a]) == Exec(Step(sys, a), []);
    }
  }

  lemma {:induction false} SettleSender(sys: System) returns (actions: seq<Action>)
    requires Live(sys) && !sys.tx.s.timer
    ensures var sys' := Exec(sys, actions);
      Live(sys') && !sys'.tx.s.timer && sys'.tx.s.phase == S.Idle && sys'.tx.pushed == sys.tx.pushed
    decreases S.Rank(sys.tx.s)
  {
    if sys.tx.s.phase == S.Idle {
      actions := [];
    } else {
      hide Live, Onward;
      SendStep(sys);
      var rest := SettleSender(Exec(sys, Onward(sys)));
      actions := Onward(sys) + rest;
      ExecAppend(sys, Onward(sys), rest);
    }
  }

  lemma {:induction false} SettleRoom(sys: System) returns (actions: seq<Action>)
    requires Live(sys)
    ensures var sys' := Exec(sys, actions);
      Live(sys') && sys'.tx == sys.tx && sys'.taken == |sys'.room|
    decreases |sys.room| - sys.taken
  {
    if sys.taken == |sys.room| {
      actions := [];
    } else {
      TransferLive(sys);
      hide Live, R.Step;
      var rest := SettleRoom(Step(sys, Transfer));
      actions := [Transfer] + rest;
      assert actions[1..] == rest;
    }
  }

  lemma TransferLive(sys: System)
    requires Live(sys) && sys.taken < |sys.room|
    ensures Live(Step(sys, Transfer)) && Step(sys, Transfer).taken <= |sys.room|
  {
    hide Inv, R.Step;
    StepInv(sys, Transfer);
    ArriveKeepsOpen(sys.rx, sys.room[sys.taken]);
  }

  lemma ArriveKeepsOpen(rx: R.World, p: Packet)
    ensures R.Step(rx, R.Arrive(p)).s.closed == rx.s.closed
  {
    hide R.SortByNum, R.ReadyCount;
  }

  lemma FireOnce(sys: System) returns (actions: seq<Action>)
    ensures Exec(sys, actions) == sys.(rx := R.Fire(sys.rx))
  {
    if sys.rx.s.gapTimer || sys.rx.s.retransmitTimer {
      var a := if sys.rx.s.gapTimer then GapTimer else RetransmitTimer;
      actions := [a];
      assert Exec(sys, actions) == Exec(Step(sys, a), []);
    } else {
      actions := [];
    }
  }

  /** Timer firings at the receiver are a run of the system. */
  lemma {:induction false} SettleTimers(sys: System, n: nat) returns (actions: seq<Action>)
    ensures Exec(sys, actions) == sys.(rx := R.FireTimes(sys.rx, n))
    decreases n
  {
    if n == 0 {
      actions := [];
    } else {
      var first := FireOnce(sys);
      var rest := SettleTimers(Exec(sys, first), n - 1);
      actions := first + rest;
      ExecAppend(sys, first, rest);
    }
  }

  /** Finishing the sends and the transfers of a live system. */
  lemma SettleTransport(sys: System) returns (actions: seq<Action>)
    requires Live(sys)
    ensures var sys' := Exec(sys, actions);
      && Live(sys') && sys'.tx.pushed == sys.tx.pushed
      && sys'.tx.s.phase == S.Idle && !sys'.tx.s.timer && sys'.taken == |sys'.room|
  {
    var flush := Tx(S.FlushCall);
    StepInv(sys, flush);
    S.FlushCallEmpties(sys.tx);
    var sys1 := Step(sys, flush);
    assert Exec(sys, [flush]) == Exec(sys1, []) == sys1;
    var send := SettleSender(sys1);
    ExecAppend(sys, [flush], send);
    var move := SettleRoom(Exec(sys1, send));
    ExecAppend(sys, [flush] + send, move);
    actions := [flush] + send + move;
  }

  lemma Settle(sys: System) returns (actions: seq<Action>)
    requires Live(sys)
    ensures var sys' := Exec(sys, actions);
      Settled(sys') && sys'.tx.pushed == sys.tx.pushed && Payload(sys'.rx.delivered) == sys.tx.pushed
  {
    var move := SettleTransport(sys);
    var mid := Exec(sys, move);
    R.TimersDrain(mid.rx);
    var fire := SettleTimers(mid, R.Firings(mid.rx.s));
    ExecAppend(sys, move, fire);
    ExecInv(mid, fire);
    SettledIsComplete(Exec(mid, fire));
    actions := move + fire;
  }

  /**
   * From every state reachable without a loss, destroy or close, there is a schedule (flush,
   * finish the sends, transfer, let the timers run) that pushes nothing more and ends with
   * exactly the pushed bytes delivered.
   */
  lemma CanComplete(batchMs: int, before: seq<Action>) returns (after: seq<Action>)
    requires var sys := Exec(Start(batchMs), before);
      !sys.lost && !sys.tx.s.destroyed && !sys.rx.s.closed
    ensures var sys, sys' := Exec(Start(batchMs), before), Exec(Start(batchMs), before + after);
      Settled(sys') && sys'.tx.pushed == sys.tx.pushed && Payload(sys'.rx.delivered) == sys.tx.pushed
  {
    StartInv(batchMs);
    ExecInv(Start(batchMs), before);
    after := Settle(Exec(Start(batchMs), before));
    ExecAppend(Start(batchMs), before, after);
  }

  // ---------------------------------------------------------------------------
  // Any arrival order
  // ---------------------------------------------------------------------------

  ghost predicate Subsequence(a: seq<Packet>, b: seq<Packet>)
    decreases b
  {
    a == [] || (b != [] && (if a[0] == b[0] then Subsequence(a[1..], b[1..]) else Subsequence(a, b[1..])))
  }

  lemma {:induction false} IncreasingSubsequence(a: seq<Packet>, b: seq<Packet>)
    requires StrictlyIncreasing(a) && StrictlyIncreasing(b)
    requires forall p :: p in a ==> p in b
    ensures Subsequence(a, b)
    decreases b
  {
    if a != [] {
      assert a[0] in b;
      if a[0] == b[0] {
        forall p | p in a[1..] ensures p in b[1..] {
          var i :| 0 < i < |a| && a[i] == p;
          assert a[0].num < a[i].num;
          assert p in b;
        }
        IncreasingSubsequence(a[1..], b[1..]);
      } else {
        var k :| 0 < k < |b| && b[k] == a[0];
        forall p | p in a ensures p in b[1..] {
          var i :| 0 <= i < |a| && a[i] == p;
          assert b[0].num < b[k].num <= p.num;
          assert p in b;
        }
        IncreasingSubsequence(a, b[1..]);
      }
    }
  }

  /**
   * Any network: accepted packets may be lost, repeated and reordered at will on their way. The
   * output is still a subsequence of what the room accepted, in that order, and the room in turn
   * of what the sender resolved or is sending.
   */
  lemma AnyArrivalOrder(batchMs: int, actions: seq<Action>, receipts: seq<R.Action>)
    requires forall a :: a in receipts && a.Arrive? ==> a.packet in Exec(Start(batchMs), actions).room
    ensures var sys := Exec(Start(batchMs), actions);
      && Subsequence(R.Exec(R.START, receipts).delivered, sys.room)
      && Subsequence(sys.room, SoFar(sys.tx, sys.accepted))
  {
    var sys := Exec(Start(batchMs), actions);
    StartInv(batchMs);
    ExecInv(Start(batchMs), actions);
    hide Exec, Start, RxInv;
    SoFarIncreases(sys.tx, sys.accepted);
    hide S.Inv, SoFar;
    IncreasingSubsequence(sys.room, SoFar(sys.tx, sys.accepted));
    OutputOfRoom(receipts, sys.room);
  }

  lemma OutputOfRoom(receipts: seq<R.Action>, room: seq<Packet>)
    requires StrictlyIncreasing(room)
    requires forall a :: a in receipts && a.Arrive? ==> a.packet in room
    ensures Subsequence(R.Exec(R.START, receipts).delivered, room)
  {
    R.Safety([], receipts);
    assert [] + receipts == receipts;
    ArrivedOnly(R.START, receipts, room);
    hide R.Exec, StrictlyIncreasing;
    IncreasingSubsequence(R.Exec(R.START, receipts).delivered, room);
  }

  lemma {:induction false} ArrivedOnly(w: R.World, receipts: seq<R.Action>, room: seq<Packet>)
    requires forall p :: p in w.arrived ==> p in room
    requires forall a :: a in receipts && a.Arrive? ==> a.packet in room
    ensures forall p :: p in R.Exec(w, receipts).arrived ==> p in room
    decreases receipts
  {
    if receipts != [] {
      ArrivedOnly(R.Step(w, receipts[0]), receipts[1..], room);
    }
  }
}
