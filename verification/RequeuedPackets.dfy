/**
 * The P2P transport feeding the terminal receiver: which runs of packages/core/p2p-transport.js
 * make the receive buffer of packages/core/terminal-socket.js hold a number twice.
 *
 * A packet placed on the data channel may arrive there, and if it was never acknowledged it is
 * handed to Matrix and may arrive once more. Packets sent over Matrix in the first place arrive
 * at most once. Arrivals may come in any order, and late.
 */
module RequeuedPackets {
  import opened Common
  import U = UnackedEvents
  import R = TerminalSocket

  /** One copy of a packet on its way: by number of the event placed, or of the packet sent directly. */
  datatype Copy = Channel(i: nat) | Requeued(i: nat) | Direct(i: nat)

  /** The other copy that the same packet can have. */
  function Twin(c: Copy): Copy {
    match c
    case Channel(i) => Requeued(i)
    case Requeued(i) => Channel(i)
    case Direct(i) => Direct(i)
  }

  /** `log` is the history of the transport, `packets` those placed on its channel, in order. */
  datatype System = System(
    log: seq<U.Action>, packets: seq<Packet>, direct: seq<Packet>, arrived: set<Copy>, rx: R.World)

  const START := System([], [], [], {}, R.START)

  datatype Action =
    | Place(packet: Packet)
    | SendDirect(packet: Packet)
    | Transport(u: U.Action)
    | Arrives(copy: Copy)
    | Receiver(r: R.Action)

  /** The transport sees the number in a packet's content. */
  function EventOf(p: Packet): U.Event {
    U.Event("", Some(p.num))
  }

  predicate Underway(sys: System, c: Copy) {
    match c
    case Channel(i) => i < |sys.packets|
    case Requeued(i) => i < |sys.packets| && i < |U.Exec(sys.log).fates| && U.Exec(sys.log).fates[i] == U.Handed
    case Direct(i) => i < |sys.direct|
  }

  function PacketOf(sys: System, c: Copy): Packet
    requires Underway(sys, c)
  {
    if c.Direct? then sys.direct[c.i] else sys.packets[c.i]
  }

  /** Numbers come from one sender, which never repeats one. */
  predicate Unused(sys: System, num: nat) {
    (forall p :: p in sys.packets ==> p.num != num) && (forall p :: p in sys.direct ==> p.num != num)
  }

  /** The channel has been in use: before that nothing is placed on it and no idle timer runs. */
  predicate HasBeenActive(sys: System) {
    U.SetStatus(true) in sys.log
  }

  predicate Enabled(sys: System, a: Action) {
    match a
    case Place(p) => HasBeenActive(sys) && Unused(sys, p.num)
    case SendDirect(p) => Unused(sys, p.num)
    case Transport(u) => !u.Place? && (u.IdleTimeout? ==> HasBeenActive(sys))
    case Arrives(c) => Underway(sys, c) && c !in sys.arrived
    case Receiver(r) => !r.Arrive?
  }

  function Step(sys: System, a: Action): System {
    if !Enabled(sys, a) then sys
    else match a
      case Place(p) => sys.(log := sys.log + [U.Place(EventOf(p))], packets := sys.packets + [p])
      case SendDirect(p) => sys.(direct := sys.direct + [p])
      case Transport(u) => sys.(log := sys.log + [u])
      case Arrives(c) =>
        sys.(arrived := sys.arrived + {c}, rx := R.Step(sys.rx, R.Arrive(PacketOf(sys, c))))
      case Receiver(r) => sys.(rx := R.Step(sys.rx, r))
  }

  function Exec(sys: System, actions: seq<Action>): System
    decreases actions
  {
    if actions == [] then sys else Exec(Step(sys, actions[0]), actions[1..])
  }

  // ---------------------------------------------------------------------------
  // What every step keeps
  // ---------------------------------------------------------------------------

  ghost predicate DistinctNumbers(sys: System) {
    && (forall i, j :: 0 <= i < j < |sys.packets| ==> sys.packets[i].num != sys.packets[j].num)
    && (forall i, j :: 0 <= i < j < |sys.direct| ==> sys.direct[i].num != sys.direct[j].num)
    && (forall p, q :: p in sys.packets && q in sys.direct ==> p.num != q.num)
  }

  ghost predicate FromCopies(sys: System) {
    && (forall c :: c in sys.arrived ==> Underway(sys, c))
    && (forall p :: p in sys.rx.arrived ==> exists c :: c in sys.arrived && Underway(sys, c) && PacketOf(sys, c) == p)
  }

  ghost predicate Inv(sys: System) {
    && U.Exec(sys.log).sent == Events(sys.packets)
    && DistinctNumbers(sys)
    && FromCopies(sys)
    && R.Inv(sys.rx)
  }

  function Events(packets: seq<Packet>): seq<U.Event> {
    seq(|packets|, i requires 0 <= i < |packets| => EventOf(packets[i]))
  }

  /** What is underway stays so, with its packet, whatever happens to the transport. */
  lemma {:induction false} StaysUnderway(sys: System, sys': System, more: seq<U.Action>, c: Copy)
    requires Underway(sys, c) && sys.packets <= sys'.packets && sys.direct <= sys'.direct
    requires sys'.log == sys.log + more
    ensures Underway(sys', c) && PacketOf(sys', c) == PacketOf(sys, c)
  {
    hide U.Exec;
    if c.Requeued? {
      U.FatesAreFinal(sys.log, more, c.i);
    }
  }

  lemma {:induction false} CopiesStay(sys: System, sys': System, more: seq<U.Action>)
    requires FromCopies(sys) && sys.packets <= sys'.packets && sys.direct <= sys'.direct
    requires sys'.log == sys.log + more && sys'.arrived == sys.arrived && sys'.rx == sys.rx
    ensures FromCopies(sys')
  {
    hide Underway;
    forall c | c in sys.arrived ensures Underway(sys', c) && PacketOf(sys', c) == PacketOf(sys, c) {
      StaysUnderway(sys, sys', more, c);
    }
  }

  lemma {:induction false} LogSnoc(log: seq<U.Action>, u: U.Action)
    ensures U.Exec(log + [u]) == U.Step(U.Exec(log), u)
  {
    assert (log + [u])[..|log|] == log;
  }

  lemma {:induction false} PlaceInv(sys: System, p: Packet)
    requires Inv(sys) && Enabled(sys, Place(p))
    ensures Inv(Step(sys, Place(p)))
  {
    var u := U.Place(EventOf(p));
    LogSnoc(sys.log, u);
    CopiesStay(sys, Step(sys, Place(p)), [u]);
    hide FromCopies, R.Inv;
    assert Events(sys.packets + [p]) == Events(sys.packets) + [EventOf(p)];
  }

  lemma {:induction false} TransportInv(sys: System, u: U.Action)
    requires Inv(sys) && Enabled(sys, Transport(u))
    ensures Inv(Step(sys, Transport(u)))
  {
    LogSnoc(sys.log, u);
    CopiesStay(sys, Step(sys, Transport(u)), [u]);
  }

  lemma {:induction false} DirectInv(sys: System, p: Packet)
    requires Inv(sys) && Unused(sys, p.num)
    ensures Inv(Step(sys, SendDirect(p)))
  {
    assert sys.log + [] == sys.log;
    CopiesStay(sys, Step(sys, SendDirect(p)), []);
  }

  lemma {:induction false} ArrivesInv(sys: System, c: Copy)
    requires Inv(sys) && Enabled(sys, Arrives(c))
    ensures Inv(Step(sys, Arrives(c)))
  {
    hide R.Inv, R.Step, Events, U.Exec, FromCopies, Underway, Unused;
    ReceiverArrives(sys.rx, PacketOf(sys, c));
    ArrivedCopies(sys, c, Step(sys, Arrives(c)));
  }

  lemma {:induction false} ReceiverArrives(rx: R.World, p: Packet)
    requires R.Inv(rx)
    ensures R.Inv(R.Step(rx, R.Arrive(p))) && R.Step(rx, R.Arrive(p)).arrived == rx.arrived + [p]
  {
    R.StepInv(rx, R.Arrive(p));
  }

  lemma {:induction false} ArrivedCopies(sys: System, c: Copy, sys': System)
    requires FromCopies(sys) && Underway(sys, c)
    requires sys'.log == sys.log && sys'.packets == sys.packets && sys'.direct == sys.direct
    requires sys'.arrived == sys.arrived + {c} && sys'.rx.arrived == sys.rx.arrived + [PacketOf(sys, c)]
    ensures FromCopies(sys')
  {
    forall d | d in sys'.arrived ensures Underway(sys', d) && PacketOf(sys', d) == PacketOf(sys, d) {
      SameUnderway(sys, sys', d);
    }
    hide Underway;
    forall q | q in sys'.rx.arrived
      ensures exists d :: d in sys'.arrived && Underway(sys', d) && PacketOf(sys', d) == q
    {
      if q in sys.rx.arrived {
        var d :| d in sys.arrived && Underway(sys, d) && PacketOf(sys, d) == q;
        assert d in sys'.arrived;
      } else {
        assert c in sys'.arrived;
      }
    }
  }

  lemma {:induction false} SameUnderway(sys: System, sys': System, c: Copy)
    requires Underway(sys, c) && sys'.log == sys.log && sys'.packets == sys.packets && sys'.direct == sys.direct
    ensures Underway(sys', c) && PacketOf(sys', c) == PacketOf(sys, c)
  {
  }

  lemma {:induction false} StepInv(sys: System, a: Action)
    requires Inv(sys)
    ensures Inv(Step(sys, a))
  {
    if Enabled(sys, a) {
      match a
      case Place(p) => PlaceInv(sys, p);
      case SendDirect(p) => DirectInv(sys, p);
      case Transport(u) => TransportInv(sys, u);
      case Arrives(c) => ArrivesInv(sys, c);
      case Receiver(r) =>
        R.StepInv(sys.rx, r);
        assert sys.log + [] == sys.log;
        var sys' := Step(sys, a);
        forall c | c in sys.arrived ensures Underway(sys', c) && PacketOf(sys', c) == PacketOf(sys, c) {
          SameUnderway(sys, sys', c);
        }
    }
  }

  // ---------------------------------------------------------------------------
  // Main results
  // ---------------------------------------------------------------------------

  /** The step brings the second copy of a packet whose first copy the receiver still buffers. */
  ghost predicate Repeats(sys: System, a: Action) {
    && Enabled(sys, a) && a.Arrives?
    && Twin(a.copy) in sys.arrived
    && PacketOf(sys, a.copy) in sys.rx.s.buffer
  }

  /** Along the run, no such step is taken. */
  ghost predicate NeverRepeats(sys: System, actions: seq<Action>)
    decreases actions
  {
    actions != [] ==> !Repeats(sys, actions[0]) && NeverRepeats(Step(sys, actions[0]), actions[1..])
  }

  /** Two copies of one number are twins. */
  lemma {:induction false} SameNumberAreTwins(sys: System, c: Copy, d: Copy)
    requires DistinctNumbers(sys) && Underway(sys, c) && Underway(sys, d) && c != d
    requires PacketOf(sys, c).num == PacketOf(sys, d).num
    ensures d == Twin(c) && PacketOf(sys, d) == PacketOf(sys, c)
  {
    var p, q := PacketOf(sys, c), PacketOf(sys, d);
    assert c.Direct? ==> p in sys.direct;
    assert !c.Direct? ==> p in sys.packets;
    assert d.Direct? ==> q in sys.direct;
    assert !d.Direct? ==> q in sys.packets;
  }

  /** A buffered number arrives again exactly as the second copy of its packet. */
  lemma {:induction false} RepeatedIffTwin(sys: System, c: Copy)
    requires Inv(sys) && Enabled(sys, Arrives(c))
    ensures R.Unrepeated(sys.rx.s, R.Arrive(PacketOf(sys, c))) <==> !Repeats(sys, Arrives(c))
  {
    hide Underway;
    var p := PacketOf(sys, c);
    if q :| q in sys.rx.s.buffer && q.num == p.num {
      assert q in sys.rx.arrived;
      var d :| d in sys.arrived && Underway(sys, d) && PacketOf(sys, d) == q;
      SameNumberAreTwins(sys, c, d);
    }
  }

  lemma {:induction false} StepHealthy(sys: System, a: Action)
    requires Inv(sys) && !R.Doomed(sys.rx.s)
    ensures !R.Doomed(Step(sys, a).rx.s) <==> !Repeats(sys, a)
  {
    hide R.Doomed, R.Unrepeated, Repeats, Underway;
    if Enabled(sys, a) {
      match a
      case Arrives(c) =>
        R.StepHealthy(sys.rx, R.Arrive(PacketOf(sys, c)));
        RepeatedIffTwin(sys, c);
      case Receiver(r) =>
        R.StepHealthy(sys.rx, r);
        OthersDoNotRepeat(sys, a);
      case _ => OthersDoNotRepeat(sys, a);
    } else {
      OthersDoNotRepeat(sys, a);
    }
  }

  lemma {:induction false} OthersDoNotRepeat(sys: System, a: Action)
    requires !Enabled(sys, a) || !a.Arrives?
    ensures !Repeats(sys, a)
    ensures a.Receiver? ==> R.Unrepeated(sys.rx.s, a.r) || a.r.Arrive?
  {
  }

  lemma {:induction false} StaysDoomed(sys: System, a: Action)
    requires Inv(sys) && R.Doomed(sys.rx.s)
    ensures R.Doomed(Step(sys, a).rx.s)
  {
    hide R.Doomed;
    if Enabled(sys, a) && a.Arrives? {
      R.StepDoomed(sys.rx, R.Arrive(PacketOf(sys, a.copy)));
    } else if Enabled(sys, a) && a.Receiver? {
      R.StepDoomed(sys.rx, a.r);
    }
  }

  lemma {:induction false} ExecDoomed(sys: System, actions: seq<Action>)
    requires Inv(sys) && R.Doomed(sys.rx.s)
    ensures R.Doomed(Exec(sys, actions).rx.s)
    decreases actions
  {
    if actions != [] {
      hide R.Doomed, Inv;
      StepInv(sys, actions[0]);
      StaysDoomed(sys, actions[0]);
      ExecDoomed(Step(sys, actions[0]), actions[1..]);
    }
  }

  lemma {:induction false} HealthyIffNeverRepeats(sys: System, actions: seq<Action>)
    requires Inv(sys) && !R.Doomed(sys.rx.s)
    ensures !R.Doomed(Exec(sys, actions).rx.s) <==> NeverRepeats(sys, actions)
    ensures Inv(Exec(sys, actions))
    decreases actions
  {
    if actions != [] {
      hide R.Doomed, Inv, Repeats;
      var next := Step(sys, actions[0]);
      StepInv(sys, actions[0]);
      StepHealthy(sys, actions[0]);
      if Repeats(sys, actions[0]) {
        ExecDoomed(next, actions[1..]);
        ExecInv(next, actions[1..]);
      } else {
        HealthyIffNeverRepeats(next, actions[1..]);
      }
    }
  }

  lemma {:induction false} ExecInv(sys: System, actions: seq<Action>)
    requires Inv(sys)
    ensures Inv(Exec(sys, actions))
    decreases actions
  {
    if actions != [] {
      hide Inv;
      StepInv(sys, actions[0]);
      ExecInv(Step(sys, actions[0]), actions[1..]);
    }
  }

  lemma {:induction false} RunInv(actions: seq<Action>)
    ensures Inv(Exec(START, actions))
  {
    assert Inv(START);
    ExecInv(START, actions);
  }

  /**
   * End to end, over every run of sends, acks, channel closes, idle timeouts, arrivals and timers:
   * the timers of the open receiver can deliver what it buffers if and only if no packet arrived
   * a second time, by the requeue to Matrix or late on the channel, while its first copy was
   * still buffered.
   */
  lemma {:induction false} StallsIffRepeated(actions: seq<Action>)
    ensures var rx := Exec(START, actions).rx;
      !rx.s.closed ==> ((exists n: nat :: R.FireTimes(rx, n).s.buffer == []) <==> NeverRepeats(START, actions))
  {
    assert Inv(START) && !R.Doomed(START.rx.s);
    HealthyIffNeverRepeats(START, actions);
    var rx := Exec(START, actions).rx;
    hide Exec, NeverRepeats;
    R.DrainsIff(rx);
  }

  /** A packet that arrives a second time was never acknowledged: it has been handed to Matrix. */
  lemma {:induction false} RepeatsAreUnacked(actions: seq<Action>, a: Action)
    requires Repeats(Exec(START, actions), a)
    ensures var sys := Exec(START, actions);
      && !a.copy.Direct?
      && a.copy.i < |U.Exec(sys.log).fates| && U.Exec(sys.log).fates[a.copy.i] == U.Handed
  {
    RunInv(actions);
    assert Underway(Exec(START, actions), Twin(a.copy));
  }

  /**
   * A run into the stall: the channel is active and number 0 never comes. Packet 1 arrives on the
   * channel, its ack does not, the channel closes and hands it to Matrix, and it arrives again
   * while the receiver waits for 0. The timers then skip to 1 and deliver it, and nothing is
   * delivered ever after.
   */
  lemma {:induction false} RequeueStalls(p: Packet) returns (run: seq<Action>)
    requires p.num == 1
    ensures |run| == 7
      && run[0] == Transport(U.SetStatus(true)) && run[1] == Place(p) && run[2] == Arrives(Channel(0))
      && run[3] == Transport(U.ChannelClose) && run[4] == Arrives(Requeued(0))
      && run[5] == Receiver(R.GapFires) && run[6] == Receiver(R.RetransmitFires)
    ensures StalledWith(Exec(START, run), p)
  {
    hide Exec, Step, Active, Once, Closed, Twice, StalledWith, Inv;
    Activated();
    Placed(p);
    ArrivedOnce(p);
    ClosesWithout(p);
    ArrivedTwice(p);
    OneStep(START, Transport(U.SetStatus(true)));
    TwoSteps(Active(), Place(p), Arrives(Channel(0)));
    TwoSteps(Once(p), Transport(U.ChannelClose), Arrives(Requeued(0)));
    TwoSteps(Twice(p), Receiver(R.GapFires), Receiver(R.RetransmitFires));
    var a, b := [Transport(U.SetStatus(true))], [Place(p), Arrives(Channel(0))];
    var c, d := [Transport(U.ChannelClose), Arrives(Requeued(0))], [Receiver(R.GapFires), Receiver(R.RetransmitFires)];
    ExecAppend(START, a, b);
    ExecAppend(START, a + b, c);
    ExecAppend(START, a + b + c, d);
    run := a + b + c + d;
    RunInv(run);
    TimersPart(p);
    StaysStalled(Exec(START, run), p);
  }

  /** Packet `p` has been delivered, and nothing else ever will be. */
  ghost predicate StalledWith(sys: System, p: Packet) {
    sys.rx.delivered == [p] && forall after :: Exec(sys, after).rx.delivered == [p]
  }

  lemma {:induction false} StaysStalled(sys: System, p: Packet)
    requires Inv(sys) && R.Stale(sys.rx.s) && sys.rx.delivered == [p]
    ensures StalledWith(sys, p)
  {
    hide Exec, Inv, R.Stale;
    forall after ensures Exec(sys, after).rx.delivered == [p] {
      StaleForever(sys, after);
    }
  }

  lemma {:induction false} ExecAppend(sys: System, a: seq<Action>, b: seq<Action>)
    ensures Exec(sys, a + b) == Exec(Exec(sys, a), b)
    decreases a
  {
    hide Step;
    if a == [] {
      assert a + b == b;
    } else {
      assert (a + b)[0] == a[0] && (a + b)[1..] == a[1..] + b;
      ExecAppend(Step(sys, a[0]), a[1..], b);
    }
  }

  lemma {:induction false} TwoSteps(sys: System, a: Action, b: Action)
    ensures Exec(sys, [a, b]) == Step(Step(sys, a), b)
  {
    hide Step;
    assert [a, b][1..] == [b] && [b][1..] == [];
    assert Exec(Step(sys, a), [b]) == Exec(Step(Step(sys, a), b), []);
  }

  lemma {:induction false} OneStep(sys: System, a: Action)
    ensures Exec(sys, [a]) == Step(sys, a)
  {
    hide Step;
    assert [a][1..] == [];
    assert Exec(sys, [a]) == Exec(Step(sys, a), []);
  }

  function Active(): System {
    System([U.SetStatus(true)], [], [], {}, R.START)
  }

  function OnChannel(p: Packet): System {
    System([U.SetStatus(true), U.Place(EventOf(p))], [p], [], {}, R.START)
  }

  function Once(p: Packet): System {
    OnChannel(p).(arrived := {Channel(0)}, rx := R.AfterOne(p))
  }

  function Closed(p: Packet): System {
    Once(p).(log := [U.SetStatus(true), U.Place(EventOf(p)), U.ChannelClose])
  }

  function Twice(p: Packet): System {
    Closed(p).(arrived := {Channel(0), Requeued(0)}, rx := R.AfterTwo(p))
  }

  lemma {:induction false} Activated()
    ensures Step(START, Transport(U.SetStatus(true))) == Active()
  {
    hide U.Exec, R.START;
    assert START.log + [U.SetStatus(true)] == [U.SetStatus(true)];
  }

  lemma {:induction false} Placed(p: Packet)
    ensures Step(Active(), Place(p)) == OnChannel(p)
  {
    hide U.Exec, R.START;
    assert HasBeenActive(Active());
    assert Active().packets + [p] == [p];
    assert Active().log + [U.Place(EventOf(p))] == OnChannel(p).log;
  }

  lemma {:induction false} ArrivedOnce(p: Packet)
    requires p.num == 1
    ensures Step(OnChannel(p), Arrives(Channel(0))) == Once(p)
  {
    R.OneEarly(p);
    hide R.Step, R.AfterOne, U.Exec, R.START;
  }

  lemma {:induction false} ClosesWithout(p: Packet)
    ensures Step(Once(p), Transport(U.ChannelClose)) == Closed(p)
  {
    hide R.AfterOne, U.Exec;
    assert Once(p).log + [U.ChannelClose] == Closed(p).log;
  }

  lemma {:induction false} ArrivedTwice(p: Packet)
    requires p.num == 1
    ensures Step(Closed(p), Arrives(Requeued(0))) == Twice(p)
  {
    HandedOver(Closed(p).log, p);
    R.OneAgain(p);
    hide R.Step, R.AfterOne, R.AfterTwo, U.Exec;
    assert Closed(p).arrived + {Requeued(0)} == {Channel(0), Requeued(0)};
  }

  lemma {:induction false} HandedOver(log: seq<U.Action>, p: Packet)
    requires log == [U.SetStatus(true), U.Place(EventOf(p)), U.ChannelClose]
    ensures U.Exec(log).fates == [U.Handed]
  {
    hide U.Exec;
    var on, place, close := U.SetStatus(true), U.Place(EventOf(p)), U.ChannelClose;
    EmptyLog();
    LogSnoc([], on);
    LogSnoc([on], place);
    LogSnoc([on, place], close);
    assert [] + [on] == [on] && [on] + [place] == [on, place] && [on, place] + [close] == [on, place, close];
    assert U.Exec([on]).fates == [] && U.Exec([on]).s.p2p;
    assert U.Exec([on, place]).fates == [U.Pending] && U.Exec([on, place]).s.p2p;
  }

  lemma {:induction false} EmptyLog()
    ensures U.Exec([]) == U.START
  {
  }

  lemma {:induction false} TimersPart(p: Packet)
    requires p.num == 1
    ensures var last := Step(Step(Twice(p), Receiver(R.GapFires)), Receiver(R.RetransmitFires)).rx;
      last.delivered == [p] && R.Stale(last.s)
  {
    hide R.Step, R.AfterTwo;
    R.SkipsToOne(p);
  }

  /** A stale head stays, whatever the transport does. */
  lemma {:induction false} StaleForever(sys: System, actions: seq<Action>)
    requires Inv(sys) && R.Stale(sys.rx.s)
    ensures Exec(sys, actions).rx.delivered == sys.rx.delivered
    decreases actions
  {
    if actions != [] {
      StepInv(sys, actions[0]);
      StaleStep(sys, actions[0]);
      hide Inv, R.Stale;
      StaleForever(Step(sys, actions[0]), actions[1..]);
    }
  }

  lemma {:induction false} StaleStep(sys: System, a: Action)
    requires Inv(sys) && R.Stale(sys.rx.s)
    ensures R.Stale(Step(sys, a).rx.s) && Step(sys, a).rx.delivered == sys.rx.delivered
  {
    hide R.Step, R.Stale;
    if Enabled(sys, a) && a.Arrives? {
      R.StaleStep(sys.rx, R.Arrive(PacketOf(sys, a.copy)));
    } else if Enabled(sys, a) && a.Receiver? {
      R.StaleStep(sys.rx, a.r);
    }
  }
}
