/**
 * What becomes of every packet that arrives at the terminal receiver
 * (packages/core/terminal-socket.js), in any order, any number of times and under any timer
 * schedule: it is delivered, buffered, or dropped because its number has already been passed.
 */
module ArrivalAccounts {
  import opened Common
  import opened TerminalSocket

  /** The packets of a run that were not below the expected number when they arrived. */
  function Taken(w: World, actions: seq<Action>): seq<Packet>
    decreases actions
  {
    if actions == [] then []
    else TakenNow(w, actions[0]) + Taken(Step(w, actions[0]), actions[1..])
  }

  function TakenNow(w: World, a: Action): seq<Packet> {
    if a.Arrive? && w.s.expected <= a.packet.num then [a.packet] else []
  }

  ghost function Held(w: World): multiset<Packet> {
    multiset(w.delivered) + multiset(w.s.buffer)
  }

  lemma FlushHolds(t: State, delivered: seq<Packet>)
    ensures multiset(delivered + ReadyPackets(t)) + multiset(Flushed(t).buffer)
         == multiset(delivered) + multiset(t.buffer)
  {
    FlushedShape(t);
    hide ReadyPackets, Flushed, SortByNum;
    assert t.buffer == ReadyPackets(t) + Flushed(t).buffer;
  }

  lemma EnqueueHolds(s: State, p: Packet)
    requires s.expected <= p.num
    ensures multiset(Enqueued(s, p).buffer) == multiset(s.buffer) + multiset{p}
  {
    SortIsSorted(s.buffer + [p]);
    hide SortByNum, WithNum, Sorted;
  }

  lemma StepHolds(w: World, a: Action)
    ensures Held(Step(w, a)) == Held(w) + multiset(TakenNow(w, a))
  {
    match BeforeFlush(w.s, a)
    case Some(t) =>
      if a.Arrive? && w.s.expected <= a.packet.num {
        EnqueueHolds(w.s, a.packet);
      }
      hide Enqueued, Flushed, ReadyPackets;
      FlushHolds(t, w.delivered);
    case None =>
      assert w.delivered + [] == w.delivered;
  }

  lemma {:induction false} RunHolds(w: World, actions: seq<Action>)
    ensures Held(Exec(w, actions)) == Held(w) + multiset(Taken(w, actions))
    decreases actions
  {
    if actions != [] {
      hide Held, Step, TakenNow;
      StepHolds(w, actions[0]);
      RunHolds(Step(w, actions[0]), actions[1..]);
    }
  }

  /**
   * Conservation over every run: delivered and buffered packets together are, with multiplicity,
   * exactly the arrivals that were not below the expected number when they came.
   */
  lemma EveryArrivalAccounted(actions: seq<Action>)
    ensures var w := Exec(START, actions);
      multiset(w.delivered) + multiset(w.s.buffer) == multiset(Taken(START, actions))
  {
    RunHolds(START, actions);
    assert Held(START) == multiset{};
  }

  // ---------------------------------------------------------------------------
  // Numbers that have been passed
  // ---------------------------------------------------------------------------

  /** The retransmit wait ends in this step, and `num` lies in the gap that is accepted. */
  predicate Skips(w: World, a: Action, num: nat) {
    && a.RetransmitFires? && BeforeFlush(w.s, a).Some?
    && w.s.expected <= num < w.s.buffer[0].num
  }

  predicate SkippedIn(w: World, actions: seq<Action>, num: nat)
    decreases actions
  {
    actions != [] && (Skips(w, actions[0], num) || SkippedIn(Step(w, actions[0]), actions[1..], num))
  }

  ghost predicate HasNum(ps: seq<Packet>, num: nat) {
    exists p :: p in ps && p.num == num
  }

  lemma ConsecutiveNums(out: seq<Packet>, expected: nat, num: nat)
    requires forall i :: 0 <= i < |out| ==> out[i].num == expected + i
    ensures HasNum(out, num) <==> expected <= num < expected + |out|
  {
    if expected <= num < expected + |out| {
      assert out[num - expected] in out;
    }
  }

  lemma HasNumAppend(a: seq<Packet>, b: seq<Packet>, num: nat)
    ensures HasNum(a + b, num) <==> HasNum(a, num) || HasNum(b, num)
  {
    if p :| p in a + b && p.num == num {
      assert p in a || p in b;
    }
    if p :| p in a && p.num == num {
      assert p in a + b;
    }
    if p :| p in b && p.num == num {
      assert p in a + b;
    }
  }

  /** A step passes a number exactly by delivering it or by skipping its gap, not both. */
  lemma StepPasses(w: World, a: Action, num: nat)
    requires Inv(w)
    ensures num < Step(w, a).s.expected <==> num < w.s.expected || HasNum(Delivery(w.s, a), num) || Skips(w, a, num)
    ensures HasNum(Delivery(w.s, a), num) || Skips(w, a, num) ==> w.s.expected <= num
    ensures !(HasNum(Delivery(w.s, a), num) && Skips(w, a, num))
  {
    match BeforeFlush(w.s, a)
    case Some(t) =>
      FlushedShape(t);
      hide Flushed, ReadyPackets, SortByNum, Sorted;
      ConsecutiveNums(ReadyPackets(t), t.expected, num);
    case None =>
  }

  lemma {:induction false} RunPasses(w: World, actions: seq<Action>, num: nat)
    requires Inv(w)
    ensures num < Exec(w, actions).s.expected
       <==> num < w.s.expected || NewlyDelivered(w, actions, num) || SkippedIn(w, actions, num)
    ensures NewlyDelivered(w, actions, num) || SkippedIn(w, actions, num) ==> w.s.expected <= num
    ensures !(NewlyDelivered(w, actions, num) && SkippedIn(w, actions, num))
    decreases actions
  {
    if actions != [] {
      StepInv(w, actions[0]);
      StepPasses(w, actions[0], num);
      hide Inv, Step, Skips, HasNum;
      RunPasses(Step(w, actions[0]), actions[1..], num);
    }
  }

  ghost predicate NewlyDelivered(w: World, actions: seq<Action>, num: nat)
    decreases actions
  {
    actions != [] && (HasNum(Delivery(w.s, actions[0]), num) || NewlyDelivered(Step(w, actions[0]), actions[1..], num))
  }

  lemma {:induction false} DeliveredAlong(w: World, actions: seq<Action>, num: nat)
    ensures HasNum(Exec(w, actions).delivered, num) <==> HasNum(w.delivered, num) || NewlyDelivered(w, actions, num)
    decreases actions
  {
    if actions != [] {
      var a := actions[0];
      HasNumAppend(w.delivered, Delivery(w.s, a), num);
      assert Step(w, a).delivered == w.delivered + Delivery(w.s, a);
      hide Step, HasNum, Delivery;
      DeliveredAlong(Step(w, a), actions[1..], num);
    }
  }

  /**
   * A packet is dropped on arrival if and only if its number has been delivered before or its gap
   * has been skipped before, of which exactly one is the case. So a number that was never
   * delivered is lost only by coming after the wait for it has ended.
   */
  lemma DroppedIffPassed(before: seq<Action>, p: Packet)
    ensures var w := Exec(START, before);
      && (TakenNow(w, Arrive(p)) == [] <==> HasNum(w.delivered, p.num) || SkippedIn(START, before, p.num))
      && !(HasNum(w.delivered, p.num) && SkippedIn(START, before, p.num))
  {
    assert Inv(START) && !HasNum(START.delivered, p.num);
    RunPasses(START, before, p.num);
    DeliveredAlong(START, before, p.num);
  }
}
