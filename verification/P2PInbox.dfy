/**
 * The inbox of the P2P transport and the polls waiting on it (`onRoomEvent`, `#waitForInbox` and
 * `#handleEncryptedFrame` of packages/core/p2p-transport.js): one first-in-first-out queue per
 * event type, whatever the mix of polls, timeouts, arrivals and closing.
 */
module P2PInbox {
  type Kind = string
  type Message = string

  /** Queued messages and waiting polls, by event type. */
  datatype State = State(inbox: map<Kind, seq<Message>>, waiters: map<Kind, seq<nat>>)

  function Get<T>(m: map<Kind, seq<T>>, kind: Kind): seq<T> {
    if kind in m then m[kind] else []
  }

  datatype Action =
    /** A frame of a verified peer has been decrypted. */
    | Arrive(kind: Kind, message: Message)
    /** A poll; `waits` says that the channel is active and the timeout positive. */
    | Poll(kind: Kind, id: nat, waits: bool)
    | Timeout(kind: Kind, id: nat)
    | Close

  /** A poll that got a message: its id, the event type and the message. */
  datatype Delivery = Delivery(id: nat, kind: Kind, message: Message)

  function WithoutFirst(ids: seq<nat>, id: nat): seq<nat> {
    if ids == [] then []
    else if ids[0] == id then ids[1..]
    else [ids[0]] + WithoutFirst(ids[1..], id)
  }

  function Next(s: State, a: Action): State {
    match a
    case Arrive(kind, message) =>
      var queue := Get(s.inbox, kind) + [message];
      var waiting := Get(s.waiters, kind);
      if waiting != []
      then State(s.inbox[kind := queue[1..]], s.waiters[kind := waiting[1..]])
      else s.(inbox := s.inbox[kind := queue])
    case Poll(kind, id, waits) =>
      if Get(s.inbox, kind) != [] then s.(inbox := s.inbox[kind := s.inbox[kind][1..]])
      else if waits then s.(waiters := s.waiters[kind := Get(s.waiters, kind) + [id]])
      else s
    case Timeout(kind, id) =>
      if kind in s.waiters then s.(waiters := s.waiters[kind := WithoutFirst(s.waiters[kind], id)]) else s
    case Close => s.(waiters := map[])
  }

  function Delivered(s: State, a: Action): seq<Delivery> {
    match a
    case Arrive(kind, message) =>
      var waiting := Get(s.waiters, kind);
      if waiting != [] then [Delivery(waiting[0], kind, (Get(s.inbox, kind) + [message])[0])] else []
    case Poll(kind, id, waits) =>
      if Get(s.inbox, kind) != [] then [Delivery(id, kind, s.inbox[kind][0])] else []
    case Timeout(_, _) => []
    case Close => []
  }

  datatype World = World(s: State, arrivals: seq<Action>, deliveries: seq<Delivery>)

  const START := World(State(map[], map[]), [], [])

  function Step(w: World, a: Action): World {
    World(Next(w.s, a),
          if a.Arrive? then w.arrivals + [a] else w.arrivals,
          w.deliveries + Delivered(w.s, a))
  }

  function Exec(actions: seq<Action>): World {
    if actions == [] then START else Step(Exec(actions[..|actions| - 1]), actions[|actions| - 1])
  }

  /** The messages of one type that arrived, in order. */
  function ArrivedOf(arrivals: seq<Action>, kind: Kind): seq<Message> {
    if arrivals == [] then []
    else
      var before, a := ArrivedOf(arrivals[..|arrivals| - 1], kind), arrivals[|arrivals| - 1];
      if a.Arrive? && a.kind == kind then before + [a.message] else before
  }

  /** The messages of one type that were delivered, in order. */
  function DeliveredOf(deliveries: seq<Delivery>, kind: Kind): seq<Message> {
    if deliveries == [] then []
    else
      var before, d := DeliveredOf(deliveries[..|deliveries| - 1], kind), deliveries[|deliveries| - 1];
      if d.kind == kind then before + [d.message] else before
  }

  ghost predicate Inv(w: World, kind: Kind) {
    && (Get(w.s.inbox, kind) == [] || Get(w.s.waiters, kind) == [])
    && DeliveredOf(w.deliveries, kind) + Get(w.s.inbox, kind) == ArrivedOf(w.arrivals, kind)
  }

  lemma DeliveredSnoc(deliveries: seq<Delivery>, d: Delivery, kind: Kind)
    ensures DeliveredOf(deliveries + [d], kind)
         == if d.kind == kind then DeliveredOf(deliveries, kind) + [d.message] else DeliveredOf(deliveries, kind)
  {
    assert (deliveries + [d])[..|deliveries|] == deliveries;
  }

  lemma ArrivedSnoc(arrivals: seq<Action>, a: Action, kind: Kind)
    requires a.Arrive?
    ensures ArrivedOf(arrivals + [a], kind)
         == if a.kind == kind then ArrivedOf(arrivals, kind) + [a.message] else ArrivedOf(arrivals, kind)
  {
    assert (arrivals + [a])[..|arrivals|] == arrivals;
  }

  /** The queue of the arriving message's own type. */
  lemma ArriveSameKind(w: World, kind: Kind, message: Message)
    requires Inv(w, kind)
    ensures Inv(Step(w, Arrive(kind, message)), kind)
  {
    hide DeliveredOf, ArrivedOf;
    ArrivedSnoc(w.arrivals, Arrive(kind, message), kind);
    var waiting := Get(w.s.waiters, kind);
    var d, q := DeliveredOf(w.deliveries, kind), Get(w.s.inbox, kind);
    if waiting == [] {
      assert w.deliveries + [] == w.deliveries;
      assert d + (q + [message]) == (d + q) + [message];
    } else {
      assert q == [] && d + q == d;
      assert q + [message] == [message];
      DeliveredSnoc(w.deliveries, Delivery(waiting[0], kind, message), kind);
      assert (d + [message]) + [] == d + [message];
    }
  }

  /** The queues of all the other types. */
  lemma ArriveOtherKind(w: World, a: Action, kind: Kind)
    requires Inv(w, kind) && a.Arrive? && a.kind != kind
    ensures Inv(Step(w, a), kind)
  {
    hide DeliveredOf, ArrivedOf;
    ArrivedSnoc(w.arrivals, a, kind);
    var waiting := Get(w.s.waiters, a.kind);
    if waiting == [] {
      assert w.deliveries + [] == w.deliveries;
    } else {
      DeliveredSnoc(w.deliveries, Delivered(w.s, a)[0], kind);
    }
  }

  lemma PollInv(w: World, a: Action, kind: Kind)
    requires Inv(w, kind) && a.Poll?
    ensures Inv(Step(w, a), kind)
  {
    var q := Get(w.s.inbox, a.kind);
    if q != [] {
      DeliveredSnoc(w.deliveries, Delivery(a.id, a.kind, q[0]), kind);
      if a.kind == kind {
        assert DeliveredOf(w.deliveries, kind) + q == (DeliveredOf(w.deliveries, kind) + [q[0]]) + q[1..];
      }
    } else {
      assert w.deliveries + [] == w.deliveries;
    }
  }

  lemma StepInv(w: World, a: Action, kind: Kind)
    requires Inv(w, kind)
    ensures Inv(Step(w, a), kind)
  {
    match a
    case Arrive(k, message) =>
      if k == kind {
        ArriveSameKind(w, kind, message);
      } else {
        ArriveOtherKind(w, a, kind);
      }
    case Poll(_, _, _) => PollInv(w, a, kind);
    case Timeout(_, _) =>
      assert w.deliveries + [] == w.deliveries;
    case Close =>
      assert w.deliveries + [] == w.deliveries;
  }

  /**
   * Every run, every event type: no type has both queued messages and waiting polls, and the
   * delivered messages followed by the inbox are exactly the decrypted messages, in order.
   */
  lemma {:induction false} OneQueuePerType(actions: seq<Action>)
    ensures forall kind :: Inv(Exec(actions), kind)
  {
    if actions != [] {
      var init, last := actions[..|actions| - 1], actions[|actions| - 1];
      OneQueuePerType(init);
      forall kind ensures Inv(Exec(actions), kind) {
        StepInv(Exec(init), last, kind);
      }
    }
  }

  /** In particular a message is never lost, repeated or overtaken by another of its type. */
  lemma DeliveredInOrder(actions: seq<Action>, kind: Kind)
    ensures var w := Exec(actions);
      && DeliveredOf(w.deliveries, kind) <= ArrivedOf(w.arrivals, kind)
      && (Get(w.s.waiters, kind) != [] ==> DeliveredOf(w.deliveries, kind) == ArrivedOf(w.arrivals, kind))
  {
    OneQueuePerType(actions);
    assert Inv(Exec(actions), kind);
  }

  // ---------------------------------------------------------------------------
  // The imperative inbox
  // ---------------------------------------------------------------------------

  class Inbox {
    var p2pInbox: map<Kind, seq<Message>>
    var inboxWaiters: map<Kind, seq<nat>>
    /** The promises resolved with a message. */
    var resolved: seq<Delivery>

    function Model(): State
      reads this
    {
      State(p2pInbox, inboxWaiters)
    }

    constructor ()
      ensures Model() == START.s && resolved == []
    {
      p2pInbox, inboxWaiters, resolved := map[], map[], [];
    }

    method OnMessage(kind: Kind, message: Message)
      modifies this
      ensures Model() == Next(old(Model()), Arrive(kind, message))
      ensures resolved == old(resolved) + Delivered(old(Model()), Arrive(kind, message))
    {
      if kind !in p2pInbox {
        p2pInbox := p2pInbox[kind := []];
      }
      p2pInbox := p2pInbox[kind := p2pInbox[kind] + [message]];
      if kind in inboxWaiters && |inboxWaiters[kind]| > 0 {
        var waiter := inboxWaiters[kind][0];
        inboxWaiters := inboxWaiters[kind := inboxWaiters[kind][1..]];
        resolved := resolved + [Delivery(waiter, kind, p2pInbox[kind][0])];
        p2pInbox := p2pInbox[kind := p2pInbox[kind][1..]];
      }
    }

    method OnPoll(kind: Kind, id: nat, waits: bool)
      modifies this
      ensures Model() == Next(old(Model()), Poll(kind, id, waits))
      ensures resolved == old(resolved) + Delivered(old(Model()), Poll(kind, id, waits))
    {
      if kind in p2pInbox && |p2pInbox[kind]| > 0 {
        resolved := resolved + [Delivery(id, kind, p2pInbox[kind][0])];
        p2pInbox := p2pInbox[kind := p2pInbox[kind][1..]];
        return;
      }
      if waits {
        if kind !in inboxWaiters {
          inboxWaiters := inboxWaiters[kind := []];
        }
        inboxWaiters := inboxWaiters[kind := inboxWaiters[kind] + [id]];
      }
    }

    /** Finds the waiter and splices it out. */
    method OnTimeout(kind: Kind, id: nat)
      modifies this`inboxWaiters
      ensures Model() == Next(old(Model()), Timeout(kind, id))
    {
      if kind in inboxWaiters {
        var ids := inboxWaiters[kind];
        var k := 0;
        while k < |ids| && ids[k] != id
          invariant k <= |ids|
          invariant ids[..k] + WithoutFirst(ids[k..], id) == WithoutFirst(ids, id)
        {
          assert ids[k..][1..] == ids[k + 1..] && ids[..k + 1] == ids[..k] + [ids[k]];
          k := k + 1;
        }
        if k < |ids| {
          assert ids[k..][1..] == ids[k + 1..];
          inboxWaiters := inboxWaiters[kind := ids[..k] + ids[k + 1..]];
        } else {
          assert ids[k..] == [] && ids[..k] == ids;
          assert WithoutFirst(ids[k..], id) == [] && ids + [] == ids;
          assert inboxWaiters[kind := ids] == inboxWaiters;
        }
      }
    }

    method OnClose()
      modifies this`inboxWaiters
      ensures Model() == Next(old(Model()), Action.Close)
    {
      inboxWaiters := map[];
    }
  }
}
