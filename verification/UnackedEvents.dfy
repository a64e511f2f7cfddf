/**
 * Events placed on the P2P data channel and not yet acknowledged (`sendEvent`, `#handleAck`,
 * `#handleChannelClose` and `#handleIdleTimeout` of packages/core/p2p-transport.js).
 */
module UnackedEvents {
  import opened Common

  /** `num` is the `seq` of the content (0 if it has none); `None` if the content does not parse. */
  datatype Event = Event(content: string, num: Option<int>)

  datatype Action =
    | Place(event: Event)
    /** An ack frame; one without a number removes every event whose content parses. */
    | Ack(num: Option<int>)
    | ChannelClose
    | IdleTimeout
    | SetStatus(p2p: bool)

  /** Does an ack take the event off the list? */
  predicate Covers(ack: Option<int>, e: Event) {
    e.num.Some? && (ack.Some? ==> e.num.value <= ack.value)
  }

  function Unacked(pending: seq<Event>, ack: Option<int>): seq<Event> {
    if pending == [] then []
    else
      var before, e := Unacked(pending[..|pending| - 1], ack), pending[|pending| - 1];
      if Covers(ack, e) then before else before + [e]
  }

  /** `handed` are the events sent again over Matrix, in order. */
  datatype State = State(pending: seq<Event>, p2p: bool, handed: seq<Event>)

  function Next(s: State, a: Action): State {
    match a
    case Place(e) => s.(pending := s.pending + [e])
    case Ack(num) => s.(pending := Unacked(s.pending, num))
    case ChannelClose =>
      if s.p2p then State([], false, s.handed + s.pending) else s
    case IdleTimeout => State([], false, s.handed + s.pending)
    case SetStatus(p2p) => s.(p2p := p2p)
  }

  // ---------------------------------------------------------------------------
  // Fates
  // ---------------------------------------------------------------------------

  datatype Fate = Pending | Acked(ack: Option<int>) | Handed

  /** A state with the fate of every event ever placed on the channel, in send order. */
  datatype World = World(s: State, sent: seq<Event>, fates: seq<Fate>)

  const START := World(State([], false, []), [], [])

  function Settle(fates: seq<Fate>, fate: Fate): seq<Fate> {
    seq(|fates|, i requires 0 <= i < |fates| => if fates[i] == Pending then fate else fates[i])
  }

  function AckFates(sent: seq<Event>, fates: seq<Fate>, ack: Option<int>): seq<Fate>
    requires |sent| == |fates|
  {
    seq(|fates|, i requires 0 <= i < |fates| =>
      if fates[i] == Pending && Covers(ack, sent[i]) then Acked(ack) else fates[i])
  }

  function Step(w: World, a: Action): World
    requires |w.sent| == |w.fates|
  {
    World(
      Next(w.s, a),
      if a.Place? then w.sent + [a.event] else w.sent,
      match a
      case Place(_) => w.fates + [Pending]
      case Ack(num) => AckFates(w.sent, w.fates, num)
      case ChannelClose => if w.s.p2p then Settle(w.fates, Handed) else w.fates
      case IdleTimeout => Settle(w.fates, Handed)
      case SetStatus(_) => w.fates)
  }

  function Exec(actions: seq<Action>): (w: World)
    ensures |w.sent| == |w.fates|
  {
    if actions == [] then START else Step(Exec(actions[..|actions| - 1]), actions[|actions| - 1])
  }

  /** The events with a given fate, in send order. */
  function Having(sent: seq<Event>, fates: seq<Fate>, fate: Fate): seq<Event>
    requires |sent| == |fates|
  {
    if sent == [] then []
    else
      var n := |sent| - 1;
      var before := Having(sent[..n], fates[..n], fate);
      if fates[n] == fate then before + [sent[n]] else before
  }

  ghost predicate Inv(w: World) {
    && |w.sent| == |w.fates|
    && w.s.pending == Having(w.sent, w.fates, Pending)
    && w.s.handed == Having(w.sent, w.fates, Handed)
    && (forall i, j :: 0 <= i < |w.fates| && 0 <= j < |w.fates| ==>
          w.fates[i] == Handed && w.fates[j] == Pending ==> i < j)
    && (forall i :: 0 <= i < |w.fates| && w.fates[i].Acked? ==> Covers(w.fates[i].ack, w.sent[i]))
  }

  lemma HavingSnoc(sent: seq<Event>, fates: seq<Fate>, e: Event, f: Fate, fate: Fate)
    requires |sent| == |fates|
    ensures Having(sent + [e], fates + [f], fate)
         == if f == fate then Having(sent, fates, fate) + [e] else Having(sent, fates, fate)
  {
    assert (sent + [e])[..|sent|] == sent && (fates + [f])[..|fates|] == fates;
  }

  lemma {:induction false} AckedHaving(sent: seq<Event>, fates: seq<Fate>, ack: Option<int>)
    requires |sent| == |fates|
    ensures Having(sent, AckFates(sent, fates, ack), Pending) == Unacked(Having(sent, fates, Pending), ack)
    ensures Having(sent, AckFates(sent, fates, ack), Handed) == Having(sent, fates, Handed)
  {
    if sent != [] {
      var n := |sent| - 1;
      AckedHaving(sent[..n], fates[..n], ack);
      assert AckFates(sent, fates, ack)[..n] == AckFates(sent[..n], fates[..n], ack);
      var before := Having(sent[..n], fates[..n], Pending);
      if fates[n] == Pending {
        assert (before + [sent[n]])[..|before|] == before;
      }
    }
  }

  /** Handing everything over keeps the send order, because what was handed before is older. */
  lemma {:induction false} SettledHaving(sent: seq<Event>, fates: seq<Fate>)
    requires |sent| == |fates|
    requires forall i, j :: 0 <= i < |fates| && 0 <= j < |fates| && fates[i] == Handed && fates[j] == Pending ==> i < j
    ensures Having(sent, Settle(fates, Handed), Pending) == []
    ensures Having(sent, Settle(fates, Handed), Handed) == Having(sent, fates, Handed) + Having(sent, fates, Pending)
  {
    if sent != [] {
      var n := |sent| - 1;
      SettledHaving(sent[..n], fates[..n]);
      assert Settle(fates, Handed)[..n] == Settle(fates[..n], Handed);
      if fates[n] == Handed {
        NonePending(sent[..n], fates[..n]);
      }
    }
  }

  lemma {:induction false} NonePending(sent: seq<Event>, fates: seq<Fate>)
    requires |sent| == |fates| && forall i :: 0 <= i < |fates| ==> fates[i] != Pending
    ensures Having(sent, fates, Pending) == []
  {
    if sent != [] {
      NonePending(sent[..|sent| - 1], fates[..|fates| - 1]);
    }
  }

  lemma StepInv(w: World, a: Action)
    requires Inv(w)
    ensures Inv(Step(w, a))
  {
    match a
    case Place(e) =>
      HavingSnoc(w.sent, w.fates, e, Pending, Pending);
      HavingSnoc(w.sent, w.fates, e, Pending, Handed);
    case Ack(num) => AckedHaving(w.sent, w.fates, num);
    case ChannelClose => SettledHaving(w.sent, w.fates);
    case IdleTimeout => SettledHaving(w.sent, w.fates);
    case SetStatus(_) =>
  }

  lemma {:induction false} ExecInv(actions: seq<Action>)
    ensures Inv(Exec(actions))
  {
    if actions != [] {
      ExecInv(actions[..|actions| - 1]);
      StepInv(Exec(actions[..|actions| - 1]), actions[|actions| - 1]);
    }
  }

  /**
   * Conservation, in every run until the transport is closed: each event placed on the channel
   * has exactly one fate, and in send order the pending list holds exactly those still pending,
   * the events handed to Matrix are exactly those so marked, each once, and every acknowledged
   * event was covered by its ack.
   */
  lemma EveryEventAccounted(actions: seq<Action>)
    ensures var w := Exec(actions);
      && w.s.pending == Having(w.sent, w.fates, Pending)
      && w.s.handed == Having(w.sent, w.fates, Handed)
      && forall i :: 0 <= i < |w.sent| && w.fates[i].Acked? ==> Covers(w.fates[i].ack, w.sent[i])
  {
    ExecInv(actions);
  }

  /** Keeps exactly the chosen positions, and so the order. */
  lemma {:induction false} UnackedPicks(pending: seq<Event>, ack: Option<int>) returns (ks: seq<nat>)
    ensures Picks(Unacked(pending, ack), pending, ks)
    ensures forall k: nat :: k in ks <==> k < |pending| && !Covers(ack, pending[k])
  {
    ks := [];
    if pending != [] {
      var n := |pending| - 1;
      var init := pending[..n];
      ks := UnackedPicks(init, ack);
      hide Picks, Covers;
      assert init + [pending[n]] == pending;
      if !Covers(ack, pending[n]) {
        PicksSnoc(Unacked(init, ack), init, ks, pending[n]);
        ks := ks + [n];
      } else {
        PicksMore(Unacked(init, ack), init, ks, pending[n]);
      }
    }
  }

  /** What an ack leaves: with a number, exactly the events without one or with a larger one. */
  lemma AckKeeps(pending: seq<Event>, n: int) returns (ks: seq<nat>)
    ensures Picks(Unacked(pending, Some(n)), pending, ks)
    ensures forall k: nat :: k in ks <==> k < |pending| && (pending[k].num.None? || pending[k].num.value > n)
  {
    ks := UnackedPicks(pending, Some(n));
  }

  /** Without a number, exactly the events that have none either. */
  lemma BareAckKeeps(pending: seq<Event>) returns (ks: seq<nat>)
    ensures Picks(Unacked(pending, None), pending, ks)
    ensures forall k: nat :: k in ks <==> k < |pending| && pending[k].num.None?
  {
    ks := UnackedPicks(pending, None);
  }

  /**
   * Over every run: an event acknowledged by `n` has a number up to `n`, and one acknowledged
   * without a number has some number.
   */
  lemma AckedNumbers(actions: seq<Action>, i: nat)
    requires i < |Exec(actions).fates| && Exec(actions).fates[i].Acked?
    ensures Exec(actions).sent[i].num.Some?
    ensures Exec(actions).fates[i].ack.Some? ==> Exec(actions).sent[i].num.value <= Exec(actions).fates[i].ack.value
  {
    ExecInv(actions);
  }

  /**
   * Over every run: of the events pending before an ack of `n`, those without a number or with a
   * larger one are still pending after it, and the others are acknowledged by it.
   */
  lemma AckSettles(before: seq<Action>, n: int, i: nat)
    requires i < |Exec(before).fates| && Exec(before).fates[i] == Pending
    ensures var w := Exec(before + [Ack(Some(n))]);
      && w.sent == Exec(before).sent && i < |w.fates|
      && w.fates[i] == if w.sent[i].num.None? || w.sent[i].num.value > n then Pending else Acked(Some(n))
  {
    assert (before + [Ack(Some(n))])[..|before|] == before;
  }

  /** Is the channel active after the run? Closing and idling end what a status change began. */
  function Active(actions: seq<Action>): bool {
    actions != [] &&
    match actions[|actions| - 1]
    case SetStatus(p2p) => p2p
    case ChannelClose => false
    case IdleTimeout => false
    case Place(_) => Active(actions[..|actions| - 1])
    case Ack(_) => Active(actions[..|actions| - 1])
  }

  lemma {:induction false} StatusIs(actions: seq<Action>)
    ensures Exec(actions).s.p2p == Active(actions)
  {
    if actions != [] {
      StatusIs(actions[..|actions| - 1]);
    }
  }

  /**
   * Over every run: an idle timeout hands over every pending event, and so does the closing of an
   * active channel; the closing of an inactive one leaves them pending. A new event is pending.
   */
  lemma ClosingSettles(before: seq<Action>, i: nat, e: Event)
    requires i < |Exec(before).fates| && Exec(before).fates[i] == Pending
    ensures Exec(before + [IdleTimeout]).fates[i] == Handed
    ensures Exec(before + [ChannelClose]).fates[i] == if Active(before) then Handed else Pending
    ensures Exec(before + [Place(e)]).fates == Exec(before).fates + [Pending]
  {
    StatusIs(before);
    assert (before + [IdleTimeout])[..|before|] == before;
    assert (before + [ChannelClose])[..|before|] == before;
    assert (before + [Place(e)])[..|before|] == before;
  }

  /** Fates are final: once acknowledged or handed over, an event stays so. */
  lemma {:induction false} FatesAreFinal(before: seq<Action>, after: seq<Action>, i: nat)
    requires i < |Exec(before).fates| && Exec(before).fates[i] != Pending
    ensures i < |Exec(before + after).fates| && Exec(before + after).fates[i] == Exec(before).fates[i]
    decreases after
  {
    if after == [] {
      assert before + after == before;
    } else {
      var init := after[..|after| - 1];
      FatesAreFinal(before, init, i);
      assert (before + after)[..|before + after| - 1] == before + init;
    }
  }

  // ---------------------------------------------------------------------------
  // The imperative list
  // ---------------------------------------------------------------------------

  class PendingAcks {
    var pending: seq<Event>
    var p2p: bool
    /** Events passed to the Matrix client's `sendEvent` again. */
    var matrix: seq<Event>

    function Model(): State
      reads this
    {
      State(pending, p2p, matrix)
    }

    constructor ()
      ensures Model() == START.s
    {
      pending, p2p, matrix := [], false, [];
    }

    method SentOnChannel(e: Event)
      modifies this`pending
      ensures Model() == Next(old(Model()), Place(e))
    {
      pending := pending + [e];
    }

    method HandleAck(num: Option<int>)
      modifies this`pending
      ensures Model() == Next(old(Model()), Ack(num))
    {
      var kept: seq<Event> := [];
      for k := 0 to |pending|
        invariant pending == old(pending) && kept == Unacked(pending[..k], num)
      {
        assert pending[..k + 1][..k] == pending[..k];
        if pending[k].num.None? || (num.Some? && pending[k].num.value > num.value) {
          kept := kept + [pending[k]];
        }
      }
      assert pending[..|pending|] == pending;
      pending := kept;
    }

    method HandleChannelClose()
      modifies this
      ensures Model() == Next(old(Model()), ChannelClose)
    {
      var wasP2P := p2p;
      p2p := false;
      if wasP2P {
        Requeue();
      }
    }

    method HandleIdleTimeout()
      modifies this
      ensures Model() == Next(old(Model()), IdleTimeout)
    {
      p2p := false;
      Requeue();
    }

    method Requeue()
      modifies this`pending, this`matrix
      ensures pending == [] && matrix == old(matrix) + old(pending)
    {
      var toRequeue := pending;
      pending := [];
      for k := 0 to |toRequeue|
        invariant pending == [] && matrix == old(matrix) + toRequeue[..k]
      {
        matrix := matrix + [toRequeue[k]];
        assert toRequeue[..k + 1] == toRequeue[..k] + [toRequeue[k]];
      }
      assert toRequeue[..|toRequeue|] == toRequeue;
    }
  }
}
