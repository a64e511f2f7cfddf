/**
 * The reordering receiver (packages/core/terminal-socket.js; the receive half of
 * client/mxdx-client/src/terminal.ts is the same algorithm).
 *
 * The two timers are steps that may fire at any time while pending. Packets may
 * arrive in any order, more than once, and even after `close`.
 */
module TerminalSocket {
  import opened Common

  datatype State = State(
    expected: nat,
    buffer: seq<Packet>,
    gapTimer: bool,
    retransmitTimer: bool,
    closed: bool
  )

  datatype Action =
    | Arrive(packet: Packet)
    | GapFires
    | RetransmitFires
    | Close

  /** A request for the numbers `from..to`, both included. */
  datatype Request = Request(from: nat, to: int)

  const INITIAL := State(0, [], false, false, false)

  // ---------------------------------------------------------------------------
  // Sorting
  // ---------------------------------------------------------------------------

  ghost predicate Sorted(ps: seq<Packet>) {
    forall i, j :: 0 <= i < j < |ps| ==> ps[i].num <= ps[j].num
  }

  /** Places `p` after every packet whose number is not larger. */
  function Insert(ps: seq<Packet>, p: Packet): seq<Packet> {
    if ps == [] || ps[|ps| - 1].num <= p.num then ps + [p]
    else Insert(ps[..|ps| - 1], p) + [ps[|ps| - 1]]
  }

  /** The stable sort by number that `Array.prototype.sort` performs. */
  function SortByNum(ps: seq<Packet>): seq<Packet> {
    if ps == [] then [] else Insert(SortByNum(ps[..|ps| - 1]), ps[|ps| - 1])
  }

  lemma {:induction false} InsertContents(ps: seq<Packet>, p: Packet)
    ensures multiset(Insert(ps, p)) == multiset(ps) + multiset{p}
  {
    if ps != [] && p.num < ps[|ps| - 1].num {
      var init, last := ps[..|ps| - 1], ps[|ps| - 1];
      assert ps == init + [last];
      InsertContents(init, p);
    }
  }

  lemma InsertMembers(ps: seq<Packet>, p: Packet)
    ensures |Insert(ps, p)| == |ps| + 1
    ensures forall x :: x in Insert(ps, p) <==> x in ps || x == p
  {
    InsertContents(ps, p);
    assert |multiset(Insert(ps, p))| == |Insert(ps, p)|;
    forall x ensures x in Insert(ps, p) <==> x in ps || x == p {
      assert x in multiset(Insert(ps, p)) <==> x in multiset(ps) + multiset{p};
    }
  }

  lemma {:induction false} InsertSorted(ps: seq<Packet>, p: Packet)
    requires Sorted(ps)
    ensures Sorted(Insert(ps, p))
  {
    if ps != [] && p.num < ps[|ps| - 1].num {
      var init, last := ps[..|ps| - 1], ps[|ps| - 1];
      InsertSorted(init, p);
      InsertMembers(init, p);
      var r := Insert(init, p);
      forall i | 0 <= i < |r| ensures r[i].num <= last.num {
        assert r[i] in r;
      }
    }
  }

  lemma {:induction false} InsertHead(ps: seq<Packet>, p: Packet)
    requires Sorted(ps)
    ensures Insert(ps, p) != []
    ensures Insert(ps, p)[0] == if ps == [] || p.num < ps[0].num then p else ps[0]
  {
    if ps != [] && p.num < ps[|ps| - 1].num {
      InsertHead(ps[..|ps| - 1], p);
    }
  }

  /** Sorting is a stable permutation: packets with equal numbers keep their order. */
  lemma {:induction false} SortIsSorted(ps: seq<Packet>)
    ensures Sorted(SortByNum(ps))
    ensures multiset(SortByNum(ps)) == multiset(ps)
    ensures forall num :: WithNum(SortByNum(ps), num) == WithNum(ps, num)
  {
    if ps != [] {
      var init, last := ps[..|ps| - 1], ps[|ps| - 1];
      assert ps == init + [last];
      SortIsSorted(init);
      InsertSorted(SortByNum(init), last);
      InsertContents(SortByNum(init), last);
      hide WithNum;
      forall num ensures WithNum(SortByNum(ps), num) == WithNum(ps, num) {
        InsertStable(SortByNum(init), last, num);
        WithNumSnoc(init, last, num);
      }
    }
  }

  function WithNum(ps: seq<Packet>, num: nat): seq<Packet> {
    if ps == [] then [] else Joined(WithNum(ps[..|ps| - 1], num), ps[|ps| - 1], num)
  }

  function Joined(ps: seq<Packet>, p: Packet, num: nat): seq<Packet> {
    if p.num == num then ps + [p] else ps
  }

  lemma WithNumSnoc(ps: seq<Packet>, p: Packet, num: nat)
    ensures WithNum(ps + [p], num) == Joined(WithNum(ps, num), p, num)
  {
    hide Joined;
    assert (ps + [p])[..|ps|] == ps;
  }

  lemma {:induction false} InsertStable(ps: seq<Packet>, p: Packet, num: nat)
    requires Sorted(ps)
    ensures WithNum(Insert(ps, p), num) == Joined(WithNum(ps, num), p, num)
  {
    hide WithNum;
    if ps == [] || ps[|ps| - 1].num <= p.num {
      WithNumSnoc(ps, p, num);
    } else {
      var init, last := ps[..|ps| - 1], ps[|ps| - 1];
      assert init + [last] == ps;
      InsertStable(init, p, num);
      WithNumSnoc(Insert(init, p), last, num);
      WithNumSnoc(init, last, num);
    }
  }

  lemma {:induction false} SortOfSorted(ps: seq<Packet>)
    requires Sorted(ps)
    ensures SortByNum(ps) == ps
  {
    if ps != [] {
      var init := ps[..|ps| - 1];
      assert ps == init + [ps[|ps| - 1]];
      SortOfSorted(init);
    }
  }

  /** On a sorted buffer, push-then-sort inserts. */
  lemma SortAppended(ps: seq<Packet>, p: Packet)
    requires Sorted(ps)
    ensures SortByNum(ps + [p]) == Insert(ps, p)
  {
    assert (ps + [p])[..|ps|] == ps;
    SortOfSorted(ps);
  }

  /** What `#enqueue` does to the buffer. */
  lemma SortPushed(ps: seq<Packet>, p: Packet)
    requires Sorted(ps)
    ensures var r := SortByNum(ps + [p]);
      && Sorted(r)
      && (forall x :: x in r <==> x in ps || x == p)
      && r != []
      && r[0] == if ps == [] || p.num < ps[0].num then p else ps[0]
  {
    SortAppended(ps, p);
    InsertSorted(ps, p);
    InsertMembers(ps, p);
    InsertHead(ps, p);
  }

  // ---------------------------------------------------------------------------
  // Steps
  // ---------------------------------------------------------------------------

  /** How many packets at the front carry consecutive numbers from `expected` on. */
  function ReadyCount(expected: nat, buffer: seq<Packet>): (n: nat)
    ensures n <= |buffer|
    decreases buffer
  {
    if buffer != [] && buffer[0].num == expected then ReadyCount(expected + 1, buffer[1..]) + 1 else 0
  }

  lemma {:induction false} ReadyCountSpec(expected: nat, buffer: seq<Packet>)
    ensures var n := ReadyCount(expected, buffer);
      && (forall i :: 0 <= i < n ==> buffer[i].num == expected + i)
      && (n < |buffer| ==> buffer[n].num != expected + n)
    decreases buffer
  {
    if buffer != [] && buffer[0].num == expected {
      var rest := buffer[1..];
      ReadyCountSpec(expected + 1, rest);
      var n := ReadyCount(expected, buffer);
      assert n < |buffer| ==> buffer[n] == rest[n - 1];
      forall i | 0 <= i < n ensures buffer[i].num == expected + i {
        assert i > 0 ==> buffer[i] == rest[i - 1];
      }
    }
  }

  function ReadyPackets(s: State): seq<Packet> {
    s.buffer[..ReadyCount(s.expected, s.buffer)]
  }

  /** `#flush`: deliver what is ready, then start the gap timer if a gap remains. */
  function Flushed(s: State): State {
    var n := ReadyCount(s.expected, s.buffer);
    var gap := s.gapTimer && n == 0;
    var retransmit := s.retransmitTimer && n == 0;
    var s := s.(expected := s.expected + n, buffer := s.buffer[n..], gapTimer := gap, retransmitTimer := retransmit);
    s.(gapTimer := gap || (s.buffer != [] && s.buffer[0].num > s.expected && !retransmit))
  }

  function Enqueued(s: State, p: Packet): State {
    if p.num < s.expected then s else s.(buffer := SortByNum(s.buffer + [p]))
  }

  /** The state in which the step's final `#flush` (if any) runs. */
  function BeforeFlush(s: State, a: Action): Option<State> {
    match a
    case Arrive(p) => Some(Enqueued(s, p))
    case GapFires =>
      if !s.gapTimer || s.closed || s.buffer == [] || s.buffer[0].num > s.expected then None
      else Some(s.(gapTimer := false))
    case RetransmitFires =>
      if !s.retransmitTimer || s.closed || s.buffer == [] then None
      else Some(s.(retransmitTimer := false, expected := s.buffer[0].num))
    case Close => None
  }

  function Next(s: State, a: Action): State {
    match BeforeFlush(s, a)
    case Some(t) => Flushed(t)
    case None =>
      match a
      case Arrive(_) => s
      case GapFires =>
        if !s.gapTimer then s
        else s.(gapTimer := false, retransmitTimer := s.retransmitTimer || (!s.closed && s.buffer != []))
      case RetransmitFires => s.(retransmitTimer := false)
      case Close => if s.closed then s else s.(closed := true, gapTimer := false, retransmitTimer := false)
  }

  function Delivery(s: State, a: Action): seq<Packet> {
    match BeforeFlush(s, a)
    case Some(t) => ReadyPackets(t)
    case None => []
  }

  function RequestOf(s: State, a: Action): seq<Request> {
    if a.GapFires? && s.gapTimer && !s.closed && s.buffer != [] && s.buffer[0].num > s.expected
    then [Request(s.expected, s.buffer[0].num - 1)] else []
  }

  // ---------------------------------------------------------------------------
  // Runs
  // ---------------------------------------------------------------------------

  datatype World = World(s: State, arrived: seq<Packet>, delivered: seq<Packet>, requests: seq<Request>)

  const START := World(INITIAL, [], [], [])

  function Step(w: World, a: Action): World {
    World(
      Next(w.s, a),
      if a.Arrive? then w.arrived + [a.packet] else w.arrived,
      w.delivered + Delivery(w.s, a),
      w.requests + RequestOf(w.s, a))
  }

  function Exec(w: World, actions: seq<Action>): World
    decreases actions
  {
    if actions == [] then w else Exec(Step(w, actions[0]), actions[1..])
  }

  /** A packet that was buffered twice and whose first copy has gone: nothing can remove it. */
  predicate Stale(s: State) {
    s.buffer != [] && s.buffer[0].num < s.expected
  }

  ghost predicate Inv(w: World) {
    var s := w.s;
    && Sorted(s.buffer)
    && StrictlyIncreasing(w.delivered)
    && (forall p :: p in w.delivered ==> p.num < s.expected && p in w.arrived)
    && (forall p :: p in s.buffer ==> p in w.arrived)
    && (s.buffer != [] ==> s.buffer[0].num != s.expected)
    && !(s.gapTimer && s.retransmitTimer)
    && (s.gapTimer || s.retransmitTimer ==> s.buffer != [] && !Stale(s))
    && (!s.closed && s.buffer != [] && !Stale(s) ==> s.gapTimer || s.retransmitTimer)
  }

  /** What `Flushed` needs of the state it starts from. */
  ghost predicate Flushable(t: State, arrived: seq<Packet>, delivered: seq<Packet>) {
    && Sorted(t.buffer)
    && StrictlyIncreasing(delivered)
    && (forall p :: p in delivered ==> p.num < t.expected && p in arrived)
    && (forall p :: p in t.buffer ==> p in arrived)
    && !(t.gapTimer && t.retransmitTimer)
    && (t.gapTimer || t.retransmitTimer ==> t.buffer != [] && !Stale(t))
  }

  /** `s` is what a flush leaves of `t` after delivering `out`. */
  ghost predicate Flushes(t: State, out: seq<Packet>, s: State) {
    && t.buffer == out + s.buffer
    && s.expected == t.expected + |out|
    && s.closed == t.closed
    && (forall i :: 0 <= i < |out| ==> out[i].num == t.expected + i)
    && (s.buffer != [] ==> s.buffer[0].num != s.expected)
    && (out == [] <==> t.buffer == [] || t.buffer[0].num != t.expected)
    && s.retransmitTimer == (t.retransmitTimer && out == [])
    && (s.gapTimer <==>
          || (t.gapTimer && out == [])
          || (s.buffer != [] && s.buffer[0].num > s.expected && !s.retransmitTimer))
  }

  lemma FlushedShape(t: State)
    ensures Flushes(t, ReadyPackets(t), Flushed(t))
  {
    ReadyCountSpec(t.expected, t.buffer);
  }

  lemma ConsecutiveIncreases(delivered: seq<Packet>, out: seq<Packet>, expected: nat)
    requires StrictlyIncreasing(delivered)
    requires forall p :: p in delivered ==> p.num < expected
    requires forall i :: 0 <= i < |out| ==> out[i].num == expected + i
    ensures StrictlyIncreasing(delivered + out)
  {
    var all := delivered + out;
    forall i, j | 0 <= i < j < |all| ensures all[i].num < all[j].num {
      if i < |delivered| {
        assert delivered[i] in delivered;
      }
    }
  }

  lemma SortedSuffix(a: seq<Packet>, b: seq<Packet>)
    requires Sorted(a + b)
    ensures Sorted(b)
  {
    forall i, j | 0 <= i < j < |b| ensures b[i].num <= b[j].num {
      assert (a + b)[|a| + i] == b[i] && (a + b)[|a| + j] == b[j];
    }
  }

  lemma FlushesInv(
    t: State, out: seq<Packet>, s: State, arrived: seq<Packet>, delivered: seq<Packet>, requests: seq<Request>)
    requires Flushable(t, arrived, delivered) && Flushes(t, out, s)
    ensures Inv(World(s, arrived, delivered + out, requests))
  {
    ConsecutiveIncreases(delivered, out, t.expected);
    SortedSuffix(out, s.buffer);
    forall p | p in s.buffer ensures p in arrived {
      assert p in t.buffer;
    }
    forall p | p in delivered + out ensures p.num < s.expected && p in arrived {
      assert p in out ==> p in t.buffer;
    }
  }

  lemma FlushedInv(t: State, arrived: seq<Packet>, delivered: seq<Packet>, requests: seq<Request>)
    requires Flushable(t, arrived, delivered)
    ensures Inv(World(Flushed(t), arrived, delivered + ReadyPackets(t), requests))
    ensures Flushed(t).expected >= t.expected
  {
    FlushedShape(t);
    FlushesInv(t, ReadyPackets(t), Flushed(t), arrived, delivered, requests);
  }

  lemma EnqueuedFlushable(w: World, p: Packet)
    requires Inv(w)
    ensures Flushable(Enqueued(w.s, p), w.arrived + [p], w.delivered)
  {
    if p.num >= w.s.expected {
      SortPushed(w.s.buffer, p);
    }
  }

  lemma StepInv(w: World, a: Action)
    requires Inv(w)
    ensures Inv(Step(w, a))
    ensures Step(w, a).s.expected >= w.s.expected
  {
    match BeforeFlush(w.s, a)
    case Some(t) =>
      if a.Arrive? {
        EnqueuedFlushable(w, a.packet);
      }
      FlushedInv(t, Step(w, a).arrived, w.delivered, Step(w, a).requests);
    case None =>
      assert w.delivered + [] == w.delivered;
  }

  lemma {:induction false} ExecInv(w: World, actions: seq<Action>)
    requires Inv(w)
    ensures Inv(Exec(w, actions))
    ensures Exec(w, actions).s.expected >= w.s.expected
    ensures w.delivered <= Exec(w, actions).delivered
    decreases actions
  {
    if actions != [] {
      StepInv(w, actions[0]);
      ExecInv(Step(w, actions[0]), actions[1..]);
    }
  }

  /**
   * Safety over every run, with duplicates, any arrival order and any timer schedule:
   * the expected number never decreases along the run, every delivered packet had arrived,
   * and delivered numbers strictly increase, so none is delivered twice.
   */
  lemma Safety(before: seq<Action>, after: seq<Action>)
    ensures var w, w' := Exec(START, before), Exec(START, before + after);
      && w.s.expected <= w'.s.expected
      && w.delivered <= w'.delivered
      && StrictlyIncreasing(w'.delivered)
      && forall p :: p in w'.delivered ==> p in w'.arrived && p.num < w'.s.expected
  {
    ExecInv(START, before);
    ExecInv(START, before + after);
    ExecAppend(START, before, after);
    ExecInv(Exec(START, before), after);
  }

  lemma {:induction false} ExecAppend(w: World, a: seq<Action>, b: seq<Action>)
    ensures Exec(w, a + b) == Exec(Exec(w, a), b)
    decreases a
  {
    if a == [] {
      assert a + b == b;
    } else {
      assert (a + b)[0] == a[0] && (a + b)[1..] == a[1..] + b;
      ExecAppend(Step(w, a[0]), a[1..], b);
    }
  }

  /**
   * Timers in every reachable open state: at most one is pending, and one is pending
   * exactly when the buffer holds a packet beyond the expected number.
   */
  lemma OneTimerPerGap(actions: seq<Action>)
    ensures var s := Exec(START, actions).s;
      && !(s.gapTimer && s.retransmitTimer)
      && (!s.closed ==> (s.gapTimer || s.retransmitTimer <==> s.buffer != [] && s.expected < s.buffer[0].num))
  {
    ExecInv(START, actions);
  }

  /** Every retransmit request names a non-empty range that holds no buffered number. */
  lemma RequestsAreGaps(actions: seq<Action>, a: Action)
    ensures var w := Exec(START, actions);
      forall r :: r in RequestOf(w.s, a) ==>
        && r.from == w.s.expected && r.from <= r.to
        && forall p :: p in w.s.buffer ==> !(r.from <= p.num <= r.to)
  {
    var w := Exec(START, actions);
    ExecInv(START, actions);
    forall r, p | r in RequestOf(w.s, a) && p in w.s.buffer ensures !(r.from <= p.num <= r.to) {
      var i :| 0 <= i < |w.s.buffer| && w.s.buffer[i] == p;
    }
  }

  // ---------------------------------------------------------------------------
  // Progress, and the stall
  // ---------------------------------------------------------------------------

  lemma StartsClean()
    ensures Inv(START)
  {
  }

  /** Does a firing of the gap timer send a request? */
  predicate Asks(s: State, a: Action) {
    a.GapFires? && s.gapTimer && !s.closed
  }

  lemma GapFiring(s: State, a: Action)
    requires s.gapTimer ==> s.buffer != [] && s.expected < s.buffer[0].num
    ensures Asks(s, a) ==> RequestOf(s, a) == [Request(s.expected, s.buffer[0].num - 1)]
    ensures !Asks(s, a) ==> RequestOf(s, a) == []
    ensures s.gapTimer && !s.closed && !s.retransmitTimer ==>
      Next(s, GapFires) == s.(gapTimer := false, retransmitTimer := true)
    ensures s.gapTimer && s.closed ==> Next(s, GapFires) == s.(gapTimer := false)
  {
    hide SortByNum, Flushed;
  }

  /**
   * In every reachable state a pending gap timer asks for exactly the missing numbers, once, and
   * starts the retransmit wait, unless the socket has been closed; nothing else sends a request.
   */
  lemma GapTimerAsksForTheGap(actions: seq<Action>, a: Action)
    ensures var s := Exec(START, actions).s;
      && (s.gapTimer ==> s.buffer != [] && s.expected < s.buffer[0].num)
      && (Asks(s, a) ==> RequestOf(s, a) == [Request(s.expected, s.buffer[0].num - 1)])
      && (!Asks(s, a) ==> RequestOf(s, a) == [])
      && (s.gapTimer && !s.closed ==> Next(s, GapFires) == s.(gapTimer := false, retransmitTimer := true))
      && (s.gapTimer && s.closed ==> Next(s, GapFires) == s.(gapTimer := false))
  {
    hide Exec, Next, RequestOf, Sorted, StrictlyIncreasing;
    var w := Exec(START, actions);
    assert Inv(START) by {
      StartsClean();
    }
    ExecInv(START, actions);
    assert w.s.gapTimer ==> w.s.buffer != [] && w.s.expected < w.s.buffer[0].num && !w.s.retransmitTimer;
    hide Inv;
    GapFiring(w.s, a);
  }

  /** Closing clears both timers and changes nothing else; timers that fire later do nothing more. */
  lemma ClosingStopsTimers(s: State, a: Action)
    requires a == GapFires || a == RetransmitFires
    ensures Next(s, Close) == if s.closed then s else s.(closed := true, gapTimer := false, retransmitTimer := false)
    ensures s.closed ==>
      && Delivery(s, a) == [] && RequestOf(s, a) == []
      && Next(s, a).expected == s.expected && Next(s, a).buffer == s.buffer && Next(s, a).closed
  {
    hide SortByNum, ReadyCount;
  }

  /** Packets that arrive after closing are enqueued and delivered as before. */
  lemma ArrivalsIgnoreClosing(s: State, p: Packet)
    ensures Delivery(s.(closed := true), Arrive(p)) == Delivery(s.(closed := false), Arrive(p))
    ensures Next(s.(closed := true), Arrive(p)) == Next(s.(closed := false), Arrive(p)).(closed := true)
  {
    hide SortByNum, ReadyCount;
  }

  /** Fires whichever timer is pending. */
  function Fire(w: World): World {
    if w.s.gapTimer then Step(w, GapFires)
    else if w.s.retransmitTimer then Step(w, RetransmitFires)
    else w
  }

  function FireTimes(w: World, n: nat): World
    decreases n
  {
    if n == 0 then w else FireTimes(Fire(w), n - 1)
  }

  /** The number of holes in the numbering of `buffer`, seen from `expected`. */
  function Gaps(expected: nat, buffer: seq<Packet>): nat
    decreases buffer
  {
    if buffer == [] then 0
    else (if buffer[0].num == expected then 0 else 1) + Gaps(buffer[0].num + 1, buffer[1..])
  }

  lemma {:induction false} GapsReady(expected: nat, buffer: seq<Packet>)
    ensures var n := ReadyCount(expected, buffer);
      Gaps(expected, buffer) == Gaps(expected + n, buffer[n..])
    decreases buffer
  {
    var n := ReadyCount(expected, buffer);
    if n > 0 {
      GapsReady(expected + 1, buffer[1..]);
      assert buffer[1..][n - 1..] == buffer[n..];
    }
  }

  lemma FireInv(w: World)
    requires Inv(w)
    ensures Inv(Fire(w))
  {
    if w.s.gapTimer {
      StepInv(w, GapFires);
    } else if w.s.retransmitTimer {
      StepInv(w, RetransmitFires);
    }
  }

  /** Flushing a strictly increasing buffer leaves one, and no stale head. */
  lemma LeftOverIncreases(t: State)
    requires StrictlyIncreasing(t.buffer) && !Stale(t)
    ensures StrictlyIncreasing(Flushed(t).buffer) && !Stale(Flushed(t))
  {
    FlushedShape(t);
    SuffixIncreases(ReadyPackets(t), Flushed(t).buffer);
  }

  lemma SuffixIncreases(out: seq<Packet>, rest: seq<Packet>)
    requires StrictlyIncreasing(out + rest)
    ensures StrictlyIncreasing(rest)
    ensures out != [] && rest != [] ==> out[|out| - 1].num < rest[0].num
  {
    var all := out + rest;
    forall i, j | 0 <= i < j < |rest| ensures rest[i].num < rest[j].num {
      assert all[|out| + i] == rest[i] && all[|out| + j] == rest[j];
    }
    if out != [] && rest != [] {
      assert all[|out| - 1] == out[|out| - 1] && all[|out|] == rest[0];
    }
  }

  /** Accepting a gap delivers a non-empty run of packets and closes one hole. */
  lemma AcceptGap(w: World)
    requires Inv(w) && !w.s.closed && w.s.retransmitTimer && StrictlyIncreasing(w.s.buffer)
    ensures var w' := Step(w, RetransmitFires);
      && !w'.s.closed && !Stale(w'.s) && StrictlyIncreasing(w'.s.buffer)
      && w'.delivered + w'.s.buffer == w.delivered + w.s.buffer
      && Gaps(w'.s.expected, w'.s.buffer) + 1 == Gaps(w.s.expected, w.s.buffer)
      && !w'.s.retransmitTimer
  {
    var b, e := w.s.buffer, w.s.buffer[0].num;
    var t := w.s.(retransmitTimer := false, expected := e);
    FlushedShape(t);
    GapsReady(e, b);
    assert Gaps(e, b) + 1 == Gaps(w.s.expected, b);
    LeftOverIncreases(t);
    var out, s := ReadyPackets(t), Flushed(t);
    assert w.delivered + out + s.buffer == w.delivered + b;
  }

  lemma RequestGap(w: World)
    requires Inv(w) && !w.s.closed && w.s.gapTimer
    ensures Step(w, GapFires).s == w.s.(gapTimer := false, retransmitTimer := true)
    ensures Step(w, GapFires).delivered == w.delivered
  {
    assert Delivery(w.s, GapFires) == [];
  }

  /** Two firings for each gap, less one if the first retransmit wait is already running. */
  function Firings(s: State): int {
    2 * Gaps(s.expected, s.buffer) - if s.retransmitTimer then 1 else 0
  }

  ghost predicate Draining(w: World) {
    Inv(w) && !w.s.closed && !Stale(w.s) && StrictlyIncreasing(w.s.buffer)
  }

  lemma FireProgress(w: World)
    requires Draining(w) && w.s.buffer != []
    ensures Draining(Fire(w)) && Firings(Fire(w).s) == Firings(w.s) - 1
    ensures Fire(w).delivered + Fire(w).s.buffer == w.delivered + w.s.buffer
    ensures Firings(w.s) >= 1
  {
    GapsBounded(w.s.expected, w.s.buffer);
    FireInv(w);
    if w.s.gapTimer {
      RequestGap(w);
    } else {
      AcceptGap(w);
    }
  }

  /**
   * Progress. With distinct buffered numbers and no further arrivals, two timer firings
   * per gap empty the buffer of an open socket and deliver all of it, in order.
   */
  lemma {:induction false} TimersDrain(w: World)
    requires Draining(w)
    ensures Firings(w.s) >= 0
    ensures FireTimes(w, Firings(w.s)).s.buffer == []
    ensures FireTimes(w, Firings(w.s)).delivered == w.delivered + w.s.buffer
    ensures !FireTimes(w, Firings(w.s)).s.closed
    decreases Firings(w.s)
  {
    if w.s.buffer == [] {
      assert w.delivered + [] == w.delivered;
    } else {
      FireProgress(w);
      TimersDrain(Fire(w));
    }
  }

  /** Two copies of a number in the buffer, or a stale head. */
  ghost predicate Doomed(s: State) {
    Stale(s) || !StrictlyIncreasing(s.buffer)
  }

  lemma {:induction false} InsertKeepsRepeat(ps: seq<Packet>, p: Packet)
    requires Sorted(ps) && !StrictlyIncreasing(ps)
    ensures !StrictlyIncreasing(Insert(ps, p))
  {
    InsertMembers(ps, p);
    InsertContents(ps, p);
    var r := Insert(ps, p);
    if StrictlyIncreasing(r) {
      var i, j :| 0 <= i < j < |ps| && ps[i].num >= ps[j].num;
      forall x, y | 0 <= x < |r| && 0 <= y < |r| && r[x].num == r[y].num ensures r[x] == r[y] {
      }
      assert ps[i] in r && ps[j] in r && ps[i].num == ps[j].num;
      assert multiset(ps)[ps[i]] <= multiset(r)[ps[i]];
      OnceOnly(r, ps[i]);
      TwiceAtLeast(ps, i, j);
    }
  }

  lemma OnceOnly(r: seq<Packet>, x: Packet)
    requires StrictlyIncreasing(r)
    ensures multiset(r)[x] <= 1
  {
    if x in r {
      var i :| 0 <= i < |r| && r[i] == x;
      assert r == r[..i] + [x] + r[i + 1..];
      assert x !in r[..i] && x !in r[i + 1..];
    }
  }

  lemma TwiceAtLeast(r: seq<Packet>, i: nat, j: nat)
    requires i < j < |r| && r[i] == r[j]
    ensures multiset(r)[r[i]] >= 2
  {
    assert r == r[..i] + [r[i]] + r[i + 1..j] + [r[j]] + r[j + 1..];
  }

  lemma FlushedDoomed(t: State)
    requires Sorted(t.buffer) && Doomed(t)
    ensures Doomed(Flushed(t))
  {
    FlushedShape(t);
    if !Stale(t) {
      SplitDoomed(ReadyPackets(t), Flushed(t).buffer, t.expected);
    }
  }

  lemma SplitDoomed(out: seq<Packet>, rest: seq<Packet>, expected: nat)
    requires Sorted(out + rest) && !StrictlyIncreasing(out + rest)
    requires forall i :: 0 <= i < |out| ==> out[i].num == expected + i
    ensures rest != [] && (rest[0].num < expected + |out| || !StrictlyIncreasing(rest))
  {
    var all := out + rest;
    var i, j :| 0 <= i < j < |all| && all[i].num >= all[j].num;
    assert rest[j - |out|] == all[j];
    if |out| <= i {
      assert rest[i - |out|] == all[i];
    } else {
      assert out[i] == all[i] && all[|out|] == rest[0];
    }
  }

  lemma StepDoomed(w: World, a: Action)
    requires Inv(w) && Doomed(w.s)
    ensures Doomed(Step(w, a).s)
  {
    match BeforeFlush(w.s, a)
    case Some(t) =>
      if a.Arrive? && a.packet.num >= w.s.expected {
        SortPushed(w.s.buffer, a.packet);
        if !Stale(w.s) {
          SortAppended(w.s.buffer, a.packet);
          InsertKeepsRepeat(w.s.buffer, a.packet);
        }
      }
      FlushedDoomed(t);
    case None =>
  }

  lemma {:induction false} ExecDoomed(w: World, actions: seq<Action>)
    requires Inv(w) && Doomed(w.s)
    ensures Doomed(Exec(w, actions).s)
    decreases actions
  {
    if actions != [] {
      StepInv(w, actions[0]);
      StepDoomed(w, actions[0]);
      ExecDoomed(Step(w, actions[0]), actions[1..]);
    }
  }

  lemma {:induction false} FireTimesIsRun(w: World, n: nat) returns (actions: seq<Action>)
    ensures FireTimes(w, n) == Exec(w, actions)
    decreases n
  {
    if n == 0 {
      actions := [];
    } else {
      var rest := FireTimesIsRun(Fire(w), n - 1);
      if w.s.gapTimer || w.s.retransmitTimer {
        actions := [if w.s.gapTimer then GapFires else RetransmitFires] + rest;
        assert actions[1..] == rest;
      } else {
        actions := rest;
      }
    }
  }

  lemma DrainsIff(w: World)
    requires Inv(w)
    ensures !w.s.closed ==> ((exists n: nat :: FireTimes(w, n).s.buffer == []) <==> !Doomed(w.s))
  {
    if !w.s.closed {
      if Doomed(w.s) {
        forall n: nat ensures FireTimes(w, n).s.buffer != [] {
          var fired := FireTimesIsRun(w, n);
          ExecDoomed(w, fired);
        }
      } else {
        TimersDrain(w);
      }
    }
  }

  /**
   * The exact condition for progress: from a reachable open state the timers alone can
   * empty the buffer if and only if no number is buffered twice and the head is not stale.
   */
  lemma DrainsIffDistinct(actions: seq<Action>)
    ensures var w := Exec(START, actions);
      !w.s.closed ==>
        ((exists n: nat :: FireTimes(w, n).s.buffer == []) <==> !Stale(w.s) && StrictlyIncreasing(w.s.buffer))
  {
    ExecInv(START, actions);
    DrainsIff(Exec(START, actions));
  }

  /** The stall. Once the head is stale no later step, of any kind, delivers anything. */
  lemma {:induction false} StaleForever(w: World, actions: seq<Action>)
    requires Inv(w) && Stale(w.s)
    ensures Exec(w, actions).delivered == w.delivered
    ensures Exec(w, actions).s.expected == w.s.expected
    decreases actions
  {
    if actions != [] {
      StepInv(w, actions[0]);
      StaleStep(w, actions[0]);
      hide Inv, Step, Stale;
      StaleForever(Step(w, actions[0]), actions[1..]);
    }
  }

  lemma StaleStep(w: World, a: Action)
    requires Inv(w) && Stale(w.s)
    ensures var w' := Step(w, a); Stale(w'.s) && w'.delivered == w.delivered && w'.s.expected == w.s.expected
  {
    if a.Arrive? && a.packet.num >= w.s.expected {
      SortPushed(w.s.buffer, a.packet);
    }
    hide SortByNum;
    assert Delivery(w.s, a) == [];
  }

  /**
   * How the stall comes about: if a number sits in the buffer twice and some step delivers
   * a packet with that number, the socket never delivers again.
   */
  lemma TwiceBufferedStalls(before: seq<Action>, a: Action, after: seq<Action>, i: nat, j: nat)
    requires var w := Exec(START, before);
      && i < j < |w.s.buffer| && w.s.buffer[i].num == w.s.buffer[j].num
      && exists p :: p in Delivery(w.s, a) && p.num == w.s.buffer[i].num
    ensures var w' := Step(Exec(START, before), a);
      Exec(w', after).delivered == w'.delivered
  {
    var w := Exec(START, before);
    var num := w.s.buffer[i].num;
    ExecInv(START, before);
    StepInv(w, a);
    StepDoomed(w, a);
    var w' := Step(w, a);
    var t := BeforeFlush(w.s, a).value;
    if a.Arrive? && a.packet.num >= w.s.expected {
      SortPushed(w.s.buffer, a.packet);
      SortAppended(w.s.buffer, a.packet);
      InsertKeepsCopies(w.s.buffer, a.packet, i, j);
    }
    FlushedShape(t);
    CopyLeft(t, ReadyPackets(t), w'.s, num);
    StaleForever(w', after);
  }

  ghost predicate Twice(ps: seq<Packet>, num: nat) {
    exists i, j :: 0 <= i < j < |ps| && ps[i].num == num && ps[j].num == num
  }

  lemma {:induction false} InsertKeepsCopies(ps: seq<Packet>, p: Packet, i: nat, j: nat)
    requires Sorted(ps) && i < j < |ps| && ps[i].num == ps[j].num
    ensures Twice(Insert(ps, p), ps[i].num)
  {
    var r := Insert(ps, p);
    if ps[|ps| - 1].num <= p.num {
      assert r[i] == ps[i] && r[j] == ps[j];
    } else {
      var init, last := ps[..|ps| - 1], ps[|ps| - 1];
      var r' := Insert(init, p);
      InsertMembers(init, p);
      if j < |init| {
        InsertKeepsCopies(init, p, i, j);
        var x, y :| 0 <= x < y < |r'| && r'[x].num == init[i].num && r'[y].num == init[i].num;
        assert r[x] == r'[x] && r[y] == r'[y];
      } else {
        assert init[i] in r';
        var x :| 0 <= x < |r'| && r'[x] == init[i];
        assert r[x] == r'[x] && r[|r'|] == last;
      }
    }
  }

  /** Of two copies, one flush delivers at most one; the other is left behind. */
  lemma CopyLeft(t: State, out: seq<Packet>, s: State, num: nat)
    requires Sorted(t.buffer) && Twice(t.buffer, num) && Flushes(t, out, s)
    requires exists p :: p in out && p.num == num
    ensures Sorted(s.buffer) ==> Stale(s)
  {
    var i, j :| 0 <= i < j < |t.buffer| && t.buffer[i].num == num && t.buffer[j].num == num;
    assert t.buffer[i].num == num;
    assert j >= |out|;
    assert s.buffer[j - |out|] == t.buffer[j];
  }

  // ---------------------------------------------------------------------------
  // No number buffered twice
  // ---------------------------------------------------------------------------

  /** May the step be taken without buffering a number twice? */
  ghost predicate Unrepeated(s: State, a: Action) {
    a.Arrive? ==> forall p :: p in s.buffer ==> p.num != a.packet.num
  }

  /** Along the run, no packet arrives while one with its number is still buffered. */
  ghost predicate NeverBufferedTwice(w: World, actions: seq<Action>)
    decreases actions
  {
    actions != [] ==>
      && Unrepeated(w.s, actions[0])
      && NeverBufferedTwice(Step(w, actions[0]), actions[1..])
  }

  lemma InsertDistinct(ps: seq<Packet>, p: Packet)
    requires StrictlyIncreasing(ps) && forall q :: q in ps ==> q.num != p.num
    ensures StrictlyIncreasing(Insert(ps, p))
  {
    if ps != [] && p.num < ps[|ps| - 1].num {
      var init, last := ps[..|ps| - 1], ps[|ps| - 1];
      InsertDistinct(init, p);
      InsertMembers(init, p);
      var r := Insert(init, p);
      forall i | 0 <= i < |r| ensures r[i].num < last.num {
        assert r[i] in r;
      }
    }
  }

  lemma InsertRepeats(ps: seq<Packet>, p: Packet, i: nat)
    requires Sorted(ps) && i < |ps| && ps[i].num == p.num
    ensures !StrictlyIncreasing(Insert(ps, p))
  {
    var r := Insert(ps, p);
    InsertContents(ps, p);
    InsertMembers(ps, p);
    if ps[i] == p {
      assert multiset(r)[p] >= 2 by {
        assert p in multiset(ps);
      }
      if StrictlyIncreasing(r) {
        OnceOnly(r, p);
      }
    } else {
      assert ps[i] in r && p in r;
      var x :| 0 <= x < |r| && r[x] == ps[i];
      var y :| 0 <= y < |r| && r[y] == p;
    }
  }

  lemma ArriveHealthy(s: State, p: Packet)
    requires Sorted(s.buffer) && !Doomed(s) && s.expected <= p.num
    ensures !Doomed(Flushed(Enqueued(s, p))) <==> Unrepeated(s, Arrive(p))
  {
    var t := Enqueued(s, p);
    SortPushed(s.buffer, p);
    SortAppended(s.buffer, p);
    hide SortByNum, Insert, Flushed;
    if Unrepeated(s, Arrive(p)) {
      InsertDistinct(s.buffer, p);
      LeftOverIncreases(t);
    } else {
      var i :| 0 <= i < |s.buffer| && s.buffer[i].num == p.num;
      InsertRepeats(s.buffer, p, i);
      FlushedDoomed(t);
    }
  }

  /** One step buffers a number twice exactly when it enqueues a packet whose number is there. */
  lemma StepHealthy(w: World, a: Action)
    requires Inv(w) && !Doomed(w.s)
    ensures !Doomed(Step(w, a).s) <==> Unrepeated(w.s, a)
  {
    match BeforeFlush(w.s, a)
    case Some(t) =>
      if a.Arrive? && a.packet.num >= w.s.expected {
        hide Flushed, Enqueued, Doomed, Unrepeated, ReadyPackets;
        ArriveHealthy(w.s, a.packet);
      } else {
        hide Flushed, ReadyPackets;
        LeftOverIncreases(t);
      }
    case None =>
  }

  /** Over runs: a healthy buffer stays healthy if and only if no number is ever buffered twice. */
  lemma {:induction false} HealthyIffNeverTwice(w: World, actions: seq<Action>)
    requires Inv(w) && !Doomed(w.s)
    ensures !Doomed(Exec(w, actions).s) <==> NeverBufferedTwice(w, actions)
    decreases actions
  {
    if actions != [] {
      hide Doomed;
      StepInv(w, actions[0]);
      StepHealthy(w, actions[0]);
      if Unrepeated(w.s, actions[0]) {
        HealthyIffNeverTwice(Step(w, actions[0]), actions[1..]);
      } else {
        ExecDoomed(Step(w, actions[0]), actions[1..]);
      }
    }
  }

  /**
   * Progress over runs. The timers alone can empty the buffer of an open socket if and only if
   * no number was ever buffered twice. In that case exactly one timer is pending when anything
   * is buffered and none otherwise, and at most two firings per gap deliver the rest, in order.
   */
  lemma Progress(actions: seq<Action>)
    ensures var w := Exec(START, actions);
      !w.s.closed ==>
        ((exists n: nat :: FireTimes(w, n).s.buffer == []) <==> NeverBufferedTwice(START, actions))
    ensures var w := Exec(START, actions);
      !w.s.closed && NeverBufferedTwice(START, actions) ==>
        && (w.s.buffer != [] <==> w.s.gapTimer || w.s.retransmitTimer)
        && (w.s.buffer != [] <==> w.s.gapTimer != w.s.retransmitTimer)
        && 0 <= Firings(w.s) <= 2 * Gaps(w.s.expected, w.s.buffer) <= 2 * |w.s.buffer|
        && FireTimes(w, Firings(w.s)).s.buffer == []
        && FireTimes(w, Firings(w.s)).delivered == w.delivered + w.s.buffer
  {
    var w := Exec(START, actions);
    ExecInv(START, actions);
    HealthyIffNeverTwice(START, actions);
    DrainsIffDistinct(actions);
    if !w.s.closed && !Doomed(w.s) {
      TimersDrain(w);
      GapsBounded(w.s.expected, w.s.buffer);
    }
  }

  /**
   * A run into the stall: packet 1 arrives twice before packet 0. Both numbers are delivered, the
   * second copy of 1 stays at the head, and nothing that happens later delivers anything.
   */
  lemma StallingRun(zero: Bytes, one: Bytes, after: seq<Action>)
    ensures var p, q := Packet(1, one), Packet(0, zero);
      var w := Exec(START, [Arrive(p), Arrive(p), Arrive(q)]);
      && w.delivered == [q, p] && Stale(w.s) && w.s.buffer == [p]
      && Exec(w, after).delivered == [q, p]
  {
    hide *;
    var p, q := Packet(1, one), Packet(0, zero);
    OneEarly(p);
    OneAgain(p);
    ZeroLate(p, q);
    ThreeSteps(START, Arrive(p), Arrive(p), Arrive(q));
    ExecInvFromStart([Arrive(p), Arrive(p), Arrive(q)]);
    StaleHead(p, q);
    StaleForever(AfterZero(p, q), after);
  }

  function AfterOne(p: Packet): World {
    World(State(0, [p], true, false, false), [p], [], [])
  }

  function AfterTwo(p: Packet): World {
    World(State(0, [p, p], true, false, false), [p, p], [], [])
  }

  function AfterZero(p: Packet, q: Packet): World {
    World(State(2, [p], false, false, false), [p, p, q], [q, p], [])
  }

  lemma OneEarly(p: Packet)
    requires p.num == 1
    ensures Step(START, Arrive(p)) == AfterOne(p)
  {
    SortAppended([], p);
    assert [] + [p] == [p] == Insert([], p);
  }

  lemma OneAgain(p: Packet)
    requires p.num == 1
    ensures Step(AfterOne(p), Arrive(p)) == AfterTwo(p)
  {
    assert Sorted([p]);
    SortAppended([p], p);
    assert [p] + [p] == [p, p] == Insert([p], p);
  }

  lemma ZeroLate(p: Packet, q: Packet)
    requires p.num == 1 && q.num == 0
    ensures Step(AfterTwo(p), Arrive(q)) == AfterZero(p, q)
  {
    var w, t := AfterTwo(p), State(0, [q, p, p], true, false, false);
    assert Enqueued(w.s, q) == t by {
      assert Sorted([p, p]);
      SortAppended([p, p], q);
      InsertFirst([p, p], q);
      assert [q] + [p, p] == [q, p, p];
    }
    hide SortByNum, Insert;
    ReadyTwo(p, q);
    assert [q, p, p][..2] == [q, p] && [q, p, p][2..] == [p];
    assert [p, p] + [q] == [p, p, q] && [] + [q, p] == [q, p];
  }

  lemma ReadyTwo(p: Packet, q: Packet)
    requires p.num == 1 && q.num == 0
    ensures ReadyCount(0, [q, p, p]) == 2
  {
    assert [q, p, p][1..] == [p, p] && [p, p][1..] == [p];
    assert ReadyCount(2, [p]) == 0;
    assert ReadyCount(1, [p, p]) == 1;
  }

  lemma {:induction false} InsertFirst(ps: seq<Packet>, q: Packet)
    requires forall p :: p in ps ==> q.num < p.num
    ensures Insert(ps, q) == [q] + ps
  {
    if ps != [] {
      var init, last := ps[..|ps| - 1], ps[|ps| - 1];
      assert last in ps && init + [last] == ps;
      InsertFirst(init, q);
      assert [q] + init + [last] == [q] + ps;
    }
  }

  /** Without packet 0, the timers request it, then skip it and deliver one copy of 1. */
  lemma SkipsToOne(p: Packet)
    requires p.num == 1
    ensures var w := Step(Step(AfterTwo(p), GapFires), RetransmitFires);
      w.delivered == [p] && Stale(w.s)
  {
    var w := Step(AfterTwo(p), GapFires);
    assert w == World(State(0, [p, p], false, true, false), [p, p], [], [Request(0, 0)]);
    assert ReadyCount(1, [p, p]) == 1 by {
      assert [p, p][1..] == [p];
      assert ReadyCount(2, [p]) == 0;
    }
    assert [p, p][..1] == [p] && [p, p][1..] == [p];
  }

  lemma ThreeSteps(w: World, a: Action, b: Action, c: Action)
    ensures Exec(w, [a, b, c]) == Step(Step(Step(w, a), b), c)
  {
    hide Step;
    assert [a, b, c][1..] == [b, c] && [b, c][1..] == [c] && [c][1..] == [];
    var x := Step(w, a);
    var y := Step(x, b);
    assert Exec(y, [c]) == Exec(Step(y, c), []);
    assert Exec(x, [b, c]) == Exec(y, [c]);
  }

  lemma ExecInvFromStart(actions: seq<Action>)
    ensures Inv(Exec(START, actions))
  {
    ExecInv(START, actions);
  }

  lemma StaleHead(p: Packet, q: Packet)
    requires p.num == 1
    ensures var w := AfterZero(p, q);
      Stale(w.s) && w.s.buffer == [p] && w.delivered == [q, p]
  {
  }

  lemma {:induction false} GapsBounded(expected: nat, buffer: seq<Packet>)
    ensures Gaps(expected, buffer) <= |buffer|
    ensures buffer != [] && buffer[0].num != expected ==> Gaps(expected, buffer) >= 1
    decreases buffer
  {
    if buffer != [] {
      GapsBounded(buffer[0].num + 1, buffer[1..]);
    }
  }

  // ---------------------------------------------------------------------------
  // The imperative socket
  // ---------------------------------------------------------------------------

  class Socket {
    var expectedSeq: nat
    var buffer: seq<Packet>
    var gapTimer: bool
    var retransmitTimer: bool
    var closed: bool
    /** What `onmessage` was called with, and the retransmit events sent. */
    var messages: seq<Packet>
    var requests: seq<Request>

    function Model(): State
      reads this
    {
      State(expectedSeq, buffer, gapTimer, retransmitTimer, closed)
    }

    constructor ()
      ensures Model() == INITIAL && messages == [] && requests == []
    {
      expectedSeq, buffer := 0, [];
      gapTimer, retransmitTimer, closed := false, false, false;
      messages, requests := [], [];
    }

    /** A decoded event: `#enqueue` then `#flush`. */
    method OnPacket(p: Packet)
      modifies this
      ensures Model() == Next(old(Model()), Arrive(p))
      ensures messages == old(messages) + Delivery(old(Model()), Arrive(p))
      ensures requests == old(requests)
    {
      Enqueue(p);
      Flush();
    }

    method Enqueue(p: Packet)
      modifies this`buffer
      ensures Model() == Enqueued(old(Model()), p)
    {
      if p.num < expectedSeq { return; }
      buffer := buffer + [p];
      buffer := SortByNum(buffer);
    }

    method Flush()
      modifies this`buffer, this`expectedSeq, this`gapTimer, this`retransmitTimer, this`messages
      ensures Model() == Flushed(old(Model()))
      ensures messages == old(messages) + ReadyPackets(old(Model()))
    {
      if |buffer| > 0 && buffer[0].num == expectedSeq {
        ClearGapTimers();
      }
      ghost var total := ReadyCount(expectedSeq, buffer);
      ghost var b := buffer;
      ghost var done: nat := 0;
      while |buffer| > 0 && buffer[0].num == expectedSeq
        invariant done <= |b| && expectedSeq == old(expectedSeq) + done
        invariant ReadyCount(expectedSeq, buffer) == total - done
        invariant buffer == b[done..] && messages == old(messages) + b[..done]
        invariant gapTimer == (old(gapTimer) && total == 0)
        invariant retransmitTimer == (old(retransmitTimer) && total == 0)
        decreases |buffer|
      {
        var event := buffer[0];
        buffer := buffer[1..];
        expectedSeq := expectedSeq + 1;
        messages := messages + [event];
        done := done + 1;
        assert b[..done] == b[..done - 1] + [event];
      }
      assert done == total;
      if |buffer| > 0 && buffer[0].num > expectedSeq && !gapTimer && !retransmitTimer {
        gapTimer := true;
      }
    }

    method ClearGapTimers()
      modifies this`gapTimer, this`retransmitTimer
      ensures !gapTimer && !retransmitTimer
    {
      gapTimer := false;
      retransmitTimer := false;
    }

    method OnGapTimer()
      requires gapTimer
      modifies this
      ensures Model() == Next(old(Model()), GapFires)
      ensures messages == old(messages) + Delivery(old(Model()), GapFires)
      ensures requests == old(requests) + RequestOf(old(Model()), GapFires)
    {
      gapTimer := false;
      if closed || |buffer| == 0 { return; }
      var firstBuffered := buffer[0].num;
      if firstBuffered <= expectedSeq {
        Flush();
        return;
      }
      requests := requests + [Request(expectedSeq, firstBuffered - 1)];
      retransmitTimer := true;
    }

    method OnRetransmitTimer()
      requires retransmitTimer
      modifies this
      ensures Model() == Next(old(Model()), RetransmitFires)
      ensures messages == old(messages) + Delivery(old(Model()), RetransmitFires)
      ensures requests == old(requests)
    {
      retransmitTimer := false;
      if closed || |buffer| == 0 { return; }
      expectedSeq := buffer[0].num;
      Flush();
    }

    method Close()
      modifies this
      ensures Model() == Next(old(Model()), Action.Close)
      ensures messages == old(messages) && requests == old(requests)
    {
      if closed { return; }
      closed := true;
      ClearGapTimers();
    }
  }
}
