/**
 * Which poll gets a message: the polls waiting for an event type (`#waitForInbox` of
 * packages/core/p2p-transport.js) are served in the order in which they started to wait, and a
 * timeout takes away just its own poll.
 */
module PollOrder {
  import opened P2PInbox

  /** The polls of a type that found its inbox empty and began to wait, in order. */
  function Started(actions: seq<Action>, kind: Kind): seq<nat> {
    if actions == [] then []
    else
      var init, a := actions[..|actions| - 1], actions[|actions| - 1];
      if a.Poll? && a.kind == kind && a.waits && Get(Exec(init).s.inbox, kind) == []
      then Started(init, kind) + [a.id] else Started(init, kind)
  }

  /** Those of them that wait no more: served, timed out, or dropped by closing. */
  function Left(actions: seq<Action>, kind: Kind): set<nat> {
    if actions == [] then {}
    else
      var init, a := actions[..|actions| - 1], actions[|actions| - 1];
      var left := Left(init, kind);
      match a
      case Arrive(k, _) => if k == kind then left + Ids(Delivered(Exec(init).s, a)) else left
      case Timeout(k, id) => if k == kind && id in Started(init, kind) then left + {id} else left
      case Close => set id | id in Started(init, kind)
      case Poll(_, _, _) => left
  }

  function Ids(deliveries: seq<Delivery>): set<nat> {
    set d | d in deliveries :: d.id
  }

  /** The ids that are not in `left`, in order. */
  function Remaining(ids: seq<nat>, left: set<nat>): seq<nat> {
    if ids == [] then []
    else
      var before, id := Remaining(ids[..|ids| - 1], left), ids[|ids| - 1];
      if id in left then before else before + [id]
  }

  /** The ids of all polls. */
  function PollIds(actions: seq<Action>): seq<nat> {
    if actions == [] then []
    else
      var before, a := PollIds(actions[..|actions| - 1]), actions[|actions| - 1];
      if a.Poll? then before + [a.id] else before
  }

  ghost predicate NoRepeats(s: seq<nat>) {
    forall i, j :: 0 <= i < j < |s| ==> s[i] != s[j]
  }

  // ---------------------------------------------------------------------------
  // Lists without repeats
  // ---------------------------------------------------------------------------

  lemma NoRepeatsInit(ids: seq<nat>)
    requires NoRepeats(ids) && ids != []
    ensures NoRepeats(ids[..|ids| - 1]) && ids[|ids| - 1] !in ids[..|ids| - 1]
  {
  }

  lemma {:induction false} RemainingMembers(ids: seq<nat>, left: set<nat>)
    ensures forall id :: id in Remaining(ids, left) <==> id in ids && id !in left
  {
    if ids != [] {
      RemainingMembers(ids[..|ids| - 1], left);
      assert ids == ids[..|ids| - 1] + [ids[|ids| - 1]];
    }
  }

  lemma {:induction false} WithoutSnoc(ids: seq<nat>, x: nat, id: nat)
    ensures WithoutFirst(ids + [x], id)
         == if id in ids then WithoutFirst(ids, id) + [x] else if x == id then ids else ids + [x]
  {
    var all := ids + [x];
    if ids == [] {
      assert all[1..] == [];
    } else {
      assert all[1..] == ids[1..] + [x];
      WithoutSnoc(ids[1..], x, id);
      assert ids == [ids[0]] + ids[1..];
    }
  }

  lemma {:induction false} SameWithout(ids: seq<nat>, id: nat)
    requires id !in ids
    ensures WithoutFirst(ids, id) == ids
  {
    if ids != [] {
      SameWithout(ids[1..], id);
    }
  }

  lemma {:induction false} OneMoreLeaves(ids: seq<nat>, left: set<nat>, id: nat)
    requires NoRepeats(ids)
    ensures Remaining(ids, left + {id}) == WithoutFirst(Remaining(ids, left), id)
  {
    if ids != [] {
      var init, x := ids[..|ids| - 1], ids[|ids| - 1];
      NoRepeatsInit(ids);
      OneMoreLeaves(init, left, id);
      RemainingMembers(init, left);
      if x !in left {
        WithoutSnoc(Remaining(init, left), x, id);
        if id !in Remaining(init, left) {
          SameWithout(Remaining(init, left), id);
        }
      }
    }
  }

  lemma {:induction false} NoneRemain(ids: seq<nat>, left: set<nat>)
    requires forall id :: id in ids ==> id in left
    ensures Remaining(ids, left) == []
  {
    if ids != [] {
      NoneRemain(ids[..|ids| - 1], left);
    }
  }

  // ---------------------------------------------------------------------------
  // Runs
  // ---------------------------------------------------------------------------

  ghost predicate Inv(actions: seq<Action>, kind: Kind) {
    && Get(Exec(actions).s.waiters, kind) == Remaining(Started(actions, kind), Left(actions, kind))
    && NoRepeats(Started(actions, kind))
    && (forall id :: id in Started(actions, kind) ==> id in PollIds(actions))
    && (forall id :: id in Left(actions, kind) ==> id in Started(actions, kind))
  }

  lemma ArriveOrder(init: seq<Action>, a: Action, kind: Kind)
    requires Inv(init, kind) && a.Arrive?
    ensures Inv(init + [a], kind)
  {
    var all := init + [a];
    assert all[..|init|] == init && all[|init|] == a;
    var s, ids, left := Exec(init).s, Started(init, kind), Left(init, kind);
    RemainingMembers(ids, left);
    hide Exec, PollIds;
    assert Started(all, kind) == ids;
    assert Exec(all).s == Next(s, a) by { ExecSnoc(init, a); }
    assert PollIds(all) == PollIds(init) by { PollIdsSnoc(init, a); }
    if a.kind == kind && Get(s.waiters, kind) != [] {
      var id := Get(s.waiters, kind)[0];
      assert Ids(Delivered(s, a)) == {id};
      OneMoreLeaves(ids, left, id);
    } else if a.kind == kind {
      assert Ids(Delivered(s, a)) == {};
      assert left + {} == left;
    }
  }

  lemma ExecSnoc(init: seq<Action>, a: Action)
    ensures Exec(init + [a]) == Step(Exec(init), a)
  {
    assert (init + [a])[..|init|] == init;
  }

  lemma PollIdsSnoc(init: seq<Action>, a: Action)
    ensures PollIds(init + [a]) == if a.Poll? then PollIds(init) + [a.id] else PollIds(init)
  {
    assert (init + [a])[..|init|] == init;
  }

  lemma RemainingSnoc(ids: seq<nat>, id: nat, left: set<nat>)
    requires id !in left
    ensures Remaining(ids + [id], left) == Remaining(ids, left) + [id]
  {
    assert (ids + [id])[..|ids|] == ids;
  }

  lemma AddNew(ids: seq<nat>, id: nat)
    requires NoRepeats(ids) && id !in ids
    ensures NoRepeats(ids + [id])
  {
  }

  lemma PollSnoc(init: seq<Action>, a: Action, kind: Kind)
    requires a.Poll?
    ensures Left(init + [a], kind) == Left(init, kind)
    ensures var waits := a.kind == kind && a.waits && Get(Exec(init).s.inbox, kind) == [];
      && Started(init + [a], kind) == (if waits then Started(init, kind) + [a.id] else Started(init, kind))
      && Get(Exec(init + [a]).s.waiters, kind)
         == (if waits then Get(Exec(init).s.waiters, kind) + [a.id] else Get(Exec(init).s.waiters, kind))
  {
    assert (init + [a])[..|init|] == init && (init + [a])[|init|] == a;
    ExecSnoc(init, a);
    hide Exec;
  }

  lemma PollsOrder(init: seq<Action>, a: Action, kind: Kind)
    requires Inv(init, kind) && a.Poll? && a.id !in PollIds(init)
    ensures Inv(init + [a], kind)
  {
    hide Exec, PollIds, Started, Left, Remaining, NoRepeats;
    var ids, left := Started(init, kind), Left(init, kind);
    PollSnoc(init, a, kind);
    PollIdsSnoc(init, a);
    if a.kind == kind && a.waits && Get(Exec(init).s.inbox, kind) == [] {
      RemainingSnoc(ids, a.id, left);
      AddNew(ids, a.id);
    }
  }

  lemma TimeoutOrder(init: seq<Action>, a: Action, kind: Kind)
    requires Inv(init, kind) && a.Timeout?
    ensures Inv(init + [a], kind)
  {
    var all := init + [a];
    assert all[..|init|] == init && all[|init|] == a;
    var s, ids, left := Exec(init).s, Started(init, kind), Left(init, kind);
    RemainingMembers(ids, left);
    hide Exec, PollIds;
    assert Started(all, kind) == ids;
    assert Exec(all).s == Next(s, a) by { ExecSnoc(init, a); }
    assert PollIds(all) == PollIds(init) by { PollIdsSnoc(init, a); }
    if a.kind == kind {
      OneMoreLeaves(ids, left, a.id);
      if a.id !in ids {
        SameWithout(Get(s.waiters, kind), a.id);
      }
    }
  }

  lemma CloseOrder(init: seq<Action>, kind: Kind)
    requires Inv(init, kind)
    ensures Inv(init + [Close], kind)
  {
    var all := init + [Close];
    assert all[..|init|] == init && all[|init|] == Close;
    ExecSnoc(init, Close);
    PollIdsSnoc(init, Close);
    hide Exec, PollIds;
    assert Started(all, kind) == Started(init, kind);
    NoneRemain(Started(init, kind), Left(all, kind));
  }

  lemma {:induction false} RunInv(actions: seq<Action>, kind: Kind)
    requires NoRepeats(PollIds(actions))
    ensures Inv(actions, kind)
  {
    if actions != [] {
      var init, a := actions[..|actions| - 1], actions[|actions| - 1];
      assert init + [a] == actions;
      PollIdsSnoc(init, a);
      assert NoRepeats(PollIds(init)) && (a.Poll? ==> a.id !in PollIds(init)) by {
        if a.Poll? {
          NoRepeatsInit(PollIds(actions));
          assert PollIds(actions)[..|PollIds(init)|] == PollIds(init);
        }
      }
      RunInv(init, kind);
      hide Inv, PollIds, NoRepeats;
      match a
      case Arrive(_, _) => ArriveOrder(init, a, kind);
      case Poll(_, _, _) => PollsOrder(init, a, kind);
      case Timeout(_, _) => TimeoutOrder(init, a, kind);
      case Close => CloseOrder(init, kind);
    }
  }

  /**
   * Over every run in which no two polls are the same: the polls waiting for a type are those that
   * started and have not left, in the order in which they started, and a message that arrives goes
   * to the first of them.
   */
  lemma FirstWaiterIsServed(actions: seq<Action>, kind: Kind, message: Message)
    requires NoRepeats(PollIds(actions))
    ensures var waiting := Remaining(Started(actions, kind), Left(actions, kind));
      var served := Delivered(Exec(actions).s, Arrive(kind, message));
      && Get(Exec(actions).s.waiters, kind) == waiting
      && |served| == (if waiting == [] then 0 else 1)
      && (waiting != [] ==> served[0].id == waiting[0] && served[0].kind == kind)
  {
    RunInv(actions, kind);
    hide Exec, Started, Left, Remaining, PollIds, NoRepeats;
  }
}
