/**
 * Where retried tasks come from, over whole runs of the coordinator
 * (crates/mxdx-fabric/src/coordinator.rs and crates/mxdx-fabric/src/failure.rs): every task it
 * ever takes up is the k-th retry of a task submitted from outside, for a k that the limits of
 * that task allow.
 */
module RetryLineage {
  import opened TaskRetries

  /** The uuid of the `k`-th retry of a task that starts at `attempt`. */
  function ChainUuid(uuid: string, attempt: nat, k: nat): string {
    if k == 0 then uuid else RetryUuid(ChainUuid(uuid, attempt, k - 1), attempt + k)
  }

  /** `uuid` names the `k`-th retry of `t`, and `t` may be retried that often. */
  predicate NamesRetry(t: Task, k: nat, uuid: string) {
    && uuid == ChainUuid(t.uuid, AttemptOf(t), k)
    && (k > 0 ==> AttemptOf(t) + k <= Limit(t))
  }

  /** `r` is the `k`-th retry of `t`: it carries the attempt of `t` plus `k`, and its policies. */
  predicate KthRetry(t: Task, k: nat, r: Task) {
    && NamesRetry(t, k, r.uuid)
    && AttemptOf(r) == AttemptOf(t) + k
    && r.onTimeout == t.onTimeout && r.onHeartbeatMiss == t.onHeartbeatMiss
    && r.timeoutSeconds == t.timeoutSeconds && r.heartbeatSeconds == t.heartbeatSeconds
  }

  ghost predicate Descends(tasks: seq<Task>, r: Task) {
    exists t, k: nat :: t in tasks && KthRetry(t, k, r)
  }

  ghost predicate IsName(tasks: seq<Task>, uuid: string) {
    exists t, k: nat :: t in tasks && NamesRetry(t, k, uuid)
  }

  ghost predicate AllDescend(tasks: seq<Task>, rs: seq<Task>) {
    forall r :: r in rs ==> Descends(tasks, r)
  }

  ghost predicate Inv(w: World, tasks: seq<Task>) {
    && (forall u :: u in w.watch ==> Descends(tasks, w.watch[u].task))
    && (forall u :: u in w.seen ==> IsName(tasks, u))
  }

  /** A retry of the `k`-th retry is the next one. */
  lemma NextRetry(t: Task, k: nat, e: Entry, now: int, sendFails: bool)
    requires KthRetry(t, k, e.task) && e.attempt == AttemptOf(e.task)
    requires Decide(e, now, sendFails).Retry?
    ensures KthRetry(t, k + 1, Decide(e, now, sendFails).task)
  {
    hide RetryUuid, Reason, ContextPlan;
    RetryRaisesAttempt(e, now, sendFails);
    assert Limit(e.task) == Limit(t);
  }

  lemma {:induction false} RepostsDescend(
    w: World, tasks: seq<Task>, order: seq<string>, clock: Clock, sendFails: set<string>)
    requires RoutedOnce(w) && Inv(w, tasks)
    ensures AllDescend(tasks, ToRepost(w.watch, order, clock, sendFails))
    decreases order
  {
    hide Decide, KthRetry, NamesRetry;
    if order != [] {
      var u := order[|order| - 1];
      RepostsDescend(w, tasks, order[..|order| - 1], clock, sendFails);
      if u in w.watch && Decide(w.watch[u], At(clock, u), u in sendFails).Retry? {
        var t, k: nat :| t in tasks && KthRetry(t, k, w.watch[u].task);
        NextRetry(t, k, w.watch[u], At(clock, u), u in sendFails);
        assert Descends(tasks, Decide(w.watch[u], At(clock, u), u in sendFails).task);
      }
    }
  }

  lemma DescendantIsNamed(tasks: seq<Task>, r: Task)
    requires Descends(tasks, r)
    ensures IsName(tasks, r.uuid)
  {
    var t, k: nat :| t in tasks && KthRetry(t, k, r);
    assert NamesRetry(t, k, r.uuid);
  }

  lemma HandleInv(w: World, tasks: seq<Task>, r: Task, now: int, ok: bool)
    requires Inv(w, tasks) && Descends(tasks, r)
    ensures Inv(Handle(w, r, now, ok), tasks)
  {
    hide Descends, IsName;
    DescendantIsNamed(tasks, r);
  }

  lemma {:induction false} HandleAllInv(
    w: World, tasks: seq<Task>, rs: seq<Task>, clock: Clock, routeFails: set<string>)
    requires Inv(w, tasks) && AllDescend(tasks, rs)
    ensures Inv(HandleAll(w, rs, clock, routeFails), tasks)
    decreases rs
  {
    if rs != [] {
      hide Inv, Descends, Handle;
      HandleInv(w, tasks, rs[0], At(clock, rs[0].uuid), rs[0].uuid !in routeFails);
      HandleAllInv(HandleAt(w, rs[0], clock, routeFails), tasks, rs[1..], clock, routeFails);
    }
  }

  lemma InvGrows(w: World, tasks: seq<Task>, t: Task)
    requires Inv(w, tasks)
    ensures Inv(w, tasks + [t]) && Descends(tasks + [t], t)
  {
    hide KthRetry, NamesRetry;
    var more := tasks + [t];
    assert t in more && KthRetry(t, 0, t) by {
      SelfRetry(t);
    }
    forall r | Descends(tasks, r) ensures Descends(more, r) {
      var o, k: nat :| o in tasks && KthRetry(o, k, r);
      assert o in more;
    }
    forall u | IsName(tasks, u) ensures IsName(more, u) {
      var o, k: nat :| o in tasks && NamesRetry(o, k, u);
      assert o in more;
    }
  }

  lemma SelfRetry(t: Task)
    ensures KthRetry(t, 0, t)
  {
  }

  function Known(tasks: seq<Task>, a: Action): seq<Task> {
    if a.Submit? then tasks + [a.task] else tasks
  }

  lemma StepInv(w: World, tasks: seq<Task>, a: Action)
    requires RoutedOnce(w) && Inv(w, tasks)
    ensures Inv(Step(w, a), Known(tasks, a))
  {
    hide Descends, IsName;
    match a
    case Submit(task, now, ok) =>
      InvGrows(w, tasks, task);
      HandleInv(w, tasks + [task], task, now, ok);
    case Check(order, clock, sendFails, routeFails) =>
      RepostsDescend(w, tasks, order, clock, sendFails);
      var posts := ToRepost(w.watch, order, clock, sendFails);
      HandleAllInv(Swept(w, order, clock, sendFails), tasks, posts, clock, routeFails);
    case _ =>
  }

  lemma {:induction false} RunInv(w: World, tasks: seq<Task>, actions: seq<Action>, w': World)
    requires RoutedOnce(w) && Inv(w, tasks) && Runs(w, actions, w')
    ensures RoutedOnce(w') && Inv(w', tasks + Submitted(actions))
    decreases actions
  {
    hide Step, RoutedOnce, Inv;
    if actions == [] {
      assert tasks + [] == tasks;
    } else {
      StepOnce(w, actions[0]);
      StepInv(w, tasks, actions[0]);
      RunInv(Step(w, actions[0]), Known(tasks, actions[0]), actions[1..], w');
      assert Known(tasks, actions[0]) + Submitted(actions[1..]) == tasks + Submitted(actions);
    }
  }

  /**
   * Over every run: each task watched, and each task that a check would repost, is the k-th retry
   * of a task submitted from outside, for some k. It carries that task's attempt plus k and its
   * policies, and any retry stays within the larger limit of the two. The same k is bounded for
   * every uuid ever taken up, so no lineage is retried more often than its limit.
   */
  lemma AttemptsStayWithinLimits(
    actions: seq<Action>, w: World, order: seq<string>, clock: Clock, sendFails: set<string>)
    requires Runs(START, actions, w)
    ensures var tasks := Submitted(actions);
      && (forall u :: u in w.watch ==> Descends(tasks, w.watch[u].task))
      && (forall r :: r in ToRepost(w.watch, order, clock, sendFails) ==> Descends(tasks, r))
      && (forall u :: u in w.routed ==> IsName(tasks, u))
  {
    RunInv(START, [], actions, w);
    assert [] + Submitted(actions) == Submitted(actions);
    RepostsDescend(w, Submitted(actions), order, clock, sendFails);
    assert forall u :: u in w.routed ==> u in Elements(w.routed);
  }

  /** The uuids of a lineage are all different, so each of its retries is taken up at most once. */
  lemma {:induction false} ChainUuidGrows(uuid: string, attempt: nat, j: nat, k: nat)
    requires j < k
    ensures |ChainUuid(uuid, attempt, j)| < |ChainUuid(uuid, attempt, k)|
    decreases k
  {
    if j < k - 1 {
      ChainUuidGrows(uuid, attempt, j, k - 1);
    }
  }
}
