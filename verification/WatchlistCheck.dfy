/**
 * What a check of the coordinator's watchlist does to each entry, written out from the promises of
 * the two policies (crates/mxdx-fabric/src/coordinator.rs and crates/mxdx-fabric/src/failure.rs),
 * and which runs keep an entry on the list.
 */
module WatchlistCheck {
  import opened Common
  import opened TaskRetries
  import Timestamp

  /** Not claimed within the timeout, or claimed and without a heartbeat for two intervals. */
  predicate PastDue(e: Entry, now: int) {
    if e.claimedAt.None? then now - e.lastHeartbeat > e.task.timeoutSeconds
    else now - e.lastHeartbeat > 2 * e.task.heartbeatSeconds
  }

  /** The policy for that case has attempts left. */
  predicate MayRetry(e: Entry) {
    match (if e.claimedAt.None? then e.task.onTimeout else e.task.onHeartbeatMiss)
    case Respawn(maxRetries) => e.attempt < maxRetries
    case RespawnWithContext => e.attempt < 3
    case Escalate => false
    case Abandon => false
  }

  /** The plan of the retry: the old one, or with context what failed, how far it came and the old one. */
  function RetryPlan(e: Entry): Option<string> {
    var policy := if e.claimedAt.None? then e.task.onTimeout else e.task.onHeartbeatMiss;
    if !policy.RespawnWithContext? then e.task.plan
    else
      var reason := if e.claimedAt.None? then "unclaimed for " + Timestamp.Pad(e.task.timeoutSeconds, 0) + "s"
                    else "heartbeat overdue";
      var progress := if e.lastProgress.Some? then e.lastProgress.value else "none";
      var plan := if e.task.plan.Some? then e.task.plan.value else "(no plan)";
      Some("Previous attempt failed: " + reason + ". Last progress: " + progress + ". Original plan: " + plan)
  }

  /** Is `t` the next attempt at the task of `e`? Only uuid, attempt and plan differ. */
  predicate IsNextAttempt(e: Entry, t: Task) {
    && t.uuid == RetryUuid(e.task.uuid, e.attempt + 1)
    && t.payload.Object? && t.payload.attempt == Some(e.attempt + 1)
    && (e.task.payload.Object? ==> t.payload.others == e.task.payload.others)
    && t.plan == RetryPlan(e)
    && t.onTimeout == e.task.onTimeout && t.onHeartbeatMiss == e.task.onHeartbeatMiss
    && t.timeoutSeconds == e.task.timeoutSeconds && t.heartbeatSeconds == e.task.heartbeatSeconds
  }

  lemma DecideIs(e: Entry, now: int, sendFails: bool)
    ensures var d := Decide(e, now, sendFails);
      if !PastDue(e, now) then d == Keep
      else if MayRetry(e) then d.Retry? && IsNextAttempt(e, d.task)
      else d == if sendFails then Keep else Remove
  {
    hide RetryUuid, Timestamp.Pad;
  }

  lemma {:induction false} RepostedIff(watch: map<string, Entry>, order: seq<string>, clock: Clock,
                                       sendFails: set<string>, t: Task)
    ensures t in ToRepost(watch, order, clock, sendFails)
       <==> exists u :: u in order && u in watch && Decide(watch[u], At(clock, u), u in sendFails) == Retry(t)
    decreases order
  {
    hide Decide;
    if order != [] {
      var init, last := order[..|order| - 1], order[|order| - 1];
      RepostedIff(watch, init, clock, sendFails, t);
      assert order == init + [last];
    }
  }

  lemma {:induction false} HandleAllFrame(w: World, tasks: seq<Task>, clock: Clock, routeFails: set<string>, u: string)
    requires u in w.seen
    ensures var w' := HandleAll(w, tasks, clock, routeFails);
      (u in w'.watch <==> u in w.watch) && (u in w.watch ==> w'.watch[u] == w.watch[u])
    decreases tasks
  {
    if tasks != [] {
      HandleAllFrame(HandleAt(w, tasks[0], clock, routeFails), tasks[1..], clock, routeFails, u);
    }
  }

  /** No repost is an attempt at `u`. */
  ghost predicate NotRetried(posts: seq<Task>, u: string) {
    forall t, n: nat :: t in posts ==> t.uuid != RetryUuid(u, n)
  }

  lemma KeptIsNotRetried(w: World, order: seq<string>, clock: Clock, sendFails: set<string>, u: string)
    requires RoutedOnce(w) && u in w.watch && !Decide(w.watch[u], At(clock, u), u in sendFails).Retry?
    ensures NotRetried(ToRepost(w.watch, order, clock, sendFails), u)
  {
    hide Decide, RetryUuid, ToRepost;
    forall t, n: nat | t in ToRepost(w.watch, order, clock, sendFails) ensures t.uuid != RetryUuid(u, n) {
      RepostedIff(w.watch, order, clock, sendFails, t);
      var v :| v in order && v in w.watch && Decide(w.watch[v], At(clock, v), v in sendFails) == Retry(t);
      RetryRaisesAttempt(w.watch[v], At(clock, v), v in sendFails);
      RetryUuidInjective(v, AttemptOf(t), u, n);
    }
  }

  lemma SweptAt(w: World, check: Action, u: string)
    requires RoutedOnce(w) && check.Check? && Enabled(w, check) && u in w.watch
    ensures var w', d := Step(w, check), Decide(w.watch[u], At(check.clock, u), u in check.sendFails);
      (u in w'.watch <==> d.Keep?) && (d.Keep? ==> w'.watch[u] == w.watch[u])
  {
    hide Decide, ToRepost, ToRemove;
    var s := Swept(w, check.order, check.clock, check.sendFails);
    RemovedAreListed(w.watch, check.order, check.clock, check.sendFails);
    assert u in check.order by {
      assert u in Elements(check.order);
    }
    HandleAllFrame(s, ToRepost(w.watch, check.order, check.clock, check.sendFails), check.clock, check.routeFails, u);
  }

  /**
   * What a check does to an entry, in every reachable state. An entry that is not past due stays as
   * it is and is not retried. One that is past due is replaced by its next attempt, which is
   * routed, if the policy for its case has attempts left; otherwise it is not retried, and is taken
   * off if and only if the message could be sent.
   */
  lemma CheckOutcome(actions: seq<Action>, w: World, check: Action, u: string)
    requires Runs(START, actions, w) && check.Check? && Enabled(w, check) && u in w.watch
    ensures var e, now, w' := w.watch[u], At(check.clock, u), Step(w, check);
      var posts := ToRepost(w.watch, check.order, check.clock, check.sendFails);
      if !PastDue(e, now) then u in w'.watch && w'.watch[u] == e && NotRetried(posts, u)
      else if MayRetry(e) then
        u !in w'.watch && exists t :: t in posts && IsNextAttempt(e, t) && t.uuid in w'.routed
      else
        && NotRetried(posts, u) && (u in w'.watch <==> u in check.sendFails)
        && (u in w'.watch ==> w'.watch[u] == e)
  {
    RunOnce(START, actions, w);
    var e, now := w.watch[u], At(check.clock, u);
    var posts := ToRepost(w.watch, check.order, check.clock, check.sendFails);
    var d := Decide(e, now, u in check.sendFails);
    DecideIs(e, now, u in check.sendFails);
    SweptAt(w, check, u);
    hide Decide, ToRepost, PastDue, MayRetry, IsNextAttempt, Step, RoutedOnce, NotRetried;
    if d.Retry? {
      assert u in check.order by {
        assert u in Elements(check.order);
      }
      RepostedIff(w.watch, check.order, check.clock, check.sendFails, d.task);
      RetryNotLost(actions, w, check);
    } else {
      KeptIsNotRetried(w, check.order, check.clock, check.sendFails, u);
    }
  }

  /** An unclaimed task that is abandoned or escalated on timeout is never retried, nor one past its limit. */
  lemma TimeoutPolicyRules(actions: seq<Action>, w: World, check: Action, u: string)
    requires Runs(START, actions, w) && check.Check? && Enabled(w, check) && u in w.watch
    requires w.watch[u].claimedAt.None? && (w.watch[u].task.onTimeout.Abandon? || w.watch[u].task.onTimeout.Escalate?)
    ensures NotRetried(ToRepost(w.watch, check.order, check.clock, check.sendFails), u)
  {
    CheckOutcome(actions, w, check, u);
    hide Step, NotRetried, ToRepost;
  }

  // ---------------------------------------------------------------------------
  // Runs
  // ---------------------------------------------------------------------------

  /**
   * Along the run no result of `u` comes, and every check reads a time at which `u` is not past
   * due, counting from its last heartbeat (`since` at first) and knowing whether it was claimed.
   */
  predicate StaysInTime(u: string, task: Task, claimed: bool, since: int, actions: seq<Action>)
    decreases actions
  {
    actions == [] ||
    match actions[0]
    case Claim(v, _) => StaysInTime(u, task, claimed || v == u, since, actions[1..])
    case Heartbeat(v, now, _) => StaysInTime(u, task, claimed, if v == u then now else since, actions[1..])
    case Result(v) => v != u && StaysInTime(u, task, claimed, since, actions[1..])
    case Check(_, clock, _, _) =>
      && At(clock, u) - since <= (if claimed then 2 * task.heartbeatSeconds else task.timeoutSeconds)
      && StaysInTime(u, task, claimed, since, actions[1..])
    case Submit(_, _, _) => StaysInTime(u, task, claimed, since, actions[1..])
  }

  lemma StepInTime(w: World, a: Action, u: string)
    requires RoutedOnce(w) && u in w.watch && Enabled(w, a) && (a.Result? ==> a.uuid != u)
    requires a.Check? ==> !PastDue(w.watch[u], At(a.clock, u))
    ensures var e, w' := w.watch[u], Step(w, a);
      && u in w'.watch && w'.watch[u].task == e.task
      && (w'.watch[u].claimedAt.Some? <==> e.claimedAt.Some? || (a.Claim? && a.uuid == u))
      && w'.watch[u].lastHeartbeat == (if a.Heartbeat? && a.uuid == u then a.now else e.lastHeartbeat)
      && w'.watch[u].lastProgress
         == (if a.Heartbeat? && a.uuid == u && a.progress.Some? then a.progress else e.lastProgress)
  {
    if a.Check? {
      DecideIs(w.watch[u], At(a.clock, u), u in a.sendFails);
      SweptAt(w, a, u);
      hide Decide, Step;
    }
  }

  /** A task claimed in time that sends its heartbeats in time is never taken off the list by a check. */
  lemma {:induction false} AliveStaysWatched(w: World, actions: seq<Action>, w': World, u: string)
    requires RoutedOnce(w) && Runs(w, actions, w') && u in w.watch
    requires StaysInTime(u, w.watch[u].task, w.watch[u].claimedAt.Some?, w.watch[u].lastHeartbeat, actions)
    ensures u in w'.watch && w'.watch[u].task == w.watch[u].task
    decreases actions
  {
    if actions != [] {
      StepInTime(w, actions[0], u);
      StepOnce(w, actions[0]);
      hide Step, RoutedOnce;
      AliveStaysWatched(Step(w, actions[0]), actions[1..], w', u);
    }
  }

  /** A task is watched from the moment it is taken up, unclaimed, if lookup and routing succeed. */
  lemma TakenUp(w: World, task: Task, now: int)
    requires task.uuid !in w.seen
    ensures var w' := Step(w, Submit(task, now, true));
      task.uuid in w'.watch && w'.watch[task.uuid] == Entry(task, None, now, AttemptOf(task), None)
  {
  }

  lemma StillUnwatched(w: World, a: Action, u: string)
    requires u in w.seen && u !in w.watch
    ensures u in Step(w, a).seen && u !in Step(w, a).watch
  {
    if a.Check? {
      var posts := ToRepost(w.watch, a.order, a.clock, a.sendFails);
      HandleAllFrame(Swept(w, a.order, a.clock, a.sendFails), posts, a.clock, a.routeFails, u);
      KeepsSubmitted(Swept(w, a.order, a.clock, a.sendFails), posts, a.clock, a.routeFails);
      hide ToRepost, ToRemove;
    }
  }

  /** A task whose lookup or routing failed is never watched, however often it is submitted again. */
  lemma {:induction false} UnroutedStaysUnwatched(w: World, actions: seq<Action>, w': World, u: string)
    requires u in w.seen && u !in w.watch && Runs(w, actions, w')
    ensures u !in w'.watch
    decreases actions
  {
    if actions != [] {
      StillUnwatched(w, actions[0], u);
      hide Step;
      UnroutedStaysUnwatched(Step(w, actions[0]), actions[1..], w', u);
    }
  }

  lemma UnroutedIsUnwatched(w: World, task: Task, now: int, actions: seq<Action>, w': World)
    requires RoutedOnce(w) && task.uuid !in w.seen && Runs(Step(w, Submit(task, now, false)), actions, w')
    ensures task.uuid !in w'.watch
  {
    UnroutedStaysUnwatched(Step(w, Submit(task, now, false)), actions, w', task.uuid);
  }

  /** A task whose result has come is never watched again. */
  lemma FinishedStaysUnwatched(w: World, u: string, actions: seq<Action>, w': World)
    requires RoutedOnce(w) && u in w.watch && Runs(Step(w, Result(u)), actions, w')
    ensures u !in w'.watch
    ensures forall v :: v != u && v in w.watch ==>
      v in Step(w, Result(u)).watch && Step(w, Result(u)).watch[v] == w.watch[v]
  {
    UnroutedStaysUnwatched(Step(w, Result(u)), actions, w', u);
  }

  /** A submitted attempt is read as a u8: larger numbers wrap around. */
  lemma AttemptWraps(task: Task, n: nat)
    ensures n < 256 ==> AttemptOf(task.(payload := Object(Some(n), ""))) == n
    ensures AttemptOf(task.(payload := Object(Some(n + 256), ""))) == AttemptOf(task.(payload := Object(Some(n), "")))
  {
  }
}
