/**
 * Task retries in the fabric coordinator: the policy decisions of crates/mxdx-fabric/src/failure.rs
 * and the handlers and watchlist of crates/mxdx-fabric/src/coordinator.rs.
 *
 * Clock readings, the iteration order of the hash map and the success of network calls are inputs.
 */
module TaskRetries {
  import opened Common
  import Timestamp

  type u8 = n: int | 0 <= n < 256

  datatype Policy = Escalate | Respawn(maxRetries: u8) | RespawnWithContext | Abandon

  /** A JSON payload: an object with an optional unsigned `attempt` field, or something else. */
  datatype Payload = Object(attempt: Option<nat>, others: string) | Scalar(text: string)

  datatype Task = Task(
    uuid: string,
    timeoutSeconds: nat,
    heartbeatSeconds: nat,
    onTimeout: Policy,
    onHeartbeatMiss: Policy,
    payload: Payload,
    plan: Option<string>
  )

  datatype Entry = Entry(
    task: Task,
    claimedAt: Option<int>,
    lastHeartbeat: int,
    attempt: u8,
    lastProgress: Option<string>
  )

  // ---------------------------------------------------------------------------
  // Policies
  // ---------------------------------------------------------------------------

  /** `payload.attempt` read as a u64 and truncated to a u8. */
  function AttemptOf(task: Task): u8 {
    match task.payload
    case Object(Some(n), _) => n % 256
    case _ => 0
  }

  function WithAttempt(payload: Payload, attempt: u8): Payload {
    match payload
    case Object(_, others) => Object(Some(attempt), others)
    case Scalar(_) => Object(Some(attempt), "")
  }

  function RetryUuid(uuid: string, attempt: nat): string {
    uuid + "-retry" + ['-'] + Timestamp.Pad(attempt, 0)
  }

  function OrElse(s: Option<string>, default: string): string {
    match s
    case Some(x) => x
    case None => default
  }

  function ContextPlan(task: Task, reason: string, lastProgress: Option<string>): string {
    "Previous attempt failed: " + reason + ". Last progress: " + OrElse(lastProgress, "none")
      + ". Original plan: " + OrElse(task.plan, "(no plan)")
  }

  /** What a policy makes of a failure: a new task, or nothing more than a message. */
  function Respawned(policy: Policy, e: Entry, reason: string): Option<Task> {
    if !(policy.Respawn? || policy.RespawnWithContext?) || e.attempt >= PolicyLimit(policy) then None
    else
      var attempt := e.attempt + 1;
      Some(e.task.(
        uuid := RetryUuid(e.task.uuid, attempt),
        payload := WithAttempt(e.task.payload, attempt),
        plan := if policy.RespawnWithContext? then Some(ContextPlan(e.task, reason, e.lastProgress)) else e.task.plan))
  }

  function PolicyLimit(policy: Policy): u8 {
    match policy
    case Respawn(maxRetries) => maxRetries
    case RespawnWithContext => 3
    case Escalate => 0
    case Abandon => 0
  }

  /** The larger limit of the two policies of a task. */
  function Limit(task: Task): u8 {
    var a, b := PolicyLimit(task.onTimeout), PolicyLimit(task.onHeartbeatMiss);
    if a >= b then a else b
  }

  /** The policy that a check at time `now` applies to an entry, if any. */
  function Overdue(e: Entry, now: int): Option<Policy> {
    if e.claimedAt.None? then
      if now - e.lastHeartbeat > e.task.timeoutSeconds then Some(e.task.onTimeout) else None
    else
      if now - e.lastHeartbeat > 2 * e.task.heartbeatSeconds then Some(e.task.onHeartbeatMiss) else None
  }

  function Reason(e: Entry): string {
    if e.claimedAt.None? then "unclaimed for " + Timestamp.Pad(e.task.timeoutSeconds, 0) + "s" else "heartbeat overdue"
  }

  datatype Decision = Keep | Remove | Retry(task: Task)

  /** `sendFails`: the message to the coordinator room could not be sent, so the entry stays. */
  function Decide(e: Entry, now: int, sendFails: bool): Decision {
    match Overdue(e, now)
    case None => Keep
    case Some(policy) =>
      match Respawned(policy, e, Reason(e))
      case Some(task) => Retry(task)
      case None => if sendFails then Keep else Remove
  }

  /**
   * A retry raises the attempt by one, never past the larger limit of the task's two policies and
   * so within a u8; the new task keeps both policies and carries the new attempt.
   */
  lemma RetryRaisesAttempt(e: Entry, now: int, sendFails: bool)
    requires Decide(e, now, sendFails).Retry?
    ensures var t := Decide(e, now, sendFails).task;
      && AttemptOf(t) == e.attempt + 1 <= Limit(e.task) <= 255
      && t.onTimeout == e.task.onTimeout && t.onHeartbeatMiss == e.task.onHeartbeatMiss
      && Limit(t) == Limit(e.task)
      && t.uuid == RetryUuid(e.task.uuid, AttemptOf(t))
  {
  }

  // ---------------------------------------------------------------------------
  // Retry uuids
  // ---------------------------------------------------------------------------

  lemma AfterDash(x: string, a: string, k: nat)
    ensures |x| < k < |x| + 1 + |a| ==> (x + ['-'] + a)[k] in a
  {
    if |x| < k < |x| + 1 + |a| {
      assert (x + ['-'] + a)[k] == a[k - |x| - 1];
    }
  }

  lemma {:induction false} LastDash(x: string, a: string, y: string, b: string)
    requires '-' !in a && '-' !in b
    requires x + ['-'] + a == y + ['-'] + b
    ensures x == y && a == b
  {
    var s := x + ['-'] + a;
    assert s[|x|] == '-' && s[|y|] == '-';
    AfterDash(x, a, |y|);
    AfterDash(y, b, |x|);
    assert s[..|x|] == x && s[..|y|] == y;
    assert s[|x| + 1..] == a && s[|y| + 1..] == b;
  }

  /** Retry uuids determine the parent and the attempt. */
  lemma RetryUuidInjective(u: string, m: nat, v: string, n: nat)
    ensures RetryUuid(u, m) == RetryUuid(v, n) <==> u == v && m == n
  {
    if RetryUuid(u, m) == RetryUuid(v, n) {
      Timestamp.PadIsNumber(m, 0);
      Timestamp.PadIsNumber(n, 0);
      LastDash(u + "-retry", Timestamp.Pad(m, 0), v + "-retry", Timestamp.Pad(n, 0));
      assert |u| == |v|;
      assert (u + "-retry")[..|u|] == u && (v + "-retry")[..|v|] == v;
    }
  }

  // ---------------------------------------------------------------------------
  // The coordinator
  // ---------------------------------------------------------------------------

  /**
   * The watchlist and the seen set, and what happened so far: the uuids routed, in order, those
   * submitted from outside, those that were retried, the number of entries taken off by a
   * policy, and the retry budget of the tasks submitted.
   */
  datatype World = World(
    watch: map<string, Entry>,
    seen: set<string>,
    routed: seq<string>,
    submitted: set<string>,
    retried: set<string>,
    takenOff: nat,
    budget: nat
  )

  const START := World(map[], {}, [], {}, {}, 0, 0)

  /** The clock readings of a check, one for each entry it looks at and each task it reposts. */
  type Clock = map<string, int>

  function At(clock: Clock, uuid: string): int {
    if uuid in clock then clock[uuid] else 0
  }

  /** `handle_task_event`: `ok` says whether the room lookup and the routing succeed. */
  function Handle(w: World, task: Task, now: int, ok: bool): World {
    if task.uuid in w.seen then w
    else
      w.(seen := w.seen + {task.uuid},
         routed := w.routed + [task.uuid],
         watch := if ok then w.watch[task.uuid := Entry(task, None, now, AttemptOf(task), None)] else w.watch)
  }

  /** A task reposted by a check. */
  function HandleAt(w: World, task: Task, clock: Clock, routeFails: set<string>): World {
    Handle(w, task, At(clock, task.uuid), task.uuid !in routeFails)
  }

  function HandleAll(w: World, tasks: seq<Task>, clock: Clock, routeFails: set<string>): World
    decreases tasks
  {
    if tasks == [] then w
    else HandleAll(HandleAt(w, tasks[0], clock, routeFails), tasks[1..], clock, routeFails)
  }

  /** The entries a check takes off the watchlist, in iteration order. */
  function ToRemove(watch: map<string, Entry>, order: seq<string>, clock: Clock, sendFails: set<string>): seq<string> {
    if order == [] then []
    else
      var u := order[|order| - 1];
      var before := ToRemove(watch, order[..|order| - 1], clock, sendFails);
      if u in watch && !Decide(watch[u], At(clock, u), u in sendFails).Keep? then before + [u] else before
  }

  function ToRepost(watch: map<string, Entry>, order: seq<string>, clock: Clock, sendFails: set<string>): seq<Task> {
    if order == [] then []
    else
      var u := order[|order| - 1];
      var before := ToRepost(watch, order[..|order| - 1], clock, sendFails);
      if u in watch && Decide(watch[u], At(clock, u), u in sendFails).Retry?
      then before + [Decide(watch[u], At(clock, u), u in sendFails).task] else before
  }

  /** One more entry of a scan. */
  lemma ScanSnoc(watch: map<string, Entry>, order: seq<string>, k: nat, clock: Clock, sendFails: set<string>)
    requires k < |order| && order[k] in watch
    ensures var u := order[k];
      var decision := Decide(watch[u], At(clock, u), u in sendFails);
      && ToRemove(watch, order[..k + 1], clock, sendFails)
         == (var before := ToRemove(watch, order[..k], clock, sendFails);
             if decision.Keep? then before else before + [u])
      && ToRepost(watch, order[..k + 1], clock, sendFails)
         == (var before := ToRepost(watch, order[..k], clock, sendFails);
             if decision.Retry? then before + [decision.task] else before)
  {
    hide Decide;
    assert order[..k + 1][..k] == order[..k];
  }

  function Elements(s: seq<string>): set<string> {
    set x | x in s
  }

  /** The entries that are retried by a check. */
  function Retrying(watch: map<string, Entry>, order: seq<string>, clock: Clock, sendFails: set<string>): set<string> {
    set u | u in order && u in watch && Decide(watch[u], At(clock, u), u in sendFails).Retry?
  }

  datatype Action =
    | Submit(task: Task, now: int, ok: bool)
    | Claim(uuid: string, now: int)
    | Heartbeat(uuid: string, now: int, progress: Option<string>)
    | Result(uuid: string)
    | Check(order: seq<string>, clock: Clock, sendFails: set<string>, routeFails: set<string>)

  /** `order` lists the watchlist once each, in some order. */
  ghost predicate Enabled(w: World, a: Action) {
    a.Check? ==> NoRepeats(a.order) && Elements(a.order) == w.watch.Keys
  }

  ghost predicate NoRepeats(s: seq<string>) {
    forall i, j :: 0 <= i < j < |s| ==> s[i] != s[j]
  }

  function Swept(w: World, order: seq<string>, clock: Clock, sendFails: set<string>): World {
    var gone := ToRemove(w.watch, order, clock, sendFails);
    w.(watch := w.watch - Elements(gone),
       retried := w.retried + Retrying(w.watch, order, clock, sendFails),
       takenOff := w.takenOff + |gone|)
  }

  function Step(w: World, a: Action): World {
    match a
    case Submit(task, now, ok) =>
      Handle(w, task, now, ok).(
        submitted := w.submitted + {task.uuid},
        budget := w.budget + Weight(task, AttemptOf(task)))
    case Claim(uuid, now) =>
      if uuid in w.watch then w.(watch := w.watch[uuid := w.watch[uuid].(claimedAt := Some(now))]) else w
    case Heartbeat(uuid, now, progress) =>
      if uuid in w.watch then
        var e := w.watch[uuid].(lastHeartbeat := now);
        w.(watch := w.watch[uuid := if progress.Some? then e.(lastProgress := progress) else e])
      else w
    case Result(uuid) => w.(watch := w.watch - {uuid})
    case Check(order, clock, sendFails, routeFails) =>
      HandleAll(Swept(w, order, clock, sendFails), ToRepost(w.watch, order, clock, sendFails), clock, routeFails)
  }

  ghost predicate Runs(w: World, actions: seq<Action>, w': World)
    decreases actions
  {
    if actions == [] then w' == w
    else Enabled(w, actions[0]) && Runs(Step(w, actions[0]), actions[1..], w')
  }

  // ---------------------------------------------------------------------------
  // No uuid is routed twice
  // ---------------------------------------------------------------------------

  ghost predicate RoutedOnce(w: World) {
    && NoRepeats(w.routed)
    && Elements(w.routed) == w.seen
    && w.watch.Keys <= w.seen
    && forall u :: u in w.watch ==> w.watch[u].task.uuid == u && w.watch[u].attempt == AttemptOf(w.watch[u].task)
  }

  lemma HandleOnce(w: World, task: Task, now: int, ok: bool)
    requires RoutedOnce(w)
    ensures RoutedOnce(Handle(w, task, now, ok))
  {
    if task.uuid !in w.seen {
      assert task.uuid in w.routed <==> task.uuid in Elements(w.routed);
    }
  }

  lemma {:induction false} HandleAllOnce(w: World, tasks: seq<Task>, clock: Clock, routeFails: set<string>)
    requires RoutedOnce(w)
    ensures RoutedOnce(HandleAll(w, tasks, clock, routeFails))
    decreases tasks
  {
    if tasks != [] {
      HandleOnce(w, tasks[0], At(clock, tasks[0].uuid), tasks[0].uuid !in routeFails);
      HandleAllOnce(HandleAt(w, tasks[0], clock, routeFails), tasks[1..], clock, routeFails);
    }
  }

  lemma StepOnce(w: World, a: Action)
    requires RoutedOnce(w)
    ensures RoutedOnce(Step(w, a))
  {
    match a
    case Submit(task, now, ok) => HandleOnce(w, task, now, ok);
    case Check(order, clock, sendFails, routeFails) =>
      HandleAllOnce(Swept(w, order, clock, sendFails), ToRepost(w.watch, order, clock, sendFails), clock, routeFails);
    case _ =>
  }

  lemma {:induction false} RunOnce(w: World, actions: seq<Action>, w': World)
    requires RoutedOnce(w) && Runs(w, actions, w')
    ensures RoutedOnce(w')
    decreases actions
  {
    if actions != [] {
      StepOnce(w, actions[0]);
      RunOnce(Step(w, actions[0]), actions[1..], w');
    }
  }

  /** In every run, no uuid is routed twice. */
  lemma NeverRoutedTwice(actions: seq<Action>, w: World)
    requires Runs(START, actions, w)
    ensures NoRepeats(w.routed)
  {
    RunOnce(START, actions, w);
  }

  // ---------------------------------------------------------------------------
  // Retries terminate
  // ---------------------------------------------------------------------------

  /** How often policies can still fire for a task: once more than the attempts left. */
  function Weight(task: Task, attempt: u8): nat {
    1 + if Limit(task) > attempt then Limit(task) - attempt else 0
  }

  ghost function Total(watch: map<string, Entry>): nat
    decreases |watch|
  {
    if watch == map[] then 0
    else
      var u :| u in watch;
      assert |watch - {u}| < |watch| by { MapShrinks(watch, u); }
      Weight(watch[u].task, watch[u].attempt) + Total(watch - {u})
  }

  lemma MapShrinks(watch: map<string, Entry>, u: string)
    requires u in watch
    ensures |watch - {u}| == |watch| - 1
  {
    assert (watch - {u}).Keys == watch.Keys - {u};
    assert |(watch - {u}).Keys| == |watch.Keys| - 1;
  }

  lemma {:induction false} TotalRemove(watch: map<string, Entry>, u: string)
    requires u in watch
    ensures Total(watch) == Weight(watch[u].task, watch[u].attempt) + Total(watch - {u})
    decreases |watch|
  {
    var v :| v in watch && Total(watch) == Weight(watch[v].task, watch[v].attempt) + Total(watch - {v});
    if v != u {
      MapShrinks(watch, v);
      MapShrinks(watch, u);
      TotalRemove(watch - {v}, u);
      TotalRemove(watch - {u}, v);
      assert watch - {v} - {u} == watch - {u} - {v};
    }
  }

  lemma TotalInsert(watch: map<string, Entry>, u: string, e: Entry)
    requires u !in watch
    ensures Total(watch[u := e]) == Total(watch) + Weight(e.task, e.attempt)
  {
    TotalRemove(watch[u := e], u);
    assert watch[u := e] - {u} == watch;
  }

  lemma TotalUpdate(watch: map<string, Entry>, u: string, e: Entry)
    requires u in watch && e.task == watch[u].task && e.attempt == watch[u].attempt
    ensures Total(watch[u := e]) == Total(watch)
  {
    TotalRemove(watch, u);
    TotalRemove(watch[u := e], u);
    assert watch[u := e] - {u} == watch - {u};
  }

  function Weights(tasks: seq<Task>): nat {
    if tasks == [] then 0 else Weights(tasks[..|tasks| - 1]) + Weight(tasks[|tasks| - 1], AttemptOf(tasks[|tasks| - 1]))
  }

  lemma {:induction false} WeightsCons(t: Task, tasks: seq<Task>)
    ensures Weights([t] + tasks) == Weight(t, AttemptOf(t)) + Weights(tasks)
    decreases tasks
  {
    if tasks == [] {
      assert ([t] + tasks)[..0] == [];
    } else {
      var init := tasks[..|tasks| - 1];
      assert ([t] + tasks)[..|tasks|] == [t] + init;
      WeightsCons(t, init);
    }
  }

  lemma {:induction false} RemovedAreListed(
    watch: map<string, Entry>, order: seq<string>, clock: Clock, sendFails: set<string>)
    ensures forall u :: u in ToRemove(watch, order, clock, sendFails) <==>
      u in order && u in watch && !Decide(watch[u], At(clock, u), u in sendFails).Keep?
    decreases order
  {
    hide Decide;
    if order != [] {
      var init := order[..|order| - 1];
      RemovedAreListed(watch, init, clock, sendFails);
      assert order == init + [order[|order| - 1]];
    }
  }

  lemma DecisionPays(e: Entry, now: int, sendFails: bool)
    ensures match Decide(e, now, sendFails)
      case Retry(t) => Weight(t, AttemptOf(t)) + 1 <= Weight(e.task, e.attempt)
      case _ => 1 <= Weight(e.task, e.attempt)
  {
    if Decide(e, now, sendFails).Retry? {
      RetryRaisesAttempt(e, now, sendFails);
    }
  }

  /** What a sweep takes off the watchlist pays for itself and for the tasks reposted. */
  lemma {:induction false} SweepPays(
    watch: map<string, Entry>, order: seq<string>, clock: Clock, sendFails: set<string>)
    requires NoRepeats(order)
    ensures var gone := ToRemove(watch, order, clock, sendFails);
      Total(watch - Elements(gone)) + |gone| + Weights(ToRepost(watch, order, clock, sendFails)) <= Total(watch)
    decreases order
  {
    hide Decide, Weight, Total;
    if order == [] {
      assert Elements([]) == {};
      assert watch - {} == watch;
    } else {
      var init, u := order[..|order| - 1], order[|order| - 1];
      SweepPays(watch, init, clock, sendFails);
      var before, posts := ToRemove(watch, init, clock, sendFails), ToRepost(watch, init, clock, sendFails);
      RemovedAreListed(watch, init, clock, sendFails);
      assert u !in before;
      if u in watch && !Decide(watch[u], At(clock, u), u in sendFails).Keep? {
        var rest := watch - Elements(before);
        assert watch - Elements(before + [u]) == rest - {u};
        TotalRemove(rest, u);
        DecisionPays(watch[u], At(clock, u), u in sendFails);
        if Decide(watch[u], At(clock, u), u in sendFails).Retry? {
          var t := Decide(watch[u], At(clock, u), u in sendFails).task;
          assert (posts + [t])[..|posts|] == posts;
        }
      }
    }
  }

  lemma {:induction false} HandleAllCosts(w: World, tasks: seq<Task>, clock: Clock, routeFails: set<string>)
    requires w.watch.Keys <= w.seen
    ensures var w' := HandleAll(w, tasks, clock, routeFails);
      Total(w'.watch) <= Total(w.watch) + Weights(tasks) && w'.takenOff == w.takenOff && w'.budget == w.budget
    decreases tasks
  {
    if tasks != [] {
      var t := tasks[0];
      var w1 := HandleAt(w, t, clock, routeFails);
      HandleCosts(w, t, At(clock, t.uuid), t.uuid !in routeFails);
      HandleAllCosts(w1, tasks[1..], clock, routeFails);
      assert tasks == [t] + tasks[1..];
      WeightsCons(t, tasks[1..]);
    }
  }

  lemma HandleCosts(w: World, task: Task, now: int, ok: bool)
    requires w.watch.Keys <= w.seen
    ensures Total(Handle(w, task, now, ok).watch) <= Total(w.watch) + Weight(task, AttemptOf(task))
  {
    if task.uuid !in w.seen {
      TotalInsert(w.watch, task.uuid, Entry(task, None, now, AttemptOf(task), None));
    }
  }

  ghost predicate WithinBudget(w: World) {
    w.takenOff + Total(w.watch) <= w.budget
  }

  lemma StepWithinBudget(w: World, a: Action)
    requires RoutedOnce(w) && WithinBudget(w) && Enabled(w, a)
    ensures WithinBudget(Step(w, a))
  {
    match a
    case Submit(task, now, ok) => HandleCosts(w, task, now, ok);
    case Claim(uuid, now) =>
      if uuid in w.watch { TotalUpdate(w.watch, uuid, Step(w, a).watch[uuid]); }
    case Heartbeat(uuid, now, progress) =>
      if uuid in w.watch { TotalUpdate(w.watch, uuid, Step(w, a).watch[uuid]); }
    case Result(uuid) =>
      if uuid in w.watch { TotalRemove(w.watch, uuid); } else { assert w.watch - {uuid} == w.watch; }
    case Check(order, clock, sendFails, routeFails) =>
      SweepPays(w.watch, order, clock, sendFails);
      HandleAllCosts(Swept(w, order, clock, sendFails), ToRepost(w.watch, order, clock, sendFails), clock, routeFails);
  }

  lemma {:induction false} RunWithinBudget(w: World, actions: seq<Action>, w': World)
    requires RoutedOnce(w) && WithinBudget(w) && Runs(w, actions, w')
    ensures WithinBudget(w')
    decreases actions
  {
    if actions != [] {
      StepWithinBudget(w, actions[0]);
      StepOnce(w, actions[0]);
      RunWithinBudget(Step(w, actions[0]), actions[1..], w');
    }
  }

  /** The tasks submitted from outside, in order. */
  function Submitted(actions: seq<Action>): seq<Task> {
    if actions == [] then []
    else if actions[0].Submit? then [actions[0].task] + Submitted(actions[1..])
    else Submitted(actions[1..])
  }

  lemma {:induction false} BudgetIs(w: World, actions: seq<Action>, w': World)
    requires Runs(w, actions, w')
    ensures w'.budget == w.budget + Weights(Submitted(actions))
    decreases actions
  {
    if actions != [] {
      var a := actions[0];
      BudgetIs(Step(w, a), actions[1..], w');
      if a.Submit? {
        WeightsCons(a.task, Submitted(actions[1..]));
      } else if a.Check? {
        var posts := ToRepost(w.watch, a.order, a.clock, a.sendFails);
        SameBudget(Swept(w, a.order, a.clock, a.sendFails), posts, a.clock, a.routeFails);
      }
    }
  }

  /** One more than the larger limit of each task's two policies, added up. */
  function Limits(tasks: seq<Task>): nat {
    if tasks == [] then 0 else 1 + Limit(tasks[0]) + Limits(tasks[1..])
  }

  lemma {:induction false} WeightsWithinLimits(tasks: seq<Task>)
    ensures Weights(tasks) <= Limits(tasks)
  {
    if tasks != [] {
      WeightsWithinLimits(tasks[1..]);
      WeightsCons(tasks[0], tasks[1..]);
      assert [tasks[0]] + tasks[1..] == tasks;
    }
  }

  lemma {:induction false} SameBudget(w: World, tasks: seq<Task>, clock: Clock, routeFails: set<string>)
    ensures HandleAll(w, tasks, clock, routeFails).budget == w.budget
    decreases tasks
  {
    if tasks != [] {
      SameBudget(HandleAt(w, tasks[0], clock, routeFails), tasks[1..], clock, routeFails);
    }
  }

  /**
   * Retries terminate: in every run, along any mix of timeouts and missed heartbeats, policies
   * take entries off the watchlist at most once for each task submitted from outside and once more
   * for each attempt it has left below the larger limit of its own two policies.
   */
  lemma RetriesTerminate(actions: seq<Action>, w: World)
    requires Runs(START, actions, w)
    ensures w.takenOff <= Weights(Submitted(actions)) <= Limits(Submitted(actions))
  {
    RunWithinBudget(START, actions, w);
    BudgetIs(START, actions, w);
    WeightsWithinLimits(Submitted(actions));
  }

  /**
   * Only entries taken off are bounded. A policy that does not respawn and whose message cannot be
   * sent is applied again by every check: where all decisions are to keep the entry, a check
   * changes nothing.
   */
  lemma UnsentPolicyRepeats(w: World, check: Action)
    requires check.Check?
    requires forall u :: u in check.order && u in w.watch ==>
      Decide(w.watch[u], At(check.clock, u), u in check.sendFails).Keep?
    ensures Step(w, check) == w
  {
    NothingToDo(w, check.order, check.clock, check.sendFails);
    hide Decide, ToRemove, ToRepost;
    assert w.watch - Elements([]) == w.watch;
    assert w.retried + {} == w.retried;
  }

  lemma {:induction false} NothingToDo(w: World, order: seq<string>, clock: Clock, sendFails: set<string>)
    requires forall u :: u in order && u in w.watch ==> Decide(w.watch[u], At(clock, u), u in sendFails).Keep?
    ensures ToRemove(w.watch, order, clock, sendFails) == [] && ToRepost(w.watch, order, clock, sendFails) == []
    ensures Retrying(w.watch, order, clock, sendFails) == {}
    decreases order
  {
    hide Decide;
    if order != [] {
      NothingToDo(w, order[..|order| - 1], clock, sendFails);
      assert order[|order| - 1] in order;
    }
  }

  // ---------------------------------------------------------------------------
  // Retries are not lost
  // ---------------------------------------------------------------------------

  /** A uuid known but not submitted is the retry of a task that was retried and is gone. */
  ghost predicate Lineage(w: World) {
    && w.retried <= w.seen
    && w.retried !! w.watch.Keys
    && forall u :: u in w.seen && u !in w.submitted ==>
         exists parent, n: nat :: parent in w.retried && u == RetryUuid(parent, n)
  }

  ghost predicate IsRetryOf(t: Task, parents: set<string>) {
    exists parent :: parent in parents && t.uuid == RetryUuid(parent, AttemptOf(t))
  }

  lemma {:induction false} RepostsAreRetries(w: World, order: seq<string>, clock: Clock, sendFails: set<string>)
    requires RoutedOnce(w)
    ensures forall t :: t in ToRepost(w.watch, order, clock, sendFails) ==>
      IsRetryOf(t, Retrying(w.watch, order, clock, sendFails))
    decreases order
  {
    hide Decide, RetryUuid;
    if order != [] {
      var init, u := order[..|order| - 1], order[|order| - 1];
      RepostsAreRetries(w, init, clock, sendFails);
      assert Retrying(w.watch, init, clock, sendFails) <= Retrying(w.watch, order, clock, sendFails);
      if u in w.watch && Decide(w.watch[u], At(clock, u), u in sendFails).Retry? {
        RetryRaisesAttempt(w.watch[u], At(clock, u), u in sendFails);
        assert u in Retrying(w.watch, order, clock, sendFails);
      }
    }
  }

  lemma RepostDiffers(w: World, order: seq<string>, clock: Clock, sendFails: set<string>, u: string, earlier: Task)
    requires RoutedOnce(w) && u !in order && u in w.watch && Decide(w.watch[u], At(clock, u), u in sendFails).Retry?
    requires earlier in ToRepost(w.watch, order, clock, sendFails)
    ensures earlier.uuid != Decide(w.watch[u], At(clock, u), u in sendFails).task.uuid
  {
    hide Decide, RetryUuid, ToRepost;
    var t := Decide(w.watch[u], At(clock, u), u in sendFails).task;
    RetryRaisesAttempt(w.watch[u], At(clock, u), u in sendFails);
    RepostsAreRetries(w, order, clock, sendFails);
    var p :| p in Retrying(w.watch, order, clock, sendFails) && earlier.uuid == RetryUuid(p, AttemptOf(earlier));
    RetryUuidInjective(p, AttemptOf(earlier), u, AttemptOf(t));
  }

  ghost predicate DistinctUuids(tasks: seq<Task>) {
    forall i, j :: 0 <= i < j < |tasks| ==> tasks[i].uuid != tasks[j].uuid
  }

  lemma {:induction false} RepostsDiffer(w: World, order: seq<string>, clock: Clock, sendFails: set<string>)
    requires RoutedOnce(w) && NoRepeats(order)
    ensures DistinctUuids(ToRepost(w.watch, order, clock, sendFails))
    decreases order
  {
    hide Decide;
    if order != [] {
      var init, u := order[..|order| - 1], order[|order| - 1];
      RepostsDiffer(w, init, clock, sendFails);
      var before, posts := ToRepost(w.watch, init, clock, sendFails), ToRepost(w.watch, order, clock, sendFails);
      if u in w.watch && Decide(w.watch[u], At(clock, u), u in sendFails).Retry? {
        forall k | 0 <= k < |before| ensures before[k].uuid != posts[|before|].uuid {
          RepostDiffers(w, init, clock, sendFails, u, before[k]);
        }
        assert posts == before + [posts[|before|]];
      } else {
        assert posts == before;
      }
    }
  }

  lemma HandleLineage(w: World, task: Task, now: int, ok: bool)
    requires Lineage(w) && IsRetryOf(task, w.retried)
    ensures Lineage(Handle(w, task, now, ok))
  {
    hide RetryUuid;
    var w' := Handle(w, task, now, ok);
    forall u | u in w'.seen && u !in w'.submitted
      ensures exists parent, n: nat :: parent in w'.retried && u == RetryUuid(parent, n)
    {
      if u == task.uuid {
        var p :| p in w.retried && task.uuid == RetryUuid(p, AttemptOf(task));
      }
    }
  }

  lemma {:induction false} HandleAllLineage(w: World, tasks: seq<Task>, clock: Clock, routeFails: set<string>)
    requires Lineage(w) && forall t :: t in tasks ==> IsRetryOf(t, w.retried)
    ensures Lineage(HandleAll(w, tasks, clock, routeFails))
    ensures w.seen <= HandleAll(w, tasks, clock, routeFails).seen
    ensures forall t :: t in tasks ==> t.uuid in HandleAll(w, tasks, clock, routeFails).seen
    decreases tasks
  {
    hide IsRetryOf, Lineage;
    if tasks != [] {
      HandleLineage(w, tasks[0], At(clock, tasks[0].uuid), tasks[0].uuid !in routeFails);
      HandleAllLineage(HandleAt(w, tasks[0], clock, routeFails), tasks[1..], clock, routeFails);
    }
  }

  lemma SweptLineage(w: World, order: seq<string>, clock: Clock, sendFails: set<string>)
    requires Lineage(w) && RoutedOnce(w)
    ensures Lineage(Swept(w, order, clock, sendFails))
    ensures forall t :: t in ToRepost(w.watch, order, clock, sendFails) ==>
      IsRetryOf(t, Swept(w, order, clock, sendFails).retried)
  {
    hide Decide, RetryUuid;
    RemovedAreListed(w.watch, order, clock, sendFails);
    RepostsAreRetries(w, order, clock, sendFails);
    var w' := Swept(w, order, clock, sendFails);
    forall u | u in w'.seen && u !in w'.submitted
      ensures exists parent, n: nat :: parent in w'.retried && u == RetryUuid(parent, n)
    {
      var p, n: nat :| p in w.retried && u == RetryUuid(p, n);
      assert p in w'.retried;
    }
  }

  lemma StepLineage(w: World, a: Action)
    requires RoutedOnce(w) && Lineage(w) && w.submitted <= w.seen
    ensures Lineage(Step(w, a))
  {
    hide RetryUuid;
    match a
    case Submit(task, now, ok) =>
      var w' := Step(w, a);
      forall u | u in w'.seen && u !in w'.submitted
        ensures exists parent, n: nat :: parent in w'.retried && u == RetryUuid(parent, n)
      {
        assert u in w.seen && u !in w.submitted;
      }
    case Check(order, clock, sendFails, routeFails) =>
      SweptLineage(w, order, clock, sendFails);
      var posts := ToRepost(w.watch, order, clock, sendFails);
      HandleAllLineage(Swept(w, order, clock, sendFails), posts, clock, routeFails);
    case _ =>
  }

  lemma {:induction false} KeepsSubmitted(w: World, tasks: seq<Task>, clock: Clock, routeFails: set<string>)
    ensures HandleAll(w, tasks, clock, routeFails).submitted == w.submitted
    ensures w.seen <= HandleAll(w, tasks, clock, routeFails).seen
    decreases tasks
  {
    if tasks != [] {
      KeepsSubmitted(HandleAt(w, tasks[0], clock, routeFails), tasks[1..], clock, routeFails);
    }
  }

  lemma SubmittedAreSeen(w: World, a: Action)
    requires w.submitted <= w.seen
    ensures Step(w, a).submitted <= Step(w, a).seen
  {
    if a.Check? {
      var posts := ToRepost(w.watch, a.order, a.clock, a.sendFails);
      KeepsSubmitted(Swept(w, a.order, a.clock, a.sendFails), posts, a.clock, a.routeFails);
    }
  }

  lemma {:induction false} RunLineage(w: World, actions: seq<Action>, w': World)
    requires RoutedOnce(w) && Lineage(w) && w.submitted <= w.seen && Runs(w, actions, w')
    ensures RoutedOnce(w') && Lineage(w') && w'.submitted <= w'.seen
    decreases actions
  {
    hide Step, Lineage, RoutedOnce;
    if actions != [] {
      StepOnce(w, actions[0]);
      StepLineage(w, actions[0]);
      SubmittedAreSeen(w, actions[0]);
      RunLineage(Step(w, actions[0]), actions[1..], w');
    }
  }

  /** A retry's uuid was seen before exactly if somebody submitted it. */
  lemma RetryIsNew(w: World, order: seq<string>, clock: Clock, sendFails: set<string>, t: Task)
    requires RoutedOnce(w) && Lineage(w) && w.submitted <= w.seen
    requires t in ToRepost(w.watch, order, clock, sendFails)
    ensures t.uuid in w.seen <==> t.uuid in w.submitted
  {
    hide RetryUuid, Decide, ToRepost;
    RepostsAreRetries(w, order, clock, sendFails);
    if t.uuid in w.seen && t.uuid !in w.submitted {
      var p :| p in Retrying(w.watch, order, clock, sendFails) && t.uuid == RetryUuid(p, AttemptOf(t));
      var q, n: nat :| q in w.retried && t.uuid == RetryUuid(q, n);
      RetryUuidInjective(p, AttemptOf(t), q, n);
    }
  }

  /**
   * No retry is lost: in every reachable state, the tasks a check reposts have different uuids,
   * and each is routed by that check unless somebody submitted its uuid from outside before,
   * which is also exactly when its uuid was already seen.
   */
  lemma RetryNotLost(actions: seq<Action>, w: World, check: Action)
    requires Runs(START, actions, w) && check.Check? && Enabled(w, check)
    ensures var posts := ToRepost(w.watch, check.order, check.clock, check.sendFails);
      && DistinctUuids(posts)
      && forall t :: t in posts ==>
           && (t.uuid in w.seen <==> t.uuid in w.submitted)
           && t.uuid in Step(w, check).routed
  {
    RunLineage(START, actions, w);
    var Check(order, clock, sendFails, routeFails) := check;
    var posts := ToRepost(w.watch, order, clock, sendFails);
    RepostsDiffer(w, order, clock, sendFails);
    SweptLineage(w, order, clock, sendFails);
    HandleAllLineage(Swept(w, order, clock, sendFails), posts, clock, routeFails);
    StepOnce(w, check);
    assert forall t :: t in posts ==> t.uuid in Step(w, check).seen;
    hide Lineage, Step, ToRepost;
    forall t | t in posts
      ensures (t.uuid in w.seen <==> t.uuid in w.submitted) && t.uuid in Step(w, check).routed
    {
      RetryIsNew(w, order, clock, sendFails, t);
      assert t.uuid in Elements(Step(w, check).routed);
    }
  }

  // ---------------------------------------------------------------------------
  // The imperative coordinator
  // ---------------------------------------------------------------------------

  lemma {:induction false} HandleAllSnoc(w: World, tasks: seq<Task>, t: Task, clock: Clock, routeFails: set<string>)
    ensures HandleAll(w, tasks + [t], clock, routeFails)
         == HandleAt(HandleAll(w, tasks, clock, routeFails), t, clock, routeFails)
    decreases tasks
  {
    hide Handle;
    if tasks == [] {
      assert (tasks + [t])[1..] == [];
      var w1 := HandleAt(w, t, clock, routeFails);
      assert HandleAll(w1, [], clock, routeFails) == w1;
    } else {
      assert (tasks + [t])[0] == tasks[0] && (tasks + [t])[1..] == tasks[1..] + [t];
      HandleAllSnoc(HandleAt(w, tasks[0], clock, routeFails), tasks[1..], t, clock, routeFails);
    }
  }

  class CoordinatorBot {
    var watchlist: map<string, Entry>
    var seenTaskUuids: set<string>
    ghost var world: World

    ghost predicate Valid()
      reads this
    {
      world.watch == watchlist && world.seen == seenTaskUuids
    }

    constructor ()
      ensures Valid() && world == START
    {
      watchlist, seenTaskUuids, world := map[], {}, START;
    }

    method Submitted(task: Task, now: int, ok: bool)
      requires Valid()
      modifies this
      ensures Valid() && world == Step(old(world), Submit(task, now, ok))
    {
      HandleTaskEvent(task, now, ok);
      world := world.(submitted := world.submitted + {task.uuid},
                      budget := world.budget + Weight(task, AttemptOf(task)));
    }

    method HandleTaskEvent(task: Task, now: int, ok: bool)
      requires Valid()
      modifies this
      ensures Valid() && world == Handle(old(world), task, now, ok)
    {
      world := Handle(world, task, now, ok);
      if task.uuid in seenTaskUuids { return; }
      seenTaskUuids := seenTaskUuids + {task.uuid};
      if !ok { return; }
      watchlist := watchlist[task.uuid := Entry(task, None, now, AttemptOf(task), None)];
    }

    method HandleClaim(uuid: string, now: int)
      requires Valid()
      modifies this
      ensures Valid() && world == Step(old(world), Claim(uuid, now))
    {
      world := Step(world, Claim(uuid, now));
      if uuid in watchlist {
        watchlist := watchlist[uuid := watchlist[uuid].(claimedAt := Some(now))];
      }
    }

    method HandleHeartbeat(uuid: string, now: int, progress: Option<string>)
      requires Valid()
      modifies this
      ensures Valid() && world == Step(old(world), Heartbeat(uuid, now, progress))
    {
      world := Step(world, Heartbeat(uuid, now, progress));
      if uuid in watchlist {
        var e := watchlist[uuid].(lastHeartbeat := now);
        if progress.Some? {
          e := e.(lastProgress := progress);
        }
        watchlist := watchlist[uuid := e];
      }
    }

    method HandleResult(uuid: string)
      requires Valid()
      modifies this
      ensures Valid() && world == Step(old(world), Result(uuid))
    {
      world := Step(world, Result(uuid));
      watchlist := watchlist - {uuid};
    }

    /** Collects the entries to drop and the tasks to repost, drops the former, reposts the latter. */
    method CheckWatchlist(order: seq<string>, clock: Clock, sendFails: set<string>, routeFails: set<string>)
      requires Valid() && Enabled(world, Check(order, clock, sendFails, routeFails))
      modifies this
      ensures Valid() && world == Step(old(world), Check(order, clock, sendFails, routeFails))
    {
      var toRemove, toRepost := Scan(order, clock, sendFails);
      Drop(toRemove);
      world := Swept(world, order, clock, sendFails);
      Repost(toRepost, clock, routeFails);
    }

    method Drop(toRemove: seq<string>)
      modifies this`watchlist
      ensures watchlist == old(watchlist) - Elements(toRemove)
    {
      for k := 0 to |toRemove|
        invariant watchlist == old(watchlist) - Elements(toRemove[..k])
      {
        assert Elements(toRemove[..k + 1]) == Elements(toRemove[..k]) + {toRemove[k]};
        watchlist := watchlist - {toRemove[k]};
      }
      assert toRemove[..|toRemove|] == toRemove;
    }

    method Repost(toRepost: seq<Task>, clock: Clock, routeFails: set<string>)
      requires Valid()
      modifies this
      ensures Valid() && world == HandleAll(old(world), toRepost, clock, routeFails)
    {
      for k := 0 to |toRepost|
        invariant Valid() && world == HandleAll(old(world), toRepost[..k], clock, routeFails)
      {
        assert toRepost[..k + 1] == toRepost[..k] + [toRepost[k]];
        HandleAllSnoc(old(world), toRepost[..k], toRepost[k], clock, routeFails);
        HandleTaskEvent(toRepost[k], At(clock, toRepost[k].uuid), toRepost[k].uuid !in routeFails);
      }
      assert toRepost[..|toRepost|] == toRepost;
    }

    /** Collects the overdue entries to drop and the tasks to repost. */
    method Scan(order: seq<string>, clock: Clock, sendFails: set<string>)
      returns (toRemove: seq<string>, toRepost: seq<Task>)
      requires forall u :: u in order ==> u in watchlist
      ensures toRemove == ToRemove(watchlist, order, clock, sendFails)
      ensures toRepost == ToRepost(watchlist, order, clock, sendFails)
    {
      toRemove, toRepost := [], [];
      for k := 0 to |order|
        invariant toRemove == ToRemove(watchlist, order[..k], clock, sendFails)
        invariant toRepost == ToRepost(watchlist, order[..k], clock, sendFails)
      {
        var uuid := order[k];
        ScanSnoc(watchlist, order, k, clock, sendFails);
        hide ToRemove, ToRepost, Overdue, Respawned, Reason;
        var policy := Overdue(watchlist[uuid], At(clock, uuid));
        if policy.Some? {
          var respawned := Respawned(policy.value, watchlist[uuid], Reason(watchlist[uuid]));
          if respawned.Some? {
            toRepost := toRepost + [respawned.value];
            toRemove := toRemove + [uuid];
          } else if uuid !in sendFails {
            toRemove := toRemove + [uuid];
          }
        }
      }
      assert order[..|order|] == order;
    }
  }
}
