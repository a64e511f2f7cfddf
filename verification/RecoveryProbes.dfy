/**
 * The recovery probes that packages/core/multi-hs-client.js adds to the circuit breaker: a
 * server that goes down gets a timer, the timer starts a probe, and a failed probe a new timer.
 */
module RecoveryProbes {
  import opened Common
  import opened CircuitBreaker
  import opened SharedNames
  import MultiHsClient

  /** `timers` maps a server name to the index its callback captured. */
  datatype State = State(pool: Pool, timers: map<string, nat>, inFlight: multiset<nat>, running: bool)

  datatype Action =
    | Fail(i: nat, now: int)
    | Succeed(i: nat)
    | TimerFires(name: string)
    | ProbeOk(i: nat)
    | ProbeFails(i: nat)
    | Shutdown

  function StartProbe(s: State, i: nat): State
    requires i < |s.pool.servers|
  {
    var name := s.pool.servers[i].name;
    if name in s.timers then s else s.(timers := s.timers[name := i])
  }

  function OnFailure(s: State, i: nat, now: int): State
    requires i < |s.pool.servers|
  {
    var t := s.(pool := RecordFailure(s.pool, i, now));
    if Trips(s.pool, i, now) then StartProbe(t, i) else t
  }

  function OnSuccess(s: State, i: nat): State
    requires i < |s.pool.servers|
  {
    var name := s.pool.servers[i].name;
    s.(pool := RecordSuccess(s.pool, i),
       timers := if |s.pool.servers| > 1 && IsDown(s.pool.breakers, name) then s.timers - {name} else s.timers)
  }

  predicate Enabled(s: State, a: Action) {
    match a
    case Fail(i, _) => i < |s.pool.servers|
    case Succeed(i) => i < |s.pool.servers|
    case TimerFires(name) => name in s.timers
    case ProbeOk(i) => i in s.inFlight && i < |s.pool.servers|
    case ProbeFails(i) => i in s.inFlight && i < |s.pool.servers|
    case Shutdown => true
  }

  function Next(s: State, a: Action): State {
    if !Enabled(s, a) then s else
    match a
    case Fail(i, now) => OnFailure(s, i, now)
    case Succeed(i) => OnSuccess(s, i)
    case TimerFires(name) =>
      var t := s.(timers := s.timers - {name});
      if s.running then t.(inFlight := s.inFlight + multiset{s.timers[name]}) else t
    case ProbeOk(i) => OnSuccess(s.(inFlight := s.inFlight - multiset{i}), i)
    case ProbeFails(i) =>
      var t := s.(inFlight := s.inFlight - multiset{i});
      if s.running then StartProbe(t, i) else t
    case Shutdown => s.(running := false, timers := map[])
  }

  function Exec(s: State, actions: seq<Action>): State
    decreases actions
  {
    if actions == [] then s else Exec(Next(s, actions[0]), actions[1..])
  }

  function Initial(servers: seq<Server>, preferred: nat): State {
    State(Connected(servers, None, preferred), map[], multiset{}, true)
  }

  /** A name is being looked after: its timer is pending or a probe of one of its servers is on its way. */
  ghost predicate Watched(s: State, name: string) {
    name in s.timers || exists i :: i in s.inFlight && i < |s.pool.servers| && s.pool.servers[i].name == name
  }

  ghost predicate TimersKnowTheirServer(s: State) {
    forall name :: name in s.timers ==>
      s.timers[name] < |s.pool.servers| && s.pool.servers[s.timers[name]].name == name
  }

  ghost predicate DownAreWatched(s: State) {
    s.running ==> forall name :: IsDown(s.pool.breakers, name) ==> Watched(s, name)
  }

  ghost predicate Inv(s: State) {
    && TimersKnowTheirServer(s)
    && DownAreWatched(s)
    && (forall i :: 0 <= i < |s.pool.servers| ==> s.pool.servers[i].name in s.pool.breakers)
    && (|s.pool.servers| <= 1 ==> forall name :: !IsDown(s.pool.breakers, name))
  }

  /** A failure takes down at most the name it is about, and only if it trips. */
  lemma DownAfterFailure(p: Pool, i: nat, now: int)
    requires i < |p.servers|
    ensures var q := RecordFailure(p, i, now);
      && q.servers == p.servers && q.breakers.Keys == p.breakers.Keys
      && (|p.servers| <= 1 ==> q == p)
      && forall name :: IsDown(q.breakers, name) ==>
           IsDown(p.breakers, name) || (Trips(p, i, now) && name == p.servers[i].name)
  {
    hide Recent, Best, AllFailing;
  }

  lemma FailWatched(s: State, i: nat, now: int)
    requires Inv(s) && i < |s.pool.servers|
    ensures Inv(OnFailure(s, i, now))
  {
    hide RecordFailure, Trips, IsDown;
    DownAfterFailure(s.pool, i, now);
    var t := OnFailure(s, i, now);
    forall name | s.running && IsDown(t.pool.breakers, name) ensures Watched(t, name) {
      if IsDown(s.pool.breakers, name) {
        assert Watched(s, name);
      }
    }
  }

  lemma SuccessWatched(s: State, i: nat)
    requires Inv(s) && i < |s.pool.servers|
    ensures Inv(OnSuccess(s, i))
    ensures !IsDown(OnSuccess(s, i).pool.breakers, s.pool.servers[i].name)
  {
    var t := OnSuccess(s, i);
    forall name | s.running && IsDown(t.pool.breakers, name) ensures Watched(t, name) {
      assert IsDown(s.pool.breakers, name) && Watched(s, name);
    }
  }

  /** A probe may be forgotten once it has succeeded: its name is up again. */
  lemma ProbeOkWatched(s: State, i: nat)
    requires Inv(s) && i in s.inFlight && i < |s.pool.servers|
    ensures Inv(OnSuccess(s.(inFlight := s.inFlight - multiset{i}), i))
  {
    SuccessWatched(s, i);
    var before, t := OnSuccess(s, i), OnSuccess(s.(inFlight := s.inFlight - multiset{i}), i);
    hide RecordSuccess, IsDown;
    forall name | s.running && IsDown(t.pool.breakers, name) ensures Watched(t, name) {
      assert Watched(before, name);
    }
  }

  /** The timer's name is now watched by a probe. */
  lemma TimerWatched(s: State, name: string)
    requires Inv(s) && name in s.timers
    ensures Inv(Next(s, TimerFires(name)))
  {
    hide IsDown;
    var t := Next(s, TimerFires(name));
    forall n | s.running && IsDown(s.pool.breakers, n) ensures Watched(t, n) {
      assert Watched(s, n);
      if n == name {
        assert s.timers[name] in t.inFlight;
      } else if n !in s.timers {
        var i :| i in s.inFlight && i < |s.pool.servers| && s.pool.servers[i].name == n;
        assert i in t.inFlight;
      }
    }
  }

  /** A failed probe's name gets a timer again. */
  lemma ProbeFailsWatched(s: State, i: nat)
    requires Inv(s) && i in s.inFlight && i < |s.pool.servers|
    ensures Inv(Next(s, ProbeFails(i)))
  {
    hide IsDown;
    var t := Next(s, ProbeFails(i));
    forall n | s.running && IsDown(s.pool.breakers, n) ensures Watched(t, n) {
      assert Watched(s, n);
      if n !in s.timers && n != s.pool.servers[i].name {
        var k :| k in s.inFlight && k < |s.pool.servers| && s.pool.servers[k].name == n;
        assert k in t.inFlight;
      }
    }
  }

  lemma StepInv(s: State, a: Action)
    requires Inv(s)
    ensures Inv(Next(s, a))
  {
    hide RecordFailure, RecordSuccess, IsDown, OnFailure, OnSuccess, StartProbe;
    if Enabled(s, a) {
      match a
      case Fail(i, now) => FailWatched(s, i, now);
      case Succeed(i) => SuccessWatched(s, i);
      case TimerFires(name) => TimerWatched(s, name);
      case ProbeOk(i) => ProbeOkWatched(s, i);
      case ProbeFails(i) => ProbeFailsWatched(s, i);
      case Shutdown =>
    }
  }

  lemma {:induction false} ExecInv(s: State, actions: seq<Action>)
    requires Inv(s)
    ensures Inv(Exec(s, actions))
    decreases actions
  {
    if actions != [] {
      StepInv(s, actions[0]);
      ExecInv(Next(s, actions[0]), actions[1..]);
    }
  }

  /** What a step does to the breaker. */
  function PoolActions(s: State, a: Action): seq<CircuitBreaker.Action> {
    if !Enabled(s, a) then []
    else match a
      case Fail(i, now) => [CircuitBreaker.Fail(i, now)]
      case Succeed(i) => [CircuitBreaker.Succeed(i)]
      case ProbeOk(i) => [CircuitBreaker.Succeed(i)]
      case _ => []
  }

  lemma PoolStep(s: State, a: Action)
    ensures Next(s, a).pool == CircuitBreaker.Exec(s.pool, PoolActions(s, a))
  {
    hide RecordFailure, RecordSuccess, Trips, IsDown;
    if PoolActions(s, a) != [] {
      ExecOne(s.pool, PoolActions(s, a)[0]);
    }
  }

  /** The breaker of every run is a run of the breaker. */
  lemma {:induction false} PoolRun(s: State, actions: seq<Action>) returns (run: seq<CircuitBreaker.Action>)
    ensures Exec(s, actions).pool == CircuitBreaker.Exec(s.pool, run)
    decreases actions
  {
    run := [];
    if actions != [] {
      PoolStep(s, actions[0]);
      var rest := PoolRun(Next(s, actions[0]), actions[1..]);
      run := PoolActions(s, actions[0]) + rest;
      ExecAppend(s.pool, PoolActions(s, actions[0]), rest);
    }
  }

  /**
   * Over every run, with any order of calls, timers, probe results and a shutdown, and whatever
   * the names of the servers: while the client runs, no name that is down is forgotten. Some
   * server is always healthy, and if names are pairwise distinct or all the same, the preferred
   * one is.
   */
  lemma NoServerForgotten(servers: seq<Server>, preferred: nat, actions: seq<Action>)
    requires preferred < |servers|
    ensures var s := Exec(Initial(servers, preferred), actions);
      && s.pool.servers == servers && SomeHealthy(s.pool)
      && (DistinctNames(servers) || SameName(servers) ==> PreferredHealthy(s.pool))
      && (s.running ==> forall i :: 0 <= i < |servers| && IsDown(s.pool.breakers, servers[i].name) ==>
            Watched(s, servers[i].name))
  {
    var s := Initial(servers, preferred);
    assert forall i :: 0 <= i < |servers| ==> servers[i].name in Names(servers);
    ExecInv(s, actions);
    var run := PoolRun(s, actions);
    AlwaysSomeHealthy(servers, None, preferred, run);
    AlwaysHealthyIff(servers, None, preferred);
  }

  /** A success of a down server cancels its timer, and a shutdown all timers. */
  lemma TimersAreCancelled(s: State, i: nat)
    requires i < |s.pool.servers| && |s.pool.servers| > 1
    ensures IsDown(s.pool.breakers, s.pool.servers[i].name) ==>
      s.pool.servers[i].name !in Next(s, Action.Succeed(i)).timers
    ensures Next(s, Action.Shutdown).timers == map[] && !Next(s, Action.Shutdown).running
  {
  }

  /** A probe starts only with a timer of a running client, and is over with its result. */
  lemma ProbesStartAndEnd(s: State, a: Action)
    requires Enabled(s, a)
    ensures match a
      case TimerFires(name) =>
        && Next(s, a).timers == s.timers - {name}
        && Next(s, a).inFlight == (if s.running then s.inFlight + multiset{s.timers[name]} else s.inFlight)
      case ProbeOk(i) => Next(s, a).inFlight == s.inFlight - multiset{i}
      case ProbeFails(i) =>
        && Next(s, a).inFlight == s.inFlight - multiset{i}
        && (!s.running ==> Next(s, a).timers == s.timers)
      case _ => Next(s, a).inFlight == s.inFlight
    ensures Next(s, a).running == (s.running && a != Shutdown)
  {
    hide RecordFailure, RecordSuccess, Trips;
  }

  /** With distinct names, a name is watched exactly if its one server has a timer or a probe. */
  lemma WatchedServer(s: State, i: nat)
    requires DistinctNames(s.pool.servers) && i < |s.pool.servers|
    ensures Watched(s, s.pool.servers[i].name) <==> s.pool.servers[i].name in s.timers || i in s.inFlight
  {
  }

  class Client {
    const core: MultiHsClient.Client
    var recoveryTimers: map<string, nat>
    var inFlight: multiset<nat>
    var running: bool

    function Model(): State
      reads this, core
    {
      State(core.Model(), recoveryTimers, inFlight, running)
    }

    constructor (servers: seq<Server>, preferred: nat)
      ensures Model() == Initial(servers, preferred) && fresh(core)
    {
      core := new MultiHsClient.Client(servers, None, preferred);
      recoveryTimers, inFlight, running := map[], multiset{}, true;
    }

    method RecordFailure(i: nat, now: int)
      requires i < |core.servers|
      modifies this, core
      ensures Model() == Next(old(Model()), Action.Fail(i, now))
    {
      var trips := Trips(core.Model(), i, now);
      core.RecordFailure(i, now);
      if trips {
        StartRecoveryProbe(i);
      }
    }

    method RecordSuccess(i: nat)
      requires i < |core.servers|
      modifies this`recoveryTimers, core
      ensures Model() == Next(old(Model()), Action.Succeed(i))
    {
      var name := core.servers[i].name;
      var wasDown := |core.servers| > 1 && IsDown(core.breakers, name);
      core.RecordSuccess(i);
      if wasDown && name in recoveryTimers {
        recoveryTimers := recoveryTimers - {name};
      }
    }

    method StartRecoveryProbe(i: nat)
      requires i < |core.servers|
      modifies this`recoveryTimers
      ensures Model() == StartProbe(old(Model()), i)
    {
      var name := core.servers[i].name;
      if name in recoveryTimers { return; }
      recoveryTimers := recoveryTimers[name := i];
    }

    method OnRecoveryTimer(name: string)
      requires name in recoveryTimers
      modifies this
      ensures Model() == Next(old(Model()), TimerFires(name))
    {
      var i := recoveryTimers[name];
      recoveryTimers := recoveryTimers - {name};
      if !running { return; }
      inFlight := inFlight + multiset{i};
    }

    method OnProbe(i: nat, ok: bool)
      requires i in inFlight && i < |core.servers|
      modifies this, core
      ensures Model() == Next(old(Model()), if ok then ProbeOk(i) else ProbeFails(i))
    {
      inFlight := inFlight - multiset{i};
      if ok {
        RecordSuccess(i);
      } else if running {
        StartRecoveryProbe(i);
      }
    }

    method Shutdown()
      modifies this
      ensures Model() == Next(old(Model()), Action.Shutdown)
    {
      running := false;
      recoveryTimers := map[];
    }
  }
}
