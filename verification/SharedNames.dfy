/**
 * The circuit breaker of crates/mxdx-matrix/src/multi_hs.rs and packages/core/multi-hs-client.js
 * when entries may share a server name, and so a breaker. The JavaScript client takes its list of
 * servers as it is given, so nothing rules that out.
 */
module SharedNames {
  import opened Common
  import opened CircuitBreaker

  predicate SameName(servers: seq<Server>) {
    forall i, j :: 0 <= i < j < |servers| ==> servers[i].name == servers[j].name
  }

  // ---------------------------------------------------------------------------
  // What holds of every pool
  // ---------------------------------------------------------------------------

  ghost predicate SomeHealthy(p: Pool) {
    exists i :: 0 <= i < |p.servers|
      && p.servers[i].name in p.breakers && p.breakers[p.servers[i].name].status == Healthy
  }

  ghost predicate AnyNames(p: Pool) {
    && (forall i :: 0 <= i < |p.servers| ==> p.servers[i].name in p.breakers)
    && p.preferred < |p.servers| && SomeHealthy(p) && BelowThreshold(p)
  }

  lemma FailAnyNames(p: Pool, i: nat, now: int)
    requires AnyNames(p) && i < |p.servers|
    ensures AnyNames(RecordFailure(p, i, now)) && RecordFailure(p, i, now).servers == p.servers
  {
    hide Recent, Best;
    if |p.servers| > 1 {
      var q, name := Noted(p, i, now), p.servers[i].name;
      if |q.breakers[name].failures| < FAIL_THRESHOLD {
        var k :| 0 <= k < |p.servers| && p.breakers[p.servers[k].name].status == Healthy;
        assert q.breakers[p.servers[k].name].status == Healthy;
      } else if AllFailing(q) {
        assert Reset(q).breakers[name].status == Healthy;
      } else {
        var k :| 0 <= k < |q.servers| && !Failing(q.breakers, q.servers[k].name);
        assert Tripped(q, i).breakers[q.servers[k].name].status == Healthy;
      }
    }
  }

  lemma {:induction false} ExecAnyNames(p: Pool, actions: seq<Action>)
    requires AnyNames(p)
    ensures AnyNames(Exec(p, actions)) && Exec(p, actions).servers == p.servers
    decreases actions
  {
    if actions != [] {
      var a := actions[0];
      if a.i < |p.servers| && a.Fail? {
        FailAnyNames(p, a.i, a.now);
      }
      ExecAnyNames(Step(p, a), actions[1..]);
    }
  }

  /**
   * Whatever the names, the latencies and the number of servers: after every run some server is
   * healthy, and every healthy server has fewer than five recorded failures.
   */
  lemma AlwaysSomeHealthy(servers: seq<Server>, bound: Option<real>, preferred: nat, actions: seq<Action>)
    requires preferred < |servers|
    ensures var p := Exec(Connected(servers, bound, preferred), actions);
      p.servers == servers && SomeHealthy(p) && BelowThreshold(p)
  {
    var p := Connected(servers, bound, preferred);
    assert forall i :: 0 <= i < |servers| ==> servers[i].name in Names(servers);
    assert p.breakers[servers[preferred].name].status == Healthy;
    ExecAnyNames(p, actions);
  }

  // ---------------------------------------------------------------------------
  // One name for all
  // ---------------------------------------------------------------------------

  ghost predicate OneBreaker(p: Pool) {
    SameName(p.servers) && PreferredHealthy(p) && BelowThreshold(p)
  }

  /** With a single breaker, the failure that would trip it finds all servers failing and resets. */
  lemma {:induction false} OneBreakerHealthy(p: Pool, actions: seq<Action>)
    requires OneBreaker(p)
    ensures OneBreaker(Exec(p, actions))
    decreases actions
  {
    if actions != [] {
      var a := actions[0];
      if a.i < |p.servers| {
        assert forall i :: 0 <= i < |p.servers| ==> p.servers[i].name == p.servers[p.preferred].name;
        hide Recent;
      }
      OneBreakerHealthy(Step(p, a), actions[1..]);
    }
  }

  // ---------------------------------------------------------------------------
  // Some names shared, others not
  // ---------------------------------------------------------------------------

  /** The names in `down` have tripped, the others are clean. */
  ghost predicate Quiet(p: Pool, down: set<string>) {
    && |p.servers| >= 2
    && p.preferred < |p.servers|
    && forall i :: 0 <= i < |p.servers| ==>
         && p.servers[i].name in p.breakers
         && p.breakers[p.servers[i].name] == if p.servers[i].name in down then Breaker(Zeros(5), Down) else CLOSED
  }

  predicate Twins(p: Pool, i: nat, j: nat) {
    i < |p.servers| && j < |p.servers| && i != j && p.servers[i].name == p.servers[j].name
  }

  /** Taking a preferred server down, whatever failover finds. */
  lemma TripPreferred(p: Pool, down: set<string>, other: nat)
    requires Quiet(p, down) && other < |p.servers|
    requires p.servers[p.preferred].name !in down && p.servers[other].name !in down
    requires p.servers[other].name != p.servers[p.preferred].name
    ensures var q := Exec(p, Failures(p.preferred, 5));
      Quiet(q, down + {p.servers[p.preferred].name}) && q.servers == p.servers && q.bound == p.bound
  {
    hide Exec, Zeros, Failures;
    var i := p.preferred;
    FiveFailuresTrip(p, i, other);
    OverwriteTrip(p.breakers, p.servers[i].name, Breaker(Zeros(5), Healthy));
  }

  /**
   * Taking down one preferred server after the other leads to one that has a twin, unless some
   * failover has found nothing and the preferred server is down already.
   */
  lemma {:induction false} ReachTwin(p: Pool, down: set<string>, a: nat, b: nat)
    returns (actions: seq<Action>, down': set<string>, twin: nat)
    requires Quiet(p, down) && Twins(p, a, b) && p.servers[a].name !in down && PreferredHealthy(p)
    ensures var q := Exec(p, actions);
      && q.servers == p.servers
      && (PreferredHealthy(q) ==>
            Quiet(q, down') && q.servers[q.preferred].name !in down' && Twins(q, q.preferred, twin))
    decreases Names(p.servers) - down
  {
    var i := p.preferred;
    var name := p.servers[i].name;
    actions, down', twin := [], down, a;
    if name == p.servers[a].name {
      twin := if i == a then b else a;
    } else {
      TripPreferred(p, down, a);
      var trip := Failures(i, 5);
      var q := Exec(p, trip);
      assert name in Names(p.servers) - down && name !in Names(p.servers) - (down + {name});
      assert Names(p.servers) - (down + {name}) <= Names(p.servers) - down;
      if PreferredHealthy(q) {
        var rest;
        rest, down', twin := ReachTwin(q, down + {name}, a, b);
        actions := trip + rest;
        ExecAppend(p, trip, rest);
      } else {
        actions := trip;
      }
    }
  }

  /** Failures of a twin, with a clean server elsewhere, take the preferred server down unnoticed. */
  lemma TwinLoses(p: Pool, down: set<string>, twin: nat, other: nat) returns (actions: seq<Action>)
    requires Quiet(p, down) && p.servers[p.preferred].name !in down && Twins(p, p.preferred, twin)
    requires other < |p.servers| && p.servers[other].name != p.servers[twin].name
    ensures !PreferredHealthy(Exec(p, actions))
  {
    var q := Step(p, Succeed(other));
    hide Zeros, Failures;
    FiveFailuresTrip(q, twin, other);
    actions := [Succeed(other)] + Failures(twin, 5);
    assert actions[1..] == Failures(twin, 5);
  }

  lemma ConnectedQuiet(servers: seq<Server>, bound: Option<real>, preferred: nat)
    requires |servers| >= 2 && preferred < |servers|
    ensures Quiet(Connected(servers, bound, preferred), {}) && PreferredHealthy(Connected(servers, bound, preferred))
    ensures Connected(servers, bound, preferred).servers == servers
  {
    assert forall i :: 0 <= i < |servers| ==> servers[i].name in Names(servers);
  }

  /** Names that are neither all distinct nor all the same lose the preferred server in some run. */
  lemma MixedNamesLose(servers: seq<Server>, bound: Option<real>, preferred: nat) returns (actions: seq<Action>)
    requires preferred < |servers| && !DistinctNames(servers) && !SameName(servers)
    ensures !PreferredHealthy(Exec(Connected(servers, bound, preferred), actions))
  {
    var p := Connected(servers, bound, preferred);
    var a, b :| 0 <= a < b < |servers| && servers[a].name == servers[b].name;
    var c, d :| 0 <= c < d < |servers| && servers[c].name != servers[d].name;
    hide Connected;
    ConnectedQuiet(servers, bound, preferred);
    hide Exec, Quiet, Names, PreferredHealthy, DistinctNames, SameName;
    var first, down, twin := ReachTwin(p, {}, a, b);
    var q := Exec(p, first);
    actions := first;
    if PreferredHealthy(q) {
      var other: nat := if servers[c].name == servers[twin].name then d else c;
      var rest := TwinLoses(q, down, twin, other);
      actions := first + rest;
      ExecAppend(p, first, rest);
    }
  }

  /**
   * The exact condition over all pools, with any number of servers, any names and any latencies:
   * the preferred server is healthy in every run if and only if all servers have the same name,
   * or their names are pairwise distinct and every latency is below the bound of the search.
   */
  lemma AlwaysHealthyIff(servers: seq<Server>, bound: Option<real>, preferred: nat)
    requires preferred < |servers|
    ensures (forall actions :: PreferredHealthy(Exec(Connected(servers, bound, preferred), actions)))
      <==> SameName(servers) || (DistinctNames(servers) && AllUsable(servers, bound))
  {
    var p := Connected(servers, bound, preferred);
    assert forall i :: 0 <= i < |servers| ==> servers[i].name in Names(servers);
    if SameName(servers) {
      forall actions ensures PreferredHealthy(Exec(p, actions)) {
        OneBreakerHealthy(p, actions);
      }
    } else if DistinctNames(servers) {
      assert |servers| >= 2;
      AlwaysHealthyIffUsable(servers, bound, preferred);
    } else {
      var actions := MixedNamesLose(servers, bound, preferred);
    }
  }
}
