/**
 * The multi-homeserver circuit breaker (crates/mxdx-matrix/src/multi_hs.rs and the breaker of
 * packages/core/multi-hs-client.js). Clock readings are inputs.
 */
module CircuitBreaker {
  import opened Common

  const FAIL_WINDOW_MS: int := 5 * 60 * 1000
  const FAIL_THRESHOLD: nat := 5

  datatype Status = Healthy | Down
  datatype Breaker = Breaker(failures: seq<int>, status: Status)
  datatype Server = Server(name: string, latency: real)

  const CLOSED := Breaker([], Healthy)

  /**
   * `bound` is what the failover search starts from: the largest double in Rust, which is also
   * the latency of a server whose first sync failed, and infinity (`None`) in JavaScript.
   */
  datatype Pool = Pool(servers: seq<Server>, bound: Option<real>, breakers: map<string, Breaker>, preferred: nat)

  predicate Usable(bound: Option<real>, latency: real) {
    bound.Some? ==> latency < bound.value
  }

  // ---------------------------------------------------------------------------
  // Steps
  // ---------------------------------------------------------------------------

  function Recent(failures: seq<int>, now: int): (r: seq<int>)
    ensures |r| <= |failures|
  {
    if failures == [] then []
    else (if now - failures[0] < FAIL_WINDOW_MS then [failures[0]] else []) + Recent(failures[1..], now)
  }

  predicate IsDown(breakers: map<string, Breaker>, name: string) {
    name in breakers && breakers[name].status == Down
  }

  predicate Failing(breakers: map<string, Breaker>, name: string) {
    name in breakers && (breakers[name].status == Down || |breakers[name].failures| >= FAIL_THRESHOLD)
  }

  predicate AllFailing(p: Pool) {
    forall i :: 0 <= i < |p.servers| ==> Failing(p.breakers, p.servers[i].name)
  }

  /** May the failover search take server `i`? */
  predicate Candidate(p: Pool, i: nat)
    requires i < |p.servers|
  {
    && i != p.preferred
    && !IsDown(p.breakers, p.servers[i].name)
    && Usable(p.bound, p.servers[i].latency)
  }

  /** The first candidate of least latency among the first `n` servers. */
  function Best(p: Pool, n: nat): (best: Option<nat>)
    requires n <= |p.servers|
    ensures best.Some? ==> best.value < n
  {
    if n == 0 then None
    else
      var best := Best(p, n - 1);
      if Candidate(p, n - 1) && (best.Some? ==> p.servers[n - 1].latency < p.servers[best.value].latency)
      then Some(n - 1) else best
  }

  function FailedOver(p: Pool): Pool {
    match Best(p, |p.servers|)
    case Some(i) => p.(preferred := i)
    case None => p
  }

  /** The failure has been noted; nothing has been decided yet. */
  function Noted(p: Pool, i: nat, now: int): Pool
    requires i < |p.servers| && p.servers[i].name in p.breakers
  {
    var name := p.servers[i].name;
    var b := p.breakers[name];
    p.(breakers := p.breakers[name := b.(failures := Recent(b.failures, now) + [now])])
  }

  function Tripped(p: Pool, i: nat): Pool
    requires i < |p.servers| && p.servers[i].name in p.breakers
  {
    var name := p.servers[i].name;
    var q := p.(breakers := p.breakers[name := p.breakers[name].(status := Down)]);
    if i == p.preferred then FailedOver(q) else q
  }

  function Reset(p: Pool): Pool {
    p.(breakers := map name | name in p.breakers :: CLOSED)
  }

  /** Does this failure take the server down? */
  predicate Trips(p: Pool, i: nat, now: int)
    requires i < |p.servers|
  {
    && |p.servers| > 1
    && p.servers[i].name in p.breakers
    && var q := Noted(p, i, now);
       |q.breakers[p.servers[i].name].failures| >= FAIL_THRESHOLD && !AllFailing(q)
  }

  function RecordFailure(p: Pool, i: nat, now: int): Pool
    requires i < |p.servers|
  {
    if |p.servers| <= 1 || p.servers[i].name !in p.breakers then p
    else
      var q := Noted(p, i, now);
      if |q.breakers[p.servers[i].name].failures| < FAIL_THRESHOLD then q
      else if AllFailing(q) then Reset(q)
      else Tripped(q, i)
  }

  function RecordSuccess(p: Pool, i: nat): Pool
    requires i < |p.servers|
  {
    if |p.servers| <= 1 || p.servers[i].name !in p.breakers then p
    else p.(breakers := p.breakers[p.servers[i].name := CLOSED])
  }

  // ---------------------------------------------------------------------------
  // Runs
  // ---------------------------------------------------------------------------

  datatype Action = Fail(i: nat, now: int) | Succeed(i: nat)

  function Step(p: Pool, a: Action): Pool {
    if a.i >= |p.servers| then p
    else match a
      case Fail(i, now) => RecordFailure(p, i, now)
      case Succeed(i) => RecordSuccess(p, i)
  }

  function Exec(p: Pool, actions: seq<Action>): Pool
    decreases actions
  {
    if actions == [] then p else Exec(Step(p, actions[0]), actions[1..])
  }

  lemma {:induction false} ExecAppend(p: Pool, a: seq<Action>, b: seq<Action>)
    ensures Exec(p, a + b) == Exec(Exec(p, a), b)
    decreases a
  {
    if a == [] {
      assert a + b == b;
    } else {
      assert (a + b)[0] == a[0] && (a + b)[1..] == a[1..] + b;
      ExecAppend(Step(p, a[0]), a[1..], b);
    }
  }

  /** A freshly connected pool. */
  function Connected(servers: seq<Server>, bound: Option<real>, preferred: nat): Pool {
    Pool(servers, bound, map name | name in Names(servers) :: CLOSED, preferred)
  }

  function Names(servers: seq<Server>): set<string> {
    set i | 0 <= i < |servers| :: servers[i].name
  }

  predicate DistinctNames(servers: seq<Server>) {
    forall i, j :: 0 <= i < j < |servers| ==> servers[i].name != servers[j].name
  }

  predicate AllUsable(servers: seq<Server>, bound: Option<real>) {
    forall i :: 0 <= i < |servers| ==> Usable(bound, servers[i].latency)
  }

  predicate PreferredHealthy(p: Pool) {
    && p.preferred < |p.servers|
    && p.servers[p.preferred].name in p.breakers
    && p.breakers[p.servers[p.preferred].name].status == Healthy
  }

  ghost predicate Shape(p: Pool) {
    && |p.servers| >= 2
    && DistinctNames(p.servers)
    && p.preferred < |p.servers|
    && forall i :: 0 <= i < |p.servers| ==> p.servers[i].name in p.breakers
  }

  /** Every healthy server is below the threshold. */
  ghost predicate BelowThreshold(p: Pool) {
    forall name :: name in p.breakers && p.breakers[name].status == Healthy ==>
      |p.breakers[name].failures| < FAIL_THRESHOLD
  }

  ghost predicate Inv(p: Pool) {
    Shape(p) && AllUsable(p.servers, p.bound) && PreferredHealthy(p) && BelowThreshold(p)
  }

  // ---------------------------------------------------------------------------
  // Failover
  // ---------------------------------------------------------------------------

  /** The search finds a candidate of least latency, the first of them, if there is any. */
  lemma {:induction false} BestIsLeast(p: Pool, n: nat)
    requires n <= |p.servers|
    ensures match Best(p, n)
      case None => forall k :: 0 <= k < n ==> !Candidate(p, k)
      case Some(b) =>
        && Candidate(p, b)
        && (forall k :: 0 <= k < n && Candidate(p, k) ==> p.servers[b].latency <= p.servers[k].latency)
        && (forall k :: 0 <= k < b && Candidate(p, k) ==> p.servers[b].latency < p.servers[k].latency)
  {
    if n > 0 {
      BestIsLeast(p, n - 1);
    }
  }

  /**
   * A failure that takes the preferred server down moves to a healthy server of least latency
   * among the healthy others.
   */
  lemma FailoverPicksLeast(p: Pool, i: nat, now: int)
    requires Inv(p) && i == p.preferred && Trips(p, i, now)
    ensures var q := RecordFailure(p, i, now);
      && q.preferred != i && PreferredHealthy(q) && IsDown(q.breakers, p.servers[i].name)
      && forall k :: 0 <= k < |p.servers| && k != i && !IsDown(q.breakers, p.servers[k].name)
           ==> p.servers[q.preferred].latency <= p.servers[k].latency
  {
    var n := Noted(p, i, now);
    var name := p.servers[i].name;
    var t := n.(breakers := n.breakers[name := n.breakers[name].(status := Down)]);
    var other := HealthyOther(p, i, now);
    BestIsLeast(t, |p.servers|);
    forall k | 0 <= k < |p.servers| && k != i && !IsDown(t.breakers, p.servers[k].name)
      ensures Candidate(t, k) {
    }
  }

  /** If not all servers are failing, another one is healthy and stays so. */
  lemma HealthyOther(p: Pool, i: nat, now: int) returns (k: nat)
    requires Shape(p) && i < |p.servers| && Trips(p, i, now)
    ensures k < |p.servers| && k != i && p.servers[k].name != p.servers[i].name
    ensures p.breakers[p.servers[k].name].status == Healthy
  {
    var q := Noted(p, i, now);
    k :| 0 <= k < |p.servers| && !Failing(q.breakers, p.servers[k].name);
  }

  lemma FailInv(p: Pool, i: nat, now: int)
    requires Inv(p) && i < |p.servers|
    ensures Inv(RecordFailure(p, i, now))
  {
    if Trips(p, i, now) {
      var k := HealthyOther(p, i, now);
      if i == p.preferred {
        FailoverPicksLeast(p, i, now);
      }
    }
  }

  lemma StepInv(p: Pool, a: Action)
    requires Inv(p)
    ensures Inv(Step(p, a))
    ensures Step(p, a).servers == p.servers
  {
    if a.i < |p.servers| && a.Fail? {
      FailInv(p, a.i, a.now);
    }
  }

  lemma {:induction false} ExecInv(p: Pool, actions: seq<Action>)
    requires Inv(p)
    ensures Inv(Exec(p, actions)) && Exec(p, actions).servers == p.servers
    decreases actions
  {
    if actions != [] {
      StepInv(p, actions[0]);
      ExecInv(Step(p, actions[0]), actions[1..]);
    }
  }

  lemma ConnectedInv(servers: seq<Server>, bound: Option<real>, preferred: nat)
    requires |servers| >= 2 && DistinctNames(servers) && preferred < |servers|
    ensures Shape(Connected(servers, bound, preferred)) && PreferredHealthy(Connected(servers, bound, preferred))
    ensures BelowThreshold(Connected(servers, bound, preferred))
    ensures forall i :: 0 <= i < |servers| ==> servers[i].name in Connected(servers, bound, preferred).breakers
  {
    var p := Connected(servers, bound, preferred);
    assert forall i :: 0 <= i < |servers| ==> servers[i].name in Names(servers);
  }

  /**
   * Over every sequence of successes and failures, with at least two distinct servers of usable
   * latency: the preferred server is healthy (so some server is), and every healthy server has
   * fewer than five recorded failures.
   */
  lemma AlwaysHealthy(servers: seq<Server>, bound: Option<real>, preferred: nat, actions: seq<Action>)
    requires |servers| >= 2 && DistinctNames(servers) && preferred < |servers| && AllUsable(servers, bound)
    ensures var p := Exec(Connected(servers, bound, preferred), actions);
      && PreferredHealthy(p)
      && forall i :: 0 <= i < |servers| ==>
           && servers[i].name in p.breakers
           && (p.breakers[servers[i].name].status == Healthy ==>
                 |p.breakers[servers[i].name].failures| < FAIL_THRESHOLD)
  {
    ConnectedInv(servers, bound, preferred);
    ExecInv(Connected(servers, bound, preferred), actions);
  }

  // ---------------------------------------------------------------------------
  // The latency condition is exact
  // ---------------------------------------------------------------------------

  function Zeros(n: nat): seq<int> {
    seq(n, _ => 0)
  }

  /** `n` failures of server `i`, all read at time 0. */
  function Failures(i: nat, n: nat): seq<Action> {
    seq(n, _ => Fail(i, 0))
  }

  lemma {:induction false} RecentZeros(n: nat)
    ensures Recent(Zeros(n), 0) == Zeros(n)
  {
    if n > 0 {
      assert Zeros(n)[1..] == Zeros(n - 1);
      RecentZeros(n - 1);
    }
  }

  function WithFailures(p: Pool, i: nat, n: nat): Pool
    requires i < |p.servers|
  {
    p.(breakers := p.breakers[p.servers[i].name := Breaker(Zeros(n), Healthy)])
  }

  lemma NotedZeros(p: Pool, i: nat, n: nat)
    requires i < |p.servers|
    ensures Noted(WithFailures(p, i, n), i, 0) == WithFailures(p, i, n + 1)
  {
    RecentZeros(n);
    assert Zeros(n) + [0] == Zeros(n + 1);
    var name := p.servers[i].name;
    assert p.breakers[name := Breaker(Zeros(n), Healthy)][name := Breaker(Zeros(n + 1), Healthy)]
        == p.breakers[name := Breaker(Zeros(n + 1), Healthy)];
  }

  lemma {:induction false} FewFailures(p: Pool, i: nat, n: nat)
    requires |p.servers| >= 2 && i < |p.servers| && n < FAIL_THRESHOLD
    requires p.servers[i].name in p.breakers && p.breakers[p.servers[i].name] == CLOSED
    ensures Exec(p, Failures(i, n)) == WithFailures(p, i, n)
  {
    if n == 0 {
      assert Zeros(0) == [];
      assert p.breakers[p.servers[i].name := CLOSED] == p.breakers;
    } else {
      FewFailures(p, i, n - 1);
      NotedZeros(p, i, n - 1);
      assert Failures(i, n) == Failures(i, n - 1) + [Fail(i, 0)];
      ExecAppend(p, Failures(i, n - 1), [Fail(i, 0)]);
      ExecOne(WithFailures(p, i, n - 1), Fail(i, 0));
    }
  }

  lemma ExecOne(p: Pool, a: Action)
    ensures Exec(p, [a]) == Step(p, a)
  {
    hide Step;
    assert Exec(p, [a]) == Exec(Step(p, a), []);
  }

  /** Five failures in a row take a clean server down, unless that would leave none. */
  lemma FiveFailuresTrip(p: Pool, i: nat, other: nat)
    requires |p.servers| >= 2 && i < |p.servers| && other < |p.servers|
    requires p.servers[i].name in p.breakers && p.breakers[p.servers[i].name] == CLOSED
    requires p.servers[other].name != p.servers[i].name && !Failing(p.breakers, p.servers[other].name)
    ensures Exec(p, Failures(i, 5)) == Tripped(WithFailures(p, i, 5), i)
  {
    hide Tripped, Zeros;
    FewFailures(p, i, 4);
    NotedZeros(p, i, 4);
    assert Failures(i, 5) == Failures(i, 4) + [Fail(i, 0)];
    ExecAppend(p, Failures(i, 4), [Fail(i, 0)]);
    var q := WithFailures(p, i, 5);
    assert !Failing(q.breakers, p.servers[other].name);
    ZerosLength(5);
    ExecOne(WithFailures(p, i, 4), Fail(i, 0));
  }

  lemma ZerosLength(n: nat)
    ensures |Zeros(n)| == n
  {
  }

  /** `down` servers have tripped, the others are clean. */
  ghost predicate Sidelined(p: Pool, down: set<nat>) {
    && Shape(p)
    && forall i :: 0 <= i < |p.servers| ==>
         p.breakers[p.servers[i].name] == if i in down then Breaker(Zeros(5), Down) else CLOSED
  }

  lemma SidelineOne(p: Pool, down: set<nat>, i: nat)
    requires Sidelined(p, down) && i < |p.servers|
    ensures Sidelined(p.(breakers := p.breakers[p.servers[i].name := Breaker(Zeros(5), Down)]), down + {i})
  {
    hide Zeros;
  }

  lemma TripBystander(p: Pool, down: set<nat>, i: nat, other: nat)
    requires Sidelined(p, down) && i < |p.servers| && other < |p.servers| && other != i
    requires i !in down && other !in down && i != p.preferred
    ensures var q := Exec(p, Failures(i, 5));
      Sidelined(q, down + {i}) && q.preferred == p.preferred && q.servers == p.servers && q.bound == p.bound
  {
    hide Exec, Zeros, Failures, FailedOver;
    var name := p.servers[i].name;
    assert p.servers[other].name != name;
    FiveFailuresTrip(p, i, other);
    SidelineOne(p, down, i);
    OverwriteTrip(p.breakers, name, Breaker(Zeros(5), Healthy));
    hide Sidelined;
  }

  lemma OverwriteTrip(breakers: map<string, Breaker>, name: string, b: Breaker)
    ensures var noted := breakers[name := b];
      noted[name := noted[name].(status := Down)] == breakers[name := b.(status := Down)]
  {
  }

  /** Takes down every server below `n` except the preferred one and `spare`. */
  lemma {:induction false} SidelineAll(p: Pool, spare: nat, n: nat) returns (actions: seq<Action>, down: set<nat>)
    requires Sidelined(p, {}) && n <= |p.servers| && spare < |p.servers| && spare != p.preferred
    ensures var q := Exec(p, actions);
      Sidelined(q, down) && q.preferred == p.preferred && q.servers == p.servers && q.bound == p.bound
    ensures forall i: nat :: i in down <==> i < n && i != p.preferred && i != spare
    decreases n
  {
    if n == 0 {
      actions, down := [], {};
    } else {
      var before, d := SidelineAll(p, spare, n - 1);
      if n - 1 == p.preferred || n - 1 == spare {
        actions, down := before, d;
      } else {
        hide Exec, Sidelined, Failures;
        TripBystander(Exec(p, before), d, n - 1, spare);
        ExecAppend(p, before, Failures(n - 1, 5));
        actions, down := before + Failures(n - 1, 5), d + {n - 1};
      }
    }
  }

  /** If only an unusable server is left, losing the preferred one leaves it preferred and down. */
  lemma LosePreferred(p: Pool, spare: nat) returns (actions: seq<Action>)
    requires Sidelined(p, {}) && spare < |p.servers| && spare != p.preferred
    requires !Usable(p.bound, p.servers[spare].latency)
    ensures !PreferredHealthy(Exec(p, actions))
  {
    var before, down := SidelineAll(p, spare, |p.servers|);
    var q := Exec(p, before);
    var i := p.preferred;
    FiveFailuresTrip(q, i, spare);
    ExecAppend(p, before, Failures(i, 5));
    var name := q.servers[i].name;
    var t := WithFailures(q, i, 5);
    var last := t.(breakers := t.breakers[name := t.breakers[name].(status := Down)]);
    BestIsLeast(last, |last.servers|);
    forall k | 0 <= k < |last.servers| ensures !Candidate(last, k) {
      if k != i && k != spare {
        assert k in down;
      }
    }
    actions := before + Failures(i, 5);
  }

  /** One unusable latency is enough for a run that leaves the preferred server down. */
  lemma UnusableLoses(servers: seq<Server>, bound: Option<real>, preferred: nat, j: nat) returns (actions: seq<Action>)
    requires |servers| >= 2 && DistinctNames(servers) && preferred < |servers|
    requires j < |servers| && !Usable(bound, servers[j].latency)
    ensures !PreferredHealthy(Exec(Connected(servers, bound, preferred), actions))
  {
    var p := Connected(servers, bound, preferred);
    ConnectedInv(servers, bound, preferred);
    assert Sidelined(p, {});
    if preferred != j {
      actions := LosePreferred(p, j);
    } else {
      var q := Exec(p, Failures(j, 5));
      if !PreferredHealthy(q) {
        actions := Failures(j, 5);
      } else {
        ComesBack(p, j);
        hide Sidelined, Failures, Step, PreferredHealthy, Inv, Usable, Connected;
        var back := Step(q, Succeed(j));
        var rest := LosePreferred(back, j);
        actions := Failures(j, 5) + ([Succeed(j)] + rest);
        ExecAppend(p, Failures(j, 5), [Succeed(j)] + rest);
        assert ([Succeed(j)] + rest)[1..] == rest;
      }
    }
  }

  /** A preferred server that was replaced and succeeds again leaves a clean pool behind. */
  lemma ComesBack(p: Pool, j: nat)
    requires Sidelined(p, {}) && p.preferred == j && PreferredHealthy(Exec(p, Failures(j, 5)))
    ensures var back := Step(Exec(p, Failures(j, 5)), Succeed(j));
      Sidelined(back, {}) && back.preferred != j && back.servers == p.servers && back.bound == p.bound
  {
    hide Exec, Zeros, Failures;
    var other: nat := if j == 0 then 1 else 0;
    FiveFailuresTrip(p, j, other);
  }

  /**
   * The exact condition: with at least two distinct servers, the preferred server is healthy in
   * every run if and only if every latency is below the bound the failover search starts from.
   */
  lemma AlwaysHealthyIffUsable(servers: seq<Server>, bound: Option<real>, preferred: nat)
    requires |servers| >= 2 && DistinctNames(servers) && preferred < |servers|
    ensures (forall actions :: PreferredHealthy(Exec(Connected(servers, bound, preferred), actions)))
      <==> AllUsable(servers, bound)
  {
    if AllUsable(servers, bound) {
      forall actions ensures PreferredHealthy(Exec(Connected(servers, bound, preferred), actions)) {
        AlwaysHealthy(servers, bound, preferred, actions);
      }
    } else {
      var j :| 0 <= j < |servers| && !Usable(bound, servers[j].latency);
      var actions := UnusableLoses(servers, bound, preferred, j);
    }
  }

  /**
   * Why names must be distinct: two entries sharing a breaker let failures reported for one take
   * the other, preferred one down without a failover.
   */
  lemma SharedNameLoses(servers: seq<Server>, bound: Option<real>, preferred: nat, twin: nat, other: nat)
    requires preferred < |servers| && twin < |servers| && other < |servers| && twin != preferred
    requires servers[twin].name == servers[preferred].name != servers[other].name
    ensures !PreferredHealthy(Exec(Connected(servers, bound, preferred), Failures(twin, 5)))
  {
    hide Exec, Zeros;
    var p := Connected(servers, bound, preferred);
    assert servers[twin].name in Names(servers) && servers[other].name in Names(servers);
    FiveFailuresTrip(p, twin, other);
  }
}
