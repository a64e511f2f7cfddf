/**
 * The five-minute window of the circuit breaker (crates/mxdx-matrix/src/multi_hs.rs and
 * packages/core/multi-hs-client.js), for clocks that do not go back: which failures are still on
 * record, and when they take a server down.
 */
module FailureWindow {
  import opened Common
  import CB = CircuitBreaker

  // ---------------------------------------------------------------------------
  // Pruning
  // ---------------------------------------------------------------------------

  lemma {:induction false} RecentSnoc(failures: seq<int>, t: int, now: int)
    ensures CB.Recent(failures + [t], now)
         == if now - t < 300_000 then CB.Recent(failures, now) + [t] else CB.Recent(failures, now)
  {
    var all := failures + [t];
    if failures == [] {
      assert all[1..] == [];
    } else {
      assert all[1..] == failures[1..] + [t];
      RecentSnoc(failures[1..], t, now);
    }
  }

  /** Pruning keeps exactly the failures less than 300,000 ms old, in order. */
  lemma {:induction false} RecentExact(failures: seq<int>, now: int) returns (ks: seq<nat>)
    ensures Picks(CB.Recent(failures, now), failures, ks)
    ensures forall k: nat :: k in ks <==> k < |failures| && now - failures[k] < 300_000
  {
    ks := [];
    if failures != [] {
      hide CB.Recent;
      var n := |failures| - 1;
      var init := failures[..n];
      ks := RecentExact(init, now);
      RecentSnoc(init, failures[n], now);
      assert init + [failures[n]] == failures;
      if now - failures[n] < 300_000 {
        PicksSnoc(CB.Recent(init, now), init, ks, failures[n]);
        ks := ks + [n];
      } else {
        PicksMore(CB.Recent(init, now), init, ks, failures[n]);
      }
    }
  }

  ghost predicate Suffix(a: seq<int>, b: seq<int>) {
    |a| <= |b| && b[|b| - |a|..] == a
  }

  ghost predicate Ascending(s: seq<int>) {
    forall i, j :: 0 <= i < j < |s| ==> s[i] <= s[j]
  }

  /** `f` is the end of `log` that is less than 300,000 ms older than `now`. */
  ghost predicate InWindow(f: seq<int>, log: seq<int>, now: int) {
    Suffix(f, log) && forall j :: 0 <= j < |log| ==> (now - log[j] < 300_000 <==> |log| - |f| <= j)
  }

  lemma {:induction false} AllRecent(f: seq<int>, now: int)
    requires forall j :: 0 <= j < |f| ==> now - f[j] < 300_000
    ensures CB.Recent(f, now) == f
  {
    if f != [] {
      AllRecent(f[1..], now);
    }
  }

  /** Pruning the end of an ascending log leaves the part of it inside the window. */
  lemma {:induction false} PruneRest(f: seq<int>, log: seq<int>, now: int)
    requires Suffix(f, log) && Ascending(log)
    requires forall j :: 0 <= j < |log| - |f| ==> now - log[j] >= 300_000
    ensures InWindow(CB.Recent(f, now), log, now)
    decreases f
  {
    if f != [] {
      var k := |log| - |f|;
      assert log[k] == f[0];
      assert log[k + 1..] == f[1..];
      if now - f[0] < 300_000 {
        assert forall j :: 0 <= j < |f| ==> f[j] == log[k + j];
        AllRecent(f, now);
      } else {
        PruneRest(f[1..], log, now);
      }
    }
  }

  /** One more failure, at a reading that is not earlier. */
  lemma NoteInWindow(f: seq<int>, log: seq<int>, before: int, now: int)
    requires InWindow(f, log, before) && before <= now && Ascending(log) && (forall t :: t in log ==> t <= now)
    ensures InWindow(CB.Recent(f, now) + [now], log + [now], now) && Ascending(log + [now])
  {
    PruneRest(f, log, now);
    var r, all := CB.Recent(f, now), log + [now];
    assert all[|all| - |r + [now]|..] == r + [now];
    assert forall j :: 0 <= j < |log| ==> all[j] == log[j];
    forall i, j | 0 <= i < j < |all| ensures all[i] <= all[j] {
      assert all[i] == log[i] && (j < |log| ==> all[j] == log[j]);
      assert log[i] in log;
    }
  }

  // ---------------------------------------------------------------------------
  // Runs
  // ---------------------------------------------------------------------------

  /**
   * A pool with the failures of each name since its last success or the last reset of all
   * breakers, and the last clock reading.
   */
  datatype World = World(pool: CB.Pool, logs: map<string, seq<int>>, last: int)

  function Log(w: World, name: string): seq<int> {
    if name in w.logs then w.logs[name] else []
  }

  /** All servers are failing, so this failure closes every breaker. */
  predicate Resets(p: CB.Pool, i: nat, now: int)
    requires i < |p.servers|
  {
    && |p.servers| > 1 && p.servers[i].name in p.breakers
    && |CB.Noted(p, i, now).breakers[p.servers[i].name].failures| >= 5 && CB.AllFailing(CB.Noted(p, i, now))
  }

  function Step(w: World, a: CB.Action): World {
    if a.i >= |w.pool.servers| then w
    else
      var name, pool := w.pool.servers[a.i].name, CB.Step(w.pool, a);
      match a
      case Fail(i, now) =>
        World(pool, if Resets(w.pool, i, now) then map[] else w.logs[name := Log(w, name) + [now]], now)
      case Succeed(_) => w.(pool := pool, logs := w.logs - {name})
  }

  function Exec(w: World, actions: seq<CB.Action>): World
    decreases actions
  {
    if actions == [] then w else Exec(Step(w, actions[0]), actions[1..])
  }

  function Start(servers: seq<CB.Server>, bound: Option<real>, preferred: nat, now: int): World {
    World(CB.Connected(servers, bound, preferred), map[], now)
  }

  /** The clock does not go back. */
  predicate ClockRuns(last: int, actions: seq<CB.Action>)
    decreases actions
  {
    actions == []
    || (if actions[0].Fail? then last <= actions[0].now && ClockRuns(actions[0].now, actions[1..])
        else ClockRuns(last, actions[1..]))
  }

  /** Five failures in a row within 300,000 ms. */
  ghost predicate HasBurst(log: seq<int>) {
    exists k :: 0 <= k < |log| - 4 && InFive(log, k)
  }

  predicate InFive(log: seq<int>, k: nat)
    requires k + 4 < |log|
  {
    log[k + 4] - log[k] < 300_000
  }

  ghost predicate NameInv(b: CB.Breaker, log: seq<int>, last: int) {
    && Ascending(log) && (forall t :: t in log ==> t <= last)
    && (log == [] ==> b.failures == [])
    && (log != [] ==> InWindow(b.failures, log, log[|log| - 1]))
    && (b.status == CB.Healthy ==> |b.failures| < 5)
    && (b.status == CB.Down ==> HasBurst(log))
  }

  ghost predicate Inv(w: World) {
    && (forall i :: 0 <= i < |w.pool.servers| ==> w.pool.servers[i].name in w.pool.breakers)
    && |w.pool.servers| >= 2
    && forall name :: name in w.pool.breakers ==> NameInv(w.pool.breakers[name], Log(w, name), w.last)
  }

  /** The failures on record after a new one number five exactly if the last five are close. */
  lemma FiveOnRecord(f: seq<int>, log: seq<int>, now: int)
    requires InWindow(f, log, now)
    ensures |f| >= 5 <==> |log| >= 5 && now - log[|log| - 5] < 300_000
  {
  }

  lemma NotedIs(b: CB.Breaker, log: seq<int>, last: int, now: int)
    requires NameInv(b, log, last) && last <= now
    ensures InWindow(CB.Recent(b.failures, now) + [now], log + [now], now) && Ascending(log + [now])
    ensures forall t :: t in log + [now] ==> t <= now
  {
    if log == [] {
      assert InWindow([], [], now);
      NoteInWindow(b.failures, log, now, now);
    } else {
      assert log[|log| - 1] in log;
      NoteInWindow(b.failures, log, log[|log| - 1], now);
    }
  }

  lemma EndBurst(log: seq<int>, now: int)
    requires |log| >= 5 && log[|log| - 1] == now && now - log[|log| - 5] < 300_000
    ensures HasBurst(log)
  {
    assert InFive(log, |log| - 5);
  }

  lemma BurstGrows(log: seq<int>, t: int)
    requires HasBurst(log)
    ensures HasBurst(log + [t])
  {
    var k :| 0 <= k < |log| - 4 && InFive(log, k);
    assert InFive(log + [t], k);
  }

  lemma LaterReading(b: CB.Breaker, log: seq<int>, last: int, now: int)
    requires NameInv(b, log, last) && last <= now
    ensures NameInv(b, log, now)
  {
  }

  /** The breaker of a name after a failure of it, unless all were reset. */
  lemma NameFails(b: CB.Breaker, log: seq<int>, last: int, now: int, status: CB.Status)
    requires NameInv(b, log, last) && last <= now
    requires var n := |CB.Recent(b.failures, now)| + 1; status == if n >= 5 then CB.Down else b.status
    ensures NameInv(CB.Breaker(CB.Recent(b.failures, now) + [now], status), log + [now], now)
  {
    NotedIs(b, log, last, now);
    var all := log + [now];
    FiveOnRecord(CB.Recent(b.failures, now) + [now], all, now);
    hide InWindow, Ascending, HasBurst;
    if status == CB.Down {
      if b.status == CB.Down {
        BurstGrows(log, now);
      } else {
        EndBurst(all, now);
      }
    }
  }

  lemma ClosedInv(last: int)
    ensures NameInv(CB.CLOSED, [], last)
  {
  }

  /** What a failure does to the breakers, and to nothing else but the preferred server. */
  lemma FailBreakers(p: CB.Pool, i: nat, now: int)
    requires |p.servers| >= 2 && i < |p.servers| && p.servers[i].name in p.breakers
    ensures var q, name := CB.RecordFailure(p, i, now), p.servers[i].name;
      var noted := CB.Recent(p.breakers[name].failures, now) + [now];
      && q.servers == p.servers
      && (|noted| < 5 ==> q.preferred == p.preferred)
      && (Resets(p, i, now) ==> |noted| >= 5)
      && var status := if |noted| >= 5 then CB.Down else p.breakers[name].status;
      q.breakers == if Resets(p, i, now) then map n | n in p.breakers :: CB.CLOSED
                    else p.breakers[name := CB.Breaker(noted, status)]
  {
    hide CB.Recent, CB.Best, CB.AllFailing;
  }

  lemma FailInv(w: World, i: nat, now: int)
    requires Inv(w) && i < |w.pool.servers| && w.last <= now
    ensures Inv(Step(w, CB.Fail(i, now)))
  {
    var p, name := w.pool, w.pool.servers[i].name;
    var w' := Step(w, CB.Fail(i, now));
    FailBreakers(p, i, now);
    hide CB.RecordFailure, Resets, NameInv, CB.Recent;
    forall n | n in w'.pool.breakers ensures NameInv(w'.pool.breakers[n], Log(w', n), w'.last) {
      if Resets(p, i, now) {
        ClosedInv(now);
      } else if n == name {
        var b := p.breakers[name];
        NameFails(b, Log(w, name), w.last, now, w'.pool.breakers[name].status);
      } else {
        LaterReading(p.breakers[n], Log(w, n), w.last, now);
      }
    }
  }

  lemma SucceedInv(w: World, i: nat)
    requires Inv(w) && i < |w.pool.servers|
    ensures Inv(Step(w, CB.Succeed(i)))
  {
    ClosedInv(w.last);
    hide NameInv;
  }

  lemma {:induction false} RunInv(w: World, actions: seq<CB.Action>)
    requires Inv(w) && ClockRuns(w.last, actions)
    ensures Inv(Exec(w, actions))
    decreases actions
  {
    if actions != [] {
      var a := actions[0];
      if a.i < |w.pool.servers| {
        if a.Fail? {
          FailInv(w, a.i, a.now);
        } else {
          SucceedInv(w, a.i);
        }
      }
      hide Inv, CB.Step;
      var w' := Step(w, a);
      if a.i >= |w.pool.servers| && a.Fail? {
        ClockLater(w.last, a.now, actions[1..]);
      }
      RunInv(w', actions[1..]);
    }
  }

  lemma {:induction false} ClockLater(earlier: int, last: int, actions: seq<CB.Action>)
    requires earlier <= last && ClockRuns(last, actions)
    ensures ClockRuns(earlier, actions)
    decreases actions
  {
    if actions != [] && !actions[0].Fail? {
      ClockLater(earlier, last, actions[1..]);
    }
  }

  lemma StartInv(servers: seq<CB.Server>, bound: Option<real>, preferred: nat, now: int)
    requires |servers| >= 2
    ensures Inv(Start(servers, bound, preferred, now))
  {
    ClosedInv(now);
    hide NameInv;
    assert forall i :: 0 <= i < |servers| ==> servers[i].name in CB.Names(servers);
  }

  lemma {:induction false} PoolIs(w: World, actions: seq<CB.Action>)
    ensures Exec(w, actions).pool == CB.Exec(w.pool, actions)
    decreases actions
  {
    if actions != [] {
      hide CB.RecordFailure, CB.RecordSuccess, Resets;
      PoolIs(Step(w, actions[0]), actions[1..]);
    }
  }

  /**
   * Over every run with a clock that does not go back: a server that is down has five failures of
   * its name within 300,000 ms, none of them followed by a success of that name or a reset.
   */
  lemma DownAfterBurst(servers: seq<CB.Server>, bound: Option<real>, preferred: nat, now: int,
                       actions: seq<CB.Action>, name: string)
    requires |servers| >= 2 && ClockRuns(now, actions)
    ensures var w := Exec(Start(servers, bound, preferred, now), actions);
      && w.pool == CB.Exec(CB.Connected(servers, bound, preferred), actions)
      && (CB.IsDown(w.pool.breakers, name) ==> HasBurst(Log(w, name)))
  {
    StartInv(servers, bound, preferred, now);
    RunInv(Start(servers, bound, preferred, now), actions);
    PoolIs(Start(servers, bound, preferred, now), actions);
    hide Exec, HasBurst;
  }

  /**
   * And such five decide: a failure of a healthy server takes it down, or closes all breakers, if
   * and only if the last five failures of its name since a success or reset lie within 300,000 ms.
   */
  lemma FifthFailureDecides(servers: seq<CB.Server>, bound: Option<real>, preferred: nat, start: int,
                            actions: seq<CB.Action>, i: nat, now: int)
    requires |servers| >= 2 && i < |servers| && ClockRuns(start, actions)
    requires Exec(Start(servers, bound, preferred, start), actions).last <= now
    requires !CB.IsDown(Exec(Start(servers, bound, preferred, start), actions).pool.breakers, servers[i].name)
    ensures var w := Exec(Start(servers, bound, preferred, start), actions);
      i < |w.pool.servers| &&
      var w', log := Step(w, CB.Fail(i, now)), Log(w, servers[i].name) + [now];
      var close := |log| >= 5 && now - log[|log| - 5] < 300_000;
      && (CB.IsDown(w'.pool.breakers, servers[i].name) || Resets(w.pool, i, now) <==> close)
      && w.pool.servers == servers
      && (!close ==> w'.pool.preferred == w.pool.preferred)
      && (Resets(w.pool, i, now) ==> forall n :: n in w.pool.breakers ==> w'.pool.breakers[n] == CB.CLOSED)
  {
    RunKeepsServers(Start(servers, bound, preferred, start), actions);
    StartInv(servers, bound, preferred, start);
    RunInv(Start(servers, bound, preferred, start), actions);
    var w := Exec(Start(servers, bound, preferred, start), actions);
    hide Exec, Start, ClockRuns;
    DecidesFrom(w, i, now);
    FailBreakers(w.pool, i, now);
    hide CB.RecordFailure, Resets, Inv, CB.Recent;
  }

  lemma FailStatus(p: CB.Pool, i: nat, now: int)
    requires |p.servers| >= 2 && i < |p.servers| && p.servers[i].name in p.breakers
    requires !CB.IsDown(p.breakers, p.servers[i].name)
    ensures var q, name := CB.RecordFailure(p, i, now), p.servers[i].name;
      var five := |CB.Recent(p.breakers[name].failures, now) + [now]| >= 5;
      && (CB.IsDown(q.breakers, name) || Resets(p, i, now) <==> five)
      && (!five ==> q.preferred == p.preferred)
  {
    hide CB.RecordFailure, Resets, CB.Recent;
    FailBreakers(p, i, now);
  }

  lemma DecidesFrom(w: World, i: nat, now: int)
    requires Inv(w) && i < |w.pool.servers| && w.last <= now
    requires !CB.IsDown(w.pool.breakers, w.pool.servers[i].name)
    ensures var name := w.pool.servers[i].name;
      var w', log := Step(w, CB.Fail(i, now)), Log(w, name) + [now];
      var close := |log| >= 5 && now - log[|log| - 5] < 300_000;
      && (CB.IsDown(w'.pool.breakers, name) || Resets(w.pool, i, now) <==> close)
      && (!close ==> w'.pool.preferred == w.pool.preferred)
  {
    hide InWindow, Ascending, NameInv, CB.Recent, CB.RecordFailure, Resets, Log, CB.IsDown;
    var name := w.pool.servers[i].name;
    var b := w.pool.breakers[name];
    NotedIs(b, Log(w, name), w.last, now);
    FiveOnRecord(CB.Recent(b.failures, now) + [now], Log(w, name) + [now], now);
    FailStatus(w.pool, i, now);
  }

  // ---------------------------------------------------------------------------
  // From the failures reported alone
  // ---------------------------------------------------------------------------

  /** The readings of all failures of a name in a run. */
  function Reported(servers: seq<CB.Server>, actions: seq<CB.Action>, name: string): seq<int> {
    if actions == [] then []
    else
      var a, rest := actions[0], Reported(servers, actions[1..], name);
      if a.Fail? && a.i < |servers| && servers[a.i].name == name then [a.now] + rest else rest
  }

  lemma StepKeepsServers(w: World, a: CB.Action)
    ensures Step(w, a).pool.servers == w.pool.servers
  {
    hide CB.Recent, CB.Best, CB.AllFailing;
  }

  lemma {:induction false} RunKeepsServers(w: World, actions: seq<CB.Action>)
    ensures Exec(w, actions).pool.servers == w.pool.servers
    decreases actions
  {
    if actions != [] {
      hide Step;
      StepKeepsServers(w, actions[0]);
      RunKeepsServers(Step(w, actions[0]), actions[1..]);
    }
  }

  lemma LogStep(w: World, a: CB.Action, name: string)
    ensures Suffix(Log(Step(w, a), name), Log(w, name) + Reported(w.pool.servers, [a], name))
  {
    assert [a][1..] == [];
    hide CB.Step, Resets;
  }

  lemma SuffixExtends(a: seq<int>, b: seq<int>, c: seq<int>, d: seq<int>)
    requires Suffix(a, b) && Suffix(d, a + c)
    ensures Suffix(d, b + c)
  {
  }

  lemma ReportedSplit(servers: seq<CB.Server>, actions: seq<CB.Action>, name: string)
    requires actions != []
    ensures Reported(servers, actions, name)
         == Reported(servers, [actions[0]], name) + Reported(servers, actions[1..], name)
  {
    assert [actions[0]][1..] == [];
    assert Reported(servers, [], name) == [];
  }

  lemma SuffixSelf(a: seq<int>)
    ensures Suffix(a, a + [])
  {
    assert a + [] == a;
  }

  lemma {:induction false} LogIsSuffix(w: World, actions: seq<CB.Action>, name: string)
    ensures Suffix(Log(Exec(w, actions), name), Log(w, name) + Reported(w.pool.servers, actions, name))
    decreases actions
  {
    hide Step, Log, Suffix;
    var servers := w.pool.servers;
    if actions == [] {
      SuffixSelf(Log(w, name));
    } else {
      ReportedSplit(servers, actions, name);
      hide Reported;
      var w', a := Step(w, actions[0]), Reported(servers, [actions[0]], name);
      var rest := Reported(servers, actions[1..], name);
      StepKeepsServers(w, actions[0]);
      LogStep(w, actions[0], name);
      LogIsSuffix(w', actions[1..], name);
      SuffixExtends(Log(w', name), Log(w, name) + a, rest, Log(Exec(w, actions), name));
      assert (Log(w, name) + a) + rest == Log(w, name) + (a + rest);
    }
  }

  lemma BurstOfSuffix(a: seq<int>, b: seq<int>)
    requires Suffix(a, b) && HasBurst(a)
    ensures HasBurst(b)
  {
    var k :| 0 <= k < |a| - 4 && InFive(a, k);
    var d := |b| - |a|;
    assert b[d + k] == b[d..][k] && b[d + k + 4] == b[d..][k + 4];
    assert InFive(b, d + k);
  }

  /** Failures of a name that never come five within 300,000 ms never take it down. */
  lemma NoBurstNeverDown(servers: seq<CB.Server>, bound: Option<real>, preferred: nat, now: int,
                         actions: seq<CB.Action>, name: string)
    requires |servers| >= 2 && ClockRuns(now, actions) && !HasBurst(Reported(servers, actions, name))
    ensures !CB.IsDown(CB.Exec(CB.Connected(servers, bound, preferred), actions).breakers, name)
  {
    var w := Start(servers, bound, preferred, now);
    DownAfterBurst(servers, bound, preferred, now, actions, name);
    LogIsSuffix(w, actions, name);
    assert [] + Reported(servers, actions, name) == Reported(servers, actions, name);
    hide HasBurst, Suffix, Exec;
    if HasBurst(Log(Exec(w, actions), name)) {
      BurstOfSuffix(Log(Exec(w, actions), name), Reported(servers, actions, name));
    }
  }
}
