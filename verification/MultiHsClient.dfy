/**
 * The clients around the circuit breaker: the methods of `MultiHsClient` in
 * crates/mxdx-matrix/src/multi_hs.rs, and the accounts crates/mxdx-client/src/config.rs gives it.
 */
module MultiHsClient {
  import opened Common
  import opened CircuitBreaker

  class Client {
    const servers: seq<Server>
    const bound: Option<real>
    var breakers: map<string, Breaker>
    var preferred: nat

    function Model(): Pool
      reads this
    {
      Pool(servers, bound, breakers, preferred)
    }

    constructor (servers: seq<Server>, bound: Option<real>, preferred: nat)
      ensures Model() == Connected(servers, bound, preferred)
    {
      this.servers, this.bound, this.preferred := servers, bound, preferred;
      this.breakers := map name | name in Names(servers) :: CLOSED;
    }

    method RecordFailure(i: nat, now: int)
      requires i < |servers|
      modifies this
      ensures Model() == CircuitBreaker.RecordFailure(old(Model()), i, now)
    {
      if |servers| <= 1 { return; }
      var name := servers[i].name;
      if name in breakers {
        var recent := Prune(breakers[name].failures, now);
        breakers := breakers[name := breakers[name].(failures := recent + [now])];
        if |breakers[name].failures| >= FAIL_THRESHOLD {
          if AllFailing(Model()) {
            breakers := map n | n in breakers :: CLOSED;
            return;
          }
          breakers := breakers[name := breakers[name].(status := Down)];
          if i == preferred {
            TriggerFailover();
          }
        }
      }
    }

    method Prune(failures: seq<int>, now: int) returns (kept: seq<int>)
      ensures kept == Recent(failures, now)
    {
      kept := [];
      for k := 0 to |failures|
        invariant kept + Recent(failures[k..], now) == Recent(failures, now)
      {
        assert failures[k..][1..] == failures[k + 1..];
        if now - failures[k] < FAIL_WINDOW_MS {
          kept := kept + [failures[k]];
        }
      }
    }

    method RecordSuccess(i: nat)
      requires i < |servers|
      modifies this`breakers
      ensures Model() == CircuitBreaker.RecordSuccess(old(Model()), i)
    {
      if |servers| <= 1 { return; }
      var name := servers[i].name;
      if name in breakers {
        breakers := breakers[name := breakers[name].(failures := [])];
        if breakers[name].status == Down {
          breakers := breakers[name := breakers[name].(status := Healthy)];
        }
      }
    }

    /** Scans for the least latency, starting from the bound. */
    method TriggerFailover()
      modifies this`preferred
      ensures Model() == FailedOver(old(Model()))
    {
      var best: Option<nat> := None;
      var bestLatency := bound;
      for i := 0 to |servers|
        invariant best == Best(Model(), i)
        invariant bestLatency == if best.Some? then Some(servers[best.value].latency) else bound
        invariant best.Some? ==> Usable(bound, servers[best.value].latency)
      {
        if i != preferred {
          if !IsDown(breakers, servers[i].name) && Usable(bestLatency, servers[i].latency) {
            bestLatency := Some(servers[i].latency);
            best := Some(i);
          }
        }
      }
      if best.Some? {
        preferred := best.value;
      }
    }
  }

  // ---------------------------------------------------------------------------
  // Accounts
  // ---------------------------------------------------------------------------

  datatype Account = Account(homeserver: string, username: string, password: string)
  datatype Configured = Configured(homeserver: string, userId: string, password: Option<string>)

  ghost predicate DistinctHomeservers(accounts: seq<Account>) {
    forall i, j :: 0 <= i < j < |accounts| ==> accounts[i].homeserver != accounts[j].homeserver
  }

  predicate Has(accounts: seq<Account>, homeserver: string) {
    exists i :: 0 <= i < |accounts| && accounts[i].homeserver == homeserver
  }

  /** The localpart: up to the first colon, without leading at-signs. */
  function Localpart(userId: string): string {
    TrimAt(UpToColon(userId))
  }

  function UpToColon(s: string): string {
    if s == "" || s[0] == ':' then "" else [s[0]] + UpToColon(s[1..])
  }

  function TrimAt(s: string): string {
    if s != "" && s[0] == '@' then TrimAt(s[1..]) else s
  }

  /** A full user id yields its name, as does one without the server part. */
  lemma LocalpartOf(name: string, server: string)
    requires ':' !in name && (name != "" ==> name[0] != '@')
    ensures Localpart("@" + name + ":" + server) == name && Localpart("@" + name) == name
  {
    var at, full := "@" + name, "@" + name + ":" + server;
    UpToFirstColon(at, ":" + server);
    assert full == at + (":" + server);
    UpToFirstColon(at, "");
    assert at + "" == at;
    assert at[1..] == name;
    assert TrimAt(at) == TrimAt(name) == name;
  }

  lemma {:induction false} UpToFirstColon(a: string, b: string)
    requires ':' !in a && (b != "" ==> b[0] == ':')
    ensures UpToColon(a + b) == a
  {
    if a != "" {
      assert (a + b)[1..] == a[1..] + b;
      assert a[0] in a && forall c :: c in a[1..] ==> c in a;
      UpToFirstColon(a[1..], b);
    }
  }

  function AccountOf(c: Configured): Account
    requires c.password.Some?
  {
    Account(c.homeserver, Localpart(c.userId), c.password.value)
  }

  /** Does entry `j` supply an account for the homeserver? */
  predicate Supplies(configured: seq<Configured>, j: nat, homeserver: string) {
    j < |configured| && configured[j].password.Some? && configured[j].homeserver == homeserver
  }

  /** The account comes from the first of `k` entries that supply one for its homeserver. */
  ghost predicate FromFirst(configured: seq<Configured>, k: nat, a: Account) {
    exists j: nat ::
      && j < k && Supplies(configured, j, a.homeserver) && a == AccountOf(configured[j])
      && forall i: nat :: i < j ==> !Supplies(configured, i, a.homeserver)
  }

  /**
   * `resolve_accounts`: command-line credentials first, then for every other homeserver the first
   * configured account that has a password. The homeservers it returns are distinct.
   */
  method ResolveAccounts(cli: Option<Account>, configured: seq<Configured>) returns (accounts: seq<Account>)
    ensures DistinctHomeservers(accounts)
    ensures cli.Some? ==> accounts != [] && accounts[0] == cli.value
    ensures forall h :: Has(accounts, h) <==>
      (cli.Some? && cli.value.homeserver == h) || exists j: nat :: Supplies(configured, j, h)
    ensures forall a :: a in accounts ==> cli == Some(a) || FromFirst(configured, |configured|, a)
  {
    accounts := if cli.Some? then [cli.value] else [];
    for k := 0 to |configured|
      invariant DistinctHomeservers(accounts)
      invariant cli.Some? ==> accounts != [] && accounts[0] == cli.value
      invariant forall h :: Has(accounts, h) <==>
        (cli.Some? && cli.value.homeserver == h) || exists j: nat :: j < k && Supplies(configured, j, h)
      invariant forall a :: a in accounts ==> cli == Some(a) || FromFirst(configured, k, a)
    {
      var c := configured[k];
      if c.password.Some? && !Has(accounts, c.homeserver) {
        var added := Account(c.homeserver, Localpart(c.userId), c.password.value);
        assert Supplies(configured, k, c.homeserver) && FromFirst(configured, k + 1, added);
        HasSnoc(accounts, added);
        accounts := accounts + [added];
      }
    }
  }

  lemma HasSnoc(accounts: seq<Account>, a: Account)
    ensures forall h :: Has(accounts + [a], h) <==> Has(accounts, h) || a.homeserver == h
  {
    var all := accounts + [a];
    forall h ensures Has(all, h) <==> Has(accounts, h) || a.homeserver == h {
      if Has(accounts, h) {
        var i :| 0 <= i < |accounts| && accounts[i].homeserver == h;
        assert all[i].homeserver == h;
      }
      assert all[|accounts|] == a;
    }
  }
}
