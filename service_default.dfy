/** The default orchestration service of the `hbl` package. It writes the
    address repository and drives the endpoint, alerter and checker
    registries: Block writes the record, then fans out to the endpoints, then
    alerts; Allow writes the record and alerts; Unblock fans out and alerts;
    the synchronisations fan out "Sync" for stored addresses. */
module DefaultService {
  import opened Common
  import opened Backend
  import opened Models
  import Repository
  import Endpoints
  import Alerters
  import Checkers
  import opened Reputation

  /** The alert sent for a record: its IP, action and comment (the author is
      not passed on). */
  function AlertOf(a: Address): Alert
  {
    Alert(a.ip, a.action, "", a.comment)
  }

  /** The IPs of a list of records, in order. */
  function IPs(addresses: seq<Address>): seq<string>
  {
    seq(|addresses|, i requires 0 <= i < |addresses| => addresses[i].ip)
  }

  /** `SyncAll`'s effect on the list of IPs `ips`: the "Sync" fan-out for each
      IP in turn, stopping at the first fan-out that fails. */
  function Sweep(ips: seq<string>, order: seq<string>, at: nat, faulty: set<nat>): Endpoints.Outcome
    decreases |ips|
  {
    if |ips| == 0 then Endpoints.Outcome([], None)
    else
      var first := Endpoints.FanOut(order, Sync, ips[0], at, faulty);
      if first.err.Some? then first
      else
        var rest := Sweep(ips[1..], order, at + |first.calls|, faulty);
        Endpoints.Outcome(first.calls + rest.calls, rest.err)
  }

  /** A sweep over `a + b` is the sweep over `a`, followed, when that
      succeeds, by the sweep over `b`. */
  lemma {:induction false} SweepAppend(a: seq<string>, b: seq<string>, order: seq<string>, at: nat, faulty: set<nat>)
    ensures Sweep(a + b, order, at, faulty)
      == var first := Sweep(a, order, at, faulty);
         if first.err.Some? then first
         else
           var rest := Sweep(b, order, at + |first.calls|, faulty);
           Endpoints.Outcome(first.calls + rest.calls, rest.err)
    decreases |a|
  {
    if |a| == 0 {
      assert a + b == b;
    } else {
      var head := Endpoints.FanOut(order, Sync, a[0], at, faulty);
      var k := at + |head.calls|;
      assert Sweep(a + b, order, at, faulty)
        == if head.err.Some? then head
           else var tail := Sweep(a[1..] + b, order, k, faulty); Endpoints.Outcome(head.calls + tail.calls, tail.err)
      by {
        var ab := a + b;
        assert ab[0] == a[0] && ab[1..] == a[1..] + b;
      }
      if head.err.None? {
        SweepAppend(a[1..], b, order, k, faulty);
        var mid := Sweep(a[1..], order, k, faulty);
        OutcomeAssoc(head.calls, mid, Sweep(b, order, k + |mid.calls|, faulty));
      }
    }
  }

  /** The bookkeeping of `SweepAppend`: prefixing calls to a sweep that goes
      on after `mid` is the same as going on after the prefixed `mid`. */
  lemma OutcomeAssoc(head: seq<Event>, mid: Endpoints.Outcome, rest: Endpoints.Outcome)
    ensures var tail := if mid.err.Some? then mid else Endpoints.Outcome(mid.calls + rest.calls, rest.err);
      var first := Endpoints.Outcome(head + mid.calls, mid.err);
      Endpoints.Outcome(head + tail.calls, tail.err)
      == if first.err.Some? then first else Endpoints.Outcome(first.calls + rest.calls, rest.err)
  {
    assert head + (mid.calls + rest.calls) == (head + mid.calls) + rest.calls;
  }

  /** Fail-fast: once the sweep has failed on one of the first `j` IPs, the
      IPs after them are never attempted. */
  lemma SweepStops(ips: seq<string>, j: nat, order: seq<string>, at: nat, faulty: set<nat>)
    requires j <= |ips| && Sweep(ips[..j], order, at, faulty).err.Some?
    ensures Sweep(ips, order, at, faulty) == Sweep(ips[..j], order, at, faulty)
  {
    SweepAppend(ips[..j], ips[j..], order, at, faulty);
    assert ips[..j] + ips[j..] == ips;
  }

  /** One more IP: the sweep over the first `i + 1` IPs, when the sweep
      over the first `i` succeeded, adds the fan-out for IP `i`. */
  lemma SweepStep(ips: seq<string>, i: nat, order: seq<string>, at: nat, faulty: set<nat>)
    requires i < |ips| && Sweep(ips[..i], order, at, faulty).err.None?
    ensures var before := Sweep(ips[..i], order, at, faulty);
      var f := Endpoints.FanOut(order, Sync, ips[i], at + |before.calls|, faulty);
      Sweep(ips[..i + 1], order, at, faulty) == Endpoints.Outcome(before.calls + f.calls, f.err)
  {
    var before := Sweep(ips[..i], order, at, faulty);
    var k := at + |before.calls|;
    var f := Endpoints.FanOut(order, Sync, ips[i], k, faulty);
    assert [ips[i]][1..] == [];
    assert Sweep([ips[i]][1..], order, k + |f.calls|, faulty) == Endpoints.Outcome([], None);
    assert f.calls + [] == f.calls;
    assert Sweep([ips[i]], order, k, faulty) == f;
    SweepAppend(ips[..i], [ips[i]], order, at, faulty);
    assert ips[..i] + [ips[i]] == ips[..i + 1];
  }

  /** Every endpoint's "Sync" call for every IP, IP after IP. */
  function SyncCalls(ips: seq<string>, order: seq<string>): seq<Event>
    decreases |ips|
  {
    if |ips| == 0 then [] else Endpoints.Calls(order, Sync, ips[0]) + SyncCalls(ips[1..], order)
  }

  /** A sweep that succeeds has synced every IP on every endpoint. */
  lemma {:induction false} SweepSucceeds(ips: seq<string>, order: seq<string>, at: nat, faulty: set<nat>)
    requires Sweep(ips, order, at, faulty).err.None?
    ensures Sweep(ips, order, at, faulty).calls == SyncCalls(ips, order)
    decreases |ips|
  {
    if |ips| > 0 {
      var first := Endpoints.FanOut(order, Sync, ips[0], at, faulty);
      Endpoints.FanOutShape(order, Sync, ips[0], at, faulty);
      assert order[..|order|] == order;
      SweepSucceeds(ips[1..], order, at + |first.calls|, faulty);
    }
  }

  class Service {
    const repo: Repository.MockRepository
    const endpoints: Endpoints.Registry
    const alerters: Alerters.Registry
    const checkers: Checkers.Registry

    constructor (repo: Repository.MockRepository, endpoints: Endpoints.Registry,
                 alerters: Alerters.Registry, checkers: Checkers.Registry)
      ensures this.repo == repo && this.endpoints == endpoints
      ensures this.alerters == alerters && this.checkers == checkers
    {
      this.repo := repo;
      this.endpoints := endpoints;
      this.alerters := alerters;
      this.checkers := checkers;
    }

    ghost predicate Valid()
      reads this, repo, endpoints, alerters, checkers
    {
      repo.Valid() && endpoints.Valid() && alerters.Valid() && checkers.Valid()
    }

    /** `Unblock`: the "Unblock" fan-out, then one alert per alerter if it
        succeeded. The repository is not touched. */
    method Unblock(env: Env, address: Address, order: seq<string>, alertOrder: seq<string>)
      returns (err: Option<Error>)
      requires Valid()
      requires IsEnumeration(order, endpoints.endpoints.Keys)
      requires IsEnumeration(alertOrder, alerters.alerters.Keys)
      modifies env
      ensures var o := Endpoints.FanOut(order, Op.Unblock, address.ip, |old(env.log)|, env.faulty);
        && err == o.err
        && env.log == old(env.log) + o.calls
             + (if o.err.None? then Alerters.Alerts(alertOrder, AlertOf(address)) else [])
    {
      err := endpoints.ExecuteOnAll(env, address.ip, "Unblock", order);
      if err.Some? {
        return;
      }
      alerters.AlertOnAll(env, AlertOf(address), alertOrder);
    }

    /** `Block`: writes the record first; if that is refused nothing else
        happens. Otherwise the "Block" fan-out runs, and only when it
        succeeds is one alert sent per alerter. A failed fan-out leaves the
        record in place. */
    method Block(env: Env, address: Address, order: seq<string>, alertOrder: seq<string>)
      returns (err: Option<Error>)
      requires Valid()
      requires IsEnumeration(order, endpoints.endpoints.Keys)
      requires IsEnumeration(alertOrder, alerters.alerters.Keys)
      modifies repo, env
      ensures Valid()
      ensures address.ip in old(repo.db) ==>
        err == Some(Repository.ErrAlreadyExists) && repo.db == old(repo.db) && env.log == old(env.log)
      ensures address.ip !in old(repo.db) ==>
        && repo.db == old(repo.db)[address.ip := address]
        && var o := Endpoints.FanOut(order, Op.Block, address.ip, |old(env.log)|, env.faulty);
        && err == o.err
        && env.log == old(env.log) + o.calls
             + (if o.err.None? then Alerters.Alerts(alertOrder, AlertOf(address)) else [])
    {
      err := repo.CreateAddress(address);
      if err.Some? {
        return;
      }
      err := endpoints.ExecuteOnAll(env, address.ip, "Block", order);
      if err.Some? {
        return;
      }
      alerters.AlertOnAll(env, AlertOf(address), alertOrder);
    }

    /** `Allow`: writes the record and, if that succeeds, alerts; no endpoint
        is called. */
    method Allow(env: Env, address: Address, alertOrder: seq<string>) returns (err: Option<Error>)
      requires Valid()
      requires IsEnumeration(alertOrder, alerters.alerters.Keys)
      modifies repo, env
      ensures Valid()
      ensures address.ip in old(repo.db) ==>
        err == Some(Repository.ErrAlreadyExists) && repo.db == old(repo.db) && env.log == old(env.log)
      ensures address.ip !in old(repo.db) ==>
        && err == None
        && repo.db == old(repo.db)[address.ip := address]
        && env.log == old(env.log) + Alerters.Alerts(alertOrder, AlertOf(address))
    {
      err := repo.CreateAddress(address);
      if err.Some? {
        return;
      }
      alerters.AlertOnAll(env, AlertOf(address), alertOrder);
    }

    /** `Delete`: exactly the repository's `DeleteAddress`. */
    method Delete(ip: string) returns (err: Option<Error>)
      requires Valid()
      modifies repo
      ensures Valid()
      ensures ip !in old(repo.db) ==> err == Some(Repository.ErrDoesNotExist) && repo.db == old(repo.db)
      ensures ip in old(repo.db) ==> err == None && repo.db == old(repo.db) - {ip}
    {
      err := repo.DeleteAddress(ip);
    }

    /** `GetOne`: exactly the repository's `GetAddress`. */
    method GetOne(ip: string) returns (r: Result<Address, Error>)
      requires Valid()
      ensures ip in repo.db ==> r == Ok(repo.db[ip])
      ensures ip !in repo.db ==> r == Err(Repository.ErrDoesNotExist)
    {
      r := repo.GetAddress(ip);
    }

    /** `GetAll`: exactly the repository's `GetAddresses`. */
    method GetAll(order: seq<string>) returns (addresses: seq<Address>)
      requires Valid() && IsEnumeration(order, repo.db.Keys)
      ensures addresses == Repository.Listed(repo.db, order)
    {
      addresses := repo.GetAddresses(order);
    }

    /** `Check`: exactly `CheckOnOne` with the IP and the checker's name. */
    method Check(env: Env, name: string, ip: string) returns (result: Option<Report>, err: Option<Error>)
      requires Valid()
      modifies env
      ensures name !in checkers.checkers ==> result == None && err == None && env.log == old(env.log)
      ensures name in checkers.checkers ==> env.log == old(env.log) + [CheckerCall(name, ip)]
      ensures name in checkers.checkers && |old(env.log)| in env.faulty ==>
        result == None && err == Some(Failed(CheckerCall(name, ip)))
      ensures name in checkers.checkers && |old(env.log)| !in env.faulty ==>
        result == env.answer(|old(env.log)|).result && err == None
    {
      result, err := checkers.CheckOnOne(env, ip, name);
    }

    /** `SyncOne`: a failed lookup is returned and no endpoint is called;
        otherwise the "Sync" fan-out runs for the stored record's IP. */
    method SyncOne(env: Env, ip: string, order: seq<string>) returns (err: Option<Error>)
      requires Valid() && IsEnumeration(order, endpoints.endpoints.Keys)
      modifies env
      ensures ip !in repo.db ==> err == Some(Repository.ErrDoesNotExist) && env.log == old(env.log)
      ensures ip in repo.db ==>
        var o := Endpoints.FanOut(order, Sync, repo.db[ip].ip, |old(env.log)|, env.faulty);
        err == o.err && env.log == old(env.log) + o.calls
    {
      var r := repo.GetAddress(ip);
      if r.Err? {
        return Some(r.error);
      }
      err := endpoints.ExecuteOnAll(env, r.value.ip, "Sync", order);
    }

    /** `SyncAll`: lists the records (in the map order `listOrder`) and
        sweeps their IPs, stopping at the first failing fan-out. */
    method SyncAll(env: Env, listOrder: seq<string>, order: seq<string>) returns (err: Option<Error>)
      requires Valid()
      requires IsEnumeration(listOrder, repo.db.Keys)
      requires IsEnumeration(order, endpoints.endpoints.Keys)
      modifies env
      ensures var o := Sweep(IPs(Repository.Listed(repo.db, listOrder)), order, |old(env.log)|, env.faulty);
        err == o.err && env.log == old(env.log) + o.calls
    {
      var addresses := repo.GetAddresses(listOrder);
      err := SyncEach(env, IPs(addresses), order);
    }

    /** The loop of `SyncAll`: the "Sync" fan-out for each IP in turn,
        returning the first error. */
    method SyncEach(env: Env, ips: seq<string>, order: seq<string>) returns (err: Option<Error>)
      requires Valid() && IsEnumeration(order, endpoints.endpoints.Keys)
      modifies env
      ensures var o := Sweep(ips, order, |old(env.log)|, env.faulty);
        err == o.err && env.log == old(env.log) + o.calls
    {
      ghost var at := |env.log|;
      assert ParseAction("Sync") == Some(Sync);
      var i := 0;
      while i < |ips|
        invariant 0 <= i <= |ips|
        invariant Sweep(ips[..i], order, at, env.faulty).err.None?
        invariant env.log == old(env.log) + Sweep(ips[..i], order, at, env.faulty).calls
      {
        SweepStep(ips, i, order, at, env.faulty);
        ghost var before := env.log;
        ghost var swept := Sweep(ips[..i], order, at, env.faulty);
        assert |before| == at + |swept.calls|;
        err := endpoints.ExecuteOnAll(env, ips[i], "Sync", order);
        ghost var f := Endpoints.FanOut(order, Sync, ips[i], |before|, env.faulty);
        assert env.log == before + f.calls && err == f.err;
        assert Sweep(ips[..i + 1], order, at, env.faulty) == Endpoints.Outcome(swept.calls + f.calls, f.err);
        assert env.log == old(env.log) + (swept.calls + f.calls);
        if err.Some? {
          SweepStops(ips, i + 1, order, at, env.faulty);
          return;
        }
        i := i + 1;
      }
      assert ips[..i] == ips;
      return None;
    }
  }
}
