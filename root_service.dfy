/** The service of the top-level `dnsrbl` package: an allow-list of CIDR
    networks guards blocking, the address store is written first, and the
    Cloudflare access rule that follows is best effort: its failure is only
    logged. The store is a map held by the service, one row per IP; each
    store and Cloudflare API call is one call into `Backend.Env`. Which
    store `Service.Store` is does not matter to the model: under
    `REPLACE INTO` a write replaces the row, and under `INSERT` a refused
    duplicate is a failed call, so either way a successful write leaves
    exactly the new row. */
module RootService {
  import opened Common
  import opened IPv4
  import opened Backend
  import RootModels

  const ErrInAllowList: Error := Message("That IP address is in allow list.")
  const ErrNotBlocked: Error := Message("That IP address isn't blocked.")

  function ErrNotValid(ip: string): Error
  {
    Message("Address '" + ip + "' is not a valid IP address.")
  }

  function ErrRuleNotFound(ip: string): Error
  {
    Message("AccessRule for IP address '" + ip + "' was not found. ")
  }

  /** A sequence of calls and the error it ended with, if any. */
  datatype Effect = Effect(err: Option<Error>, calls: seq<Event>)

  /** `IsAddressInAllowList` as a predicate: the IP is valid and some network
      of the list contains it. */
  predicate InAllowList(allowList: seq<Cidr>, ip: string)
  {
    var v := ParseIPv4(ip);
    v.Some? && exists i :: 0 <= i < |allowList| && Contains(allowList[i], v.value)
  }

  /** `v` lies in the `2^(32 - prefix)` addresses from the network's base up. */
  predicate InRange(c: Cidr, v: nat)
  {
    c.base <= v < c.base + Pow2(32 - c.prefix)
  }

  /** An IP is allow-listed exactly when it is valid and lies in the address
      range of some network of the list. */
  lemma InAllowListRange(allowList: seq<Cidr>, ip: string)
    requires forall i :: 0 <= i < |allowList| ==> ValidCidr(allowList[i])
    ensures InAllowList(allowList, ip) <==>
      && ValidIP(ip)
      && exists i :: 0 <= i < |allowList| && InRange(allowList[i], ParseIPv4(ip).value)
  {
    if ValidIP(ip) {
      var v := ParseIPv4(ip).value;
      forall i | 0 <= i < |allowList|
        ensures Contains(allowList[i], v) <==> InRange(allowList[i], v)
      {
        ContainsRange(allowList[i], v);
      }
    }
  }

  /** `BlockIPAddressInCloudflare` with its call at log position `at`. An
      answer whose `Success` is false is not reported as an error. */
  function CloudflareBlockOutcome(ip: string, at: nat, faulty: set<nat>): (e: Effect)
    ensures !ValidIP(ip) ==> e == Effect(Some(ErrNotValid(ip)), [])
    ensures ValidIP(ip) ==> e.calls == [AccessRuleCreate(ip)] && (e.err.Some? <==> at in faulty)
  {
    if !ValidIP(ip) then Effect(Some(ErrNotValid(ip)), [])
    else if at in faulty then Effect(Some(Failed(AccessRuleCreate(ip))), [AccessRuleCreate(ip)])
    else Effect(None, [AccessRuleCreate(ip)])
  }

  /** `UnblockIPAddressInCloudflare` with its first call at log position
      `at`: list the block rules for the IP, and delete the only one. */
  function CloudflareUnblockOutcome(ip: string, at: nat, faulty: set<nat>, answer: nat -> Answer): Effect
  {
    if !ValidIP(ip) then Effect(Some(ErrNotValid(ip)), [])
    else if at in faulty then Effect(Some(Failed(AccessRuleList(ip))), [AccessRuleList(ip)])
    else
      var ids := answer(at).ruleIds;
      if |ids| != 1 then Effect(Some(ErrRuleNotFound(ip)), [AccessRuleList(ip)])
      else if at + 1 in faulty then Effect(Some(Failed(AccessRuleDelete(ids[0]))), [AccessRuleList(ip), AccessRuleDelete(ids[0])])
      else Effect(None, [AccessRuleList(ip), AccessRuleDelete(ids[0])])
  }

  /** Both helpers refuse an invalid IP before any API call. */
  lemma CloudflareGuards(ip: string, at: nat, faulty: set<nat>, answer: nat -> Answer)
    requires !ValidIP(ip)
    ensures CloudflareBlockOutcome(ip, at, faulty) == Effect(Some(ErrNotValid(ip)), [])
    ensures CloudflareUnblockOutcome(ip, at, faulty, answer) == Effect(Some(ErrNotValid(ip)), [])
  {
  }

  /** Unblocking deletes a rule only when exactly one rule is listed for the
      IP, and then deletes exactly that rule; otherwise it is an error. */
  lemma CloudflareUnblockDeletesTheRule(ip: string, at: nat, faulty: set<nat>, answer: nat -> Answer)
    requires ValidIP(ip)
    ensures var e := CloudflareUnblockOutcome(ip, at, faulty, answer);
      && e.calls[0] == AccessRuleList(ip)
      && (forall id :: AccessRuleDelete(id) in e.calls <==>
            at !in faulty && answer(at).ruleIds == [id])
      && (e.err.None? <==> at !in faulty && |answer(at).ruleIds| == 1 && at + 1 !in faulty)
      && (at !in faulty && |answer(at).ruleIds| != 1 ==> e.err == Some(ErrRuleNotFound(ip)))
  {
  }

  class Service {
    /** The `addresses` table, by IP. */
    var store: map<string, RootModels.Address>
    /** `Config.AllowList`, parsed. */
    const allowList: seq<Cidr>

    ghost predicate Valid()
    {
      forall i :: 0 <= i < |allowList| ==> ValidCidr(allowList[i])
    }

    constructor (allowList: seq<Cidr>)
      requires forall i :: 0 <= i < |allowList| ==> ValidCidr(allowList[i])
      ensures store == map[] && this.allowList == allowList && Valid()
    {
      store := map[];
      this.allowList := allowList;
    }

    /** `IsAddressInAllowList`: a search over the allow-list. */
    method IsAddressInAllowList(ip: string) returns (listed: bool)
      requires Valid()
      ensures listed == InAllowList(allowList, ip)
    {
      var v := ParseIPv4(ip);
      if v.None? {
        return false;
      }
      var i := 0;
      while i < |allowList|
        invariant 0 <= i <= |allowList|
        invariant forall j :: 0 <= j < i ==> !Contains(allowList[j], v.value)
      {
        if Contains(allowList[i], v.value) {
          return true;
        }
        i := i + 1;
      }
      listed := false;
    }

    method BlockIPAddressInCloudflare(env: Env, ip: string) returns (err: Option<Error>)
      modifies env
      ensures var e := CloudflareBlockOutcome(ip, |old(env.log)|, env.faulty);
        err == e.err && env.log == old(env.log) + e.calls
    {
      if !ValidIP(ip) {
        return Some(ErrNotValid(ip));
      }
      var response := env.Query(AccessRuleCreate(ip));
      if response.None? {
        return Some(Failed(AccessRuleCreate(ip)));
      }
      err := None;
    }

    method UnblockIPAddressInCloudflare(env: Env, ip: string) returns (err: Option<Error>)
      modifies env
      ensures var e := CloudflareUnblockOutcome(ip, |old(env.log)|, env.faulty, env.answer);
        err == e.err && env.log == old(env.log) + e.calls
    {
      if !ValidIP(ip) {
        return Some(ErrNotValid(ip));
      }
      var rules := env.Query(AccessRuleList(ip));
      if rules.None? {
        return Some(Failed(AccessRuleList(ip)));
      }
      var ids := rules.value.ruleIds;
      if |ids| != 1 {
        return Some(ErrRuleNotFound(ip));
      }
      var response := env.Query(AccessRuleDelete(ids[0]));
      if response.None? {
        return Some(Failed(AccessRuleDelete(ids[0])));
      }
      err := None;
    }

    /** `BlockAddress`: an allow-listed IP is refused before the store is
        touched; a failed store write is returned and Cloudflare is not
        called; once the row is written the result is success whatever
        Cloudflare answers. */
    method BlockAddress(env: Env, address: RootModels.Address) returns (err: Option<Error>)
      requires Valid()
      modifies this, env
      ensures InAllowList(allowList, address.address) ==>
        err == Some(ErrInAllowList) && env.log == old(env.log) && store == old(store)
      ensures !InAllowList(allowList, address.address) && |old(env.log)| in env.faulty ==>
        && err == Some(Failed(StoreCreate(address.address)))
        && env.log == old(env.log) + [StoreCreate(address.address)]
        && store == old(store)
      ensures !InAllowList(allowList, address.address) && |old(env.log)| !in env.faulty ==>
        && err.None?
        && env.log == old(env.log) + [StoreCreate(address.address)]
                      + CloudflareBlockOutcome(address.address, |old(env.log)| + 1, env.faulty).calls
        && store == old(store)[address.address := address]
    {
      var listed := IsAddressInAllowList(address.address);
      if listed {
        return Some(ErrInAllowList);
      }
      var ok := env.Call(StoreCreate(address.address));
      if !ok {
        return Some(Failed(StoreCreate(address.address)));
      }
      store := store[address.address := address];
      var logged := BlockIPAddressInCloudflare(env, address.address);
      err := None;
    }

    /** `UnblockAddress`: an IP with no row is reported and nothing is
        deleted; otherwise the row is deleted first, a failed delete is
        returned and Cloudflare is not called, and after a delete the result
        is success whatever Cloudflare answers. A lookup that fails other
        than with "not found" goes on to the delete. */
    method UnblockAddress(env: Env, ip: string) returns (err: Option<Error>)
      modifies this, env
      ensures |old(env.log)| !in env.faulty && ip !in old(store) ==>
        err == Some(ErrNotBlocked) && env.log == old(env.log) + [StoreGet(ip)] && store == old(store)
      ensures |old(env.log)| in env.faulty || ip in old(store) ==>
        && |env.log| >= |old(env.log)| + 2
        && env.log[..|old(env.log)| + 2] == old(env.log) + [StoreGet(ip), StoreDelete(ip)]
        && (|old(env.log)| + 1 in env.faulty ==>
              err == Some(Failed(StoreDelete(ip))) && |env.log| == |old(env.log)| + 2 && store == old(store))
        && (|old(env.log)| + 1 !in env.faulty ==>
              && err.None? && store == old(store) - {ip}
              && env.log[|old(env.log)| + 2..] == CloudflareUnblockOutcome(ip, |old(env.log)| + 2, env.faulty, env.answer).calls)
    {
      var ok := env.Call(StoreGet(ip));
      if ok && ip !in store {
        return Some(ErrNotBlocked);
      }
      ok := env.Call(StoreDelete(ip));
      if !ok {
        return Some(Failed(StoreDelete(ip)));
      }
      store := store - {ip};
      ghost var deleted := env.log;
      var logged := UnblockIPAddressInCloudflare(env, ip);
      assert env.log[|deleted|..] == env.log[|old(env.log)| + 2..];
      err := None;
    }
  }
}
