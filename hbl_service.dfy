/** The address service of `pkg/hbl/service.go`: blocking pushes an address
    to Cloudflare and to DNS before it is written to the address store, and
    its AbuseIPDB metadata is stored beside it; deleting a blocked address
    undoes all of that in cascade. The two SQL stores are maps held by the
    service; every store, Cloudflare, DNS and AbuseIPDB call is one call into
    `Backend.Env`, which may fail. `ENVIRONMENT == "DEV"` is the `dev` flag. */
module HblService {
  import opened Common
  import opened Reputation
  import opened Backend
  import opened Models

  const ErrAddressExists: Error := Message("the IP address exists")
  const ErrAddressNotExists: Error := Message("the IP address doesn't exist")
  const ErrAddressIsAllowed: Error := Message("the IP address exists and is marked as allowed")
  const ErrAddressIsBlocked: Error := Message("the IP address exists and is marked as blocked")

  /** The messages the service wraps a failed call's error in. */
  const MsgCloudflareBlock: string := "failed to execute CloudflareClient.Block()"
  const MsgDnsBlock: string := "failed to execute DNSClient.Block()"
  const MsgOnBlock: string := "failed to execute onBlock() actions"
  const MsgBlockCreate: string := "failed to execute AddressStore.Create()"
  const MsgAllowCreate: string := "Failed to execute AddressStore.Create()"
  const MsgCloudflareUnblock: string := "Failed to execute CloudflareClient.Unblock()"
  const MsgDnsUnblock: string := "Failed to execute DNSClient.Unblock()"
  const MsgMetadataDelete: string := "Failed to execute MetadataStore.Delete()"
  const MsgAddressDelete: string := "Failed to execute AddressStore.Delete()"

  /** The DNS zone every address is blocked in. */
  const Zone: string := "hostinger.rbl"

  /** The contents of the address table and of the metadata table, by IP. */
  datatype Stores = Stores(addresses: map<string, Address>, metadata: map<string, Metadata>)

  /** A sequence of calls and the error it ended with, if any. */
  datatype Effect = Effect(err: Option<Error>, calls: seq<Event>)

  /** What one service operation did: its error, its calls, and the stores after it. */
  datatype Outcome = Outcome(err: Option<Error>, calls: seq<Event>, stores: Stores)

  /** The columns the address table keeps of a record: IP, author, action
      and comment. */
  function Row(a: Address): (r: Address)
    ensures r.ip == a.ip && r.author == a.author && r.action == a.action && r.comment == a.comment
    ensures r.metadata == ZeroMetadata && !r.blockedCloudflare && !r.blockedPdns
  {
    ZeroAddress.(ip := a.ip, author := a.author, action := a.action, comment := a.comment)
  }

  /** The metadata stored for `ip` from an AbuseIPDB answer. */
  function MetadataOf(ip: string, d: ApiData): Metadata
  {
    Metadata(ip, d.isp, d.usageType, d.countryCode, d.totalReports,
             d.numDistinctUsers, d.abuseConfidenceScore, d.lastReportedAt)
  }

  /** The backend calls of `onBlock`: Cloudflare unless in DEV, then DNS. */
  function OnBlockCalls(ip: string, dev: bool): seq<Event>
  {
    (if dev then [] else [CloudflareBlock(ip)]) + [DnsBlock(ip, Zone)]
  }

  /** `onBlock` with its first call at log position `at`: block in Cloudflare
      unless in DEV, then in DNS; the first failure ends it. */
  function OnBlockOutcome(ip: string, dev: bool, at: nat, faulty: set<nat>): (e: Effect)
    ensures e.err.None? <==> e.calls == OnBlockCalls(ip, dev) && NoFault(faulty, at, at + |e.calls|)
    ensures e.calls <= OnBlockCalls(ip, dev) && |e.calls| >= 1
    ensures e.err.Some? ==> at + |e.calls| - 1 in faulty
  {
    var dns := Effect(Some(Wrapped(MsgDnsBlock, Failed(DnsBlock(ip, Zone)))), [DnsBlock(ip, Zone)]);
    if dev then
      if at in faulty then dns else Effect(None, [DnsBlock(ip, Zone)])
    else if at in faulty then
      Effect(Some(Wrapped(MsgCloudflareBlock, Failed(CloudflareBlock(ip)))), [CloudflareBlock(ip)])
    else if at + 1 in faulty then dns.(calls := [CloudflareBlock(ip)] + dns.calls)
    else Effect(None, OnBlockCalls(ip, dev))
  }

  /** `BlockAddress` with its first call at log position `at`. */
  function BlockOutcome(s: Stores, a: Address, dev: bool, at: nat, faulty: set<nat>, answer: nat -> Answer): Outcome
  {
    var ip := a.ip;
    var lookup := [StoreGet(ip)];
    if at in faulty then Outcome(Some(Failed(StoreGet(ip))), lookup, s)
    else if ip in s.addresses && s.addresses[ip].action == ActionAllow then Outcome(Some(ErrAddressIsAllowed), lookup, s)
    else if ip in s.addresses && s.addresses[ip].action == ActionBlock then Outcome(Some(ErrAddressIsBlocked), lookup, s)
    else
      var rest := BlockNewOutcome(s, a, dev, at + 1, faulty, answer);
      rest.(calls := lookup + rest.calls)
  }

  /** The part of `BlockAddress` for an address with no Allow or Block
      record: the backends first, and the stores only once they succeeded. */
  function BlockNewOutcome(s: Stores, a: Address, dev: bool, at: nat, faulty: set<nat>, answer: nat -> Answer): Outcome
  {
    var backends := OnBlockOutcome(a.ip, dev, at, faulty);
    if backends.err.Some? then
      Outcome(Some(Wrapped(MsgOnBlock, backends.err.value)), backends.calls, s)
    else
      var rest := RecordOutcome(s, a, at + |backends.calls|, faulty, answer);
      rest.(calls := backends.calls + rest.calls)
  }

  /** The part of `BlockAddress` after the backends: write the record, ask
      AbuseIPDB (whose failure leaves the zero answer), write the metadata. */
  function RecordOutcome(s: Stores, a: Address, at: nat, faulty: set<nat>, answer: nat -> Answer): Outcome
  {
    var ip := a.ip;
    if at in faulty then
      Outcome(Some(Wrapped(MsgBlockCreate, Failed(StoreCreate(ip)))), [StoreCreate(ip)], s)
    else
      var created := s.(addresses := s.addresses[ip := Row(a)]);
      var data := if at + 1 in faulty then ZeroData else answer(at + 1).data;
      var calls := [StoreCreate(ip), AbuseCheck(ip), MetadataCreate(ip)];
      if at + 2 in faulty then Outcome(Some(Failed(MetadataCreate(ip))), calls, created)
      else Outcome(None, calls, created.(metadata := created.metadata[ip := MetadataOf(ip, data)]))
  }

  /** `AllowAddress` with its first call at log position `at`. The lookup's
      own failure is not checked: the record is then created. */
  function AllowOutcome(s: Stores, a: Address, at: nat, faulty: set<nat>): Outcome
  {
    var ip := a.ip;
    var lookup := [StoreGet(ip)];
    if at !in faulty && ip in s.addresses && s.addresses[ip].action == ActionAllow then Outcome(Some(ErrAddressIsAllowed), lookup, s)
    else if at !in faulty && ip in s.addresses && s.addresses[ip].action == ActionBlock then Outcome(Some(ErrAddressIsBlocked), lookup, s)
    else if at + 1 in faulty then
      Outcome(Some(Wrapped(MsgAllowCreate, Failed(StoreCreate(ip)))), lookup + [StoreCreate(ip)], s)
    else Outcome(None, lookup + [StoreCreate(ip)], s.(addresses := s.addresses[ip := Row(a)]))
  }

  /** The backend calls that undo a block: Cloudflare unless in DEV, then
      DNS, then the metadata row. */
  function UndoCalls(ip: string, dev: bool): seq<Event>
  {
    (if dev then [] else [CloudflareUnblock(ip)]) + [DnsUnblock(ip, Zone), MetadataDelete(ip)]
  }

  /** The unblock cascade of `DeleteAddress` with its first call at `at`. */
  function UndoOutcome(ip: string, dev: bool, at: nat, faulty: set<nat>): (e: Effect)
    ensures e.err.None? <==> e.calls == UndoCalls(ip, dev) && NoFault(faulty, at, at + |e.calls|)
    ensures e.calls <= UndoCalls(ip, dev) && |e.calls| >= 1
    ensures e.err.Some? ==> at + |e.calls| - 1 in faulty
  {
    var cf := if dev then [] else [CloudflareUnblock(ip)];
    var k := at + |cf|;
    if !dev && at in faulty then
      Effect(Some(Wrapped(MsgCloudflareUnblock, Failed(CloudflareUnblock(ip)))), cf)
    else if k in faulty then
      Effect(Some(Wrapped(MsgDnsUnblock, Failed(DnsUnblock(ip, Zone)))), cf + [DnsUnblock(ip, Zone)])
    else if k + 1 in faulty then
      Effect(Some(Wrapped(MsgMetadataDelete, Failed(MetadataDelete(ip)))), UndoCalls(ip, dev))
    else Effect(None, UndoCalls(ip, dev))
  }

  /** `DeleteAddress` with its first call at log position `at`. A lookup
      that fails other than with "not found" leaves the zero record, whose
      action is not "Block", so only the address row is deleted. */
  function DeleteOutcome(s: Stores, ip: string, dev: bool, at: nat, faulty: set<nat>): Outcome
  {
    if at !in faulty && ip !in s.addresses then Outcome(Some(ErrAddressNotExists), [StoreGet(ip)], s)
    else
      var blocked := at !in faulty && s.addresses[ip].action == ActionBlock;
      var rest := RemoveOutcome(s, ip, blocked, dev, at + 1, faulty);
      Outcome(rest.err, [StoreGet(ip)] + rest.calls, rest.stores)
  }

  /** `DeleteAddress` after the lookup, from log position `at`: a blocked
      address is unblocked first, then the address row is deleted. */
  function RemoveOutcome(s: Stores, ip: string, blocked: bool, dev: bool, at: nat, faulty: set<nat>): Outcome
  {
    var undo := if blocked then UndoOutcome(ip, dev, at, faulty) else Effect(None, []);
    if undo.err.Some? then Outcome(undo.err, undo.calls, s)
    else
      var undone := if blocked then s.(metadata := s.metadata - {ip}) else s;
      var calls := undo.calls + [StoreDelete(ip)];
      if at + |undo.calls| in faulty then Outcome(Some(Wrapped(MsgAddressDelete, Failed(StoreDelete(ip)))), calls, undone)
      else Outcome(None, calls, undone.(addresses := undone.addresses - {ip}))
  }

  /** `GetAddress` with its first call at log position `at`: the record with
      its metadata attached (the zero metadata when there is none). A lookup
      that fails other than with "not found" goes on with the zero record. */
  function GetOutcome(s: Stores, ip: string, at: nat, faulty: set<nat>): (Result<Address, Error>, seq<Event>)
  {
    if at !in faulty && ip !in s.addresses then (Err(ErrAddressNotExists), [StoreGet(ip)])
    else
      var calls := [StoreGet(ip), MetadataGet(ip)];
      if at + 1 in faulty then (Err(Failed(MetadataGet(ip))), calls)
      else
        var record := if at in faulty then ZeroAddress else s.addresses[ip];
        var md := if ip in s.metadata then s.metadata[ip] else ZeroMetadata;
        (Ok(record.(metadata := md)), calls)
  }

  /** `onBlock` skips Cloudflare in DEV; a Cloudflare failure stops before DNS. */
  lemma OnBlockOrder(ip: string, dev: bool, at: nat, faulty: set<nat>)
    ensures dev ==> CloudflareBlock(ip) !in OnBlockOutcome(ip, dev, at, faulty).calls
    ensures !dev ==> OnBlockOutcome(ip, dev, at, faulty).calls[0] == CloudflareBlock(ip)
    ensures !dev && at in faulty ==> OnBlockOutcome(ip, dev, at, faulty).calls == [CloudflareBlock(ip)]
    ensures !dev && at in faulty ==> OnBlockOutcome(ip, dev, at, faulty).err.Some?
  {
  }

  /** An existing Allow or Block record is refused with the matching error
      after the lookup alone; nothing is called and nothing changes. */
  lemma BlockRefusesExisting(s: Stores, a: Address, dev: bool, at: nat, faulty: set<nat>, answer: nat -> Answer)
    requires at !in faulty && a.ip in s.addresses
    requires s.addresses[a.ip].action in {ActionAllow, ActionBlock}
    ensures var o := BlockOutcome(s, a, dev, at, faulty, answer);
      && o.calls == [StoreGet(a.ip)] && o.stores == s
      && o.err == Some(if s.addresses[a.ip].action == ActionAllow then ErrAddressIsAllowed else ErrAddressIsBlocked)
  {
  }

  /** A failed lookup is returned as it is, before any backend call. */
  lemma BlockLookupFailure(s: Stores, a: Address, dev: bool, at: nat, faulty: set<nat>, answer: nat -> Answer)
    requires at in faulty
    ensures BlockOutcome(s, a, dev, at, faulty, answer) == Outcome(Some(Failed(StoreGet(a.ip))), [StoreGet(a.ip)], s)
  {
  }

  /** Backends before the store: the record is written only after every
      `onBlock` call succeeded, and a failed `onBlock` creates nothing. Only
      the IP's own record and metadata may change. */
  lemma BlockBackendsFirst(s: Stores, a: Address, dev: bool, at: nat, faulty: set<nat>, answer: nat -> Answer)
    ensures var o := BlockOutcome(s, a, dev, at, faulty, answer);
      && (StoreCreate(a.ip) in o.calls ==>
            && o.calls[1..1 + |OnBlockCalls(a.ip, dev)|] == OnBlockCalls(a.ip, dev)
            && NoFault(faulty, at, at + 1 + |OnBlockCalls(a.ip, dev)|))
      && (StoreCreate(a.ip) !in o.calls ==> o.stores == s)
      && (o.stores.addresses == s.addresses || o.stores.addresses == s.addresses[a.ip := Row(a)])
      && (forall ip :: ip != a.ip && ip in s.metadata ==> ip in o.stores.metadata && o.stores.metadata[ip] == s.metadata[ip])
      && o.stores.metadata.Keys <= s.metadata.Keys + {a.ip}
  {
    var o := BlockOutcome(s, a, dev, at, faulty, answer);
    var ip := a.ip;
    if at in faulty || (ip in s.addresses && s.addresses[ip].action in {ActionAllow, ActionBlock}) {
      assert o.calls == [StoreGet(ip)] && o.stores == s;
    } else {
      var b := OnBlockOutcome(ip, dev, at + 1, faulty);
      assert StoreCreate(ip) !in b.calls by {
        assert b.calls <= OnBlockCalls(ip, dev);
      }
      var k := at + 1 + |b.calls|;
      if b.err.Some? {
        assert o.calls == [StoreGet(ip)] + b.calls && o.stores == s;
      } else {
        assert o.calls[1..1 + |b.calls|] == b.calls;
        var created := s.(addresses := s.addresses[ip := Row(a)]);
        assert o.stores == s || o.stores == created || o.stores.addresses == created.addresses;
      }
    }
  }

  /** A failed AbuseIPDB lookup is only logged: the metadata is still written,
      from the zero answer, and only the metadata write's error is returned. */
  lemma BlockSurvivesAbuseFailure(s: Stores, a: Address, dev: bool, at: nat, faulty: set<nat>, answer: nat -> Answer)
    requires a.ip !in s.addresses
    requires NoFault(faulty, at, at + 2 + |OnBlockCalls(a.ip, dev)|)
    requires at + 2 + |OnBlockCalls(a.ip, dev)| in faulty
    ensures var o := BlockOutcome(s, a, dev, at, faulty, answer);
      && o.calls == [StoreGet(a.ip)] + OnBlockCalls(a.ip, dev) + [StoreCreate(a.ip), AbuseCheck(a.ip), MetadataCreate(a.ip)]
      && o.stores.addresses == s.addresses[a.ip := Row(a)]
      && (at + 3 + |OnBlockCalls(a.ip, dev)| !in faulty ==>
            o.err.None? && o.stores.metadata == s.metadata[a.ip := MetadataOf(a.ip, ZeroData)])
      && (at + 3 + |OnBlockCalls(a.ip, dev)| in faulty ==> o.err == Some(Failed(MetadataCreate(a.ip))))
  {
    assert OnBlockOutcome(a.ip, dev, at + 1, faulty).err.None?;
  }

  /** `AllowAddress` refuses existing Allow and Block records and otherwise
      writes the record; it never calls a backend. */
  lemma AllowStoresOnly(s: Stores, a: Address, at: nat, faulty: set<nat>)
    ensures var o := AllowOutcome(s, a, at, faulty);
      && (forall e :: e in o.calls ==> e == StoreGet(a.ip) || e == StoreCreate(a.ip))
      && (at !in faulty && a.ip in s.addresses && s.addresses[a.ip].action == ActionAllow ==>
            o.err == Some(ErrAddressIsAllowed) && o.stores == s)
      && (at !in faulty && a.ip in s.addresses && s.addresses[a.ip].action == ActionBlock ==>
            o.err == Some(ErrAddressIsBlocked) && o.stores == s)
      && (o.err.None? <==> o.stores == s.(addresses := s.addresses[a.ip := Row(a)]) && StoreCreate(a.ip) in o.calls && at + 1 !in faulty)
  {
  }

  /** Deleting an address that has no record reports it and deletes nothing. */
  lemma DeleteMissing(s: Stores, ip: string, dev: bool, at: nat, faulty: set<nat>)
    requires at !in faulty && ip !in s.addresses
    ensures DeleteOutcome(s, ip, dev, at, faulty) == Outcome(Some(ErrAddressNotExists), [StoreGet(ip)], s)
  {
  }

  /** A blocked record is undone in order: Cloudflare (unless in DEV), DNS,
      the metadata row, and last the address row; each failure stops the
      rest. Any other record loses only its address row. */
  lemma DeleteCascade(s: Stores, ip: string, dev: bool, at: nat, faulty: set<nat>)
    requires at !in faulty && ip in s.addresses
    ensures var o := DeleteOutcome(s, ip, dev, at, faulty);
      && (s.addresses[ip].action == ActionBlock ==>
            && o.calls <= [StoreGet(ip)] + UndoCalls(ip, dev) + [StoreDelete(ip)]
            && (StoreDelete(ip) in o.calls <==> NoFault(faulty, at + 1, at + 1 + |UndoCalls(ip, dev)|))
            && (o.err.None? <==> NoFault(faulty, at + 1, at + 2 + |UndoCalls(ip, dev)|))
            && (o.err.None? ==> o.stores == Stores(s.addresses - {ip}, s.metadata - {ip})))
      && (s.addresses[ip].action != ActionBlock ==>
            && o.calls == [StoreGet(ip), StoreDelete(ip)]
            && o.stores.metadata == s.metadata
            && (o.err.None? <==> at + 1 !in faulty)
            && (o.err.None? ==> o.stores.addresses == s.addresses - {ip}))
  {
    if s.addresses[ip].action == ActionBlock {
      var u := UndoOutcome(ip, dev, at + 1, faulty);
      var n := |UndoCalls(ip, dev)|;
      if u.err.Some? {
        assert at + |u.calls| in faulty;
        assert StoreDelete(ip) !in UndoCalls(ip, dev);
      }
    }
  }

  /** As written, a lookup that fails other than with "not found" is not
      returned: the zero record comes back with its metadata and no error. */
  lemma GetMasksLookupFailure(s: Stores, ip: string, at: nat, faulty: set<nat>)
    requires at in faulty && at + 1 !in faulty
    ensures GetOutcome(s, ip, at, faulty).0.Ok?
    ensures GetOutcome(s, ip, at, faulty).0.value.ip == ""
  {
  }

  /** A stored record comes back with the metadata stored for its IP. */
  lemma GetAttachesMetadata(s: Stores, ip: string, at: nat, faulty: set<nat>)
    requires NoFault(faulty, at, at + 2) && ip in s.addresses
    ensures GetOutcome(s, ip, at, faulty).0 == Ok(s.addresses[ip].(metadata := if ip in s.metadata then s.metadata[ip] else ZeroMetadata))
  {
  }

  class Service {
    var addresses: map<string, Address>
    var metadata: map<string, Metadata>

    constructor ()
      ensures addresses == map[] && metadata == map[]
    {
      addresses := map[];
      metadata := map[];
    }

    function State(): Stores
      reads this
    {
      Stores(addresses, metadata)
    }

    /** `AddressStore.GetOne`. */
    method GetRecord(env: Env, ip: string) returns (r: Result<Address, Error>)
      modifies env
      ensures env.log == old(env.log) + [StoreGet(ip)]
      ensures r == if |old(env.log)| in env.faulty then Err(Failed(StoreGet(ip)))
                   else if ip in addresses then Ok(addresses[ip]) else Err(NoRows)
    {
      var ok := env.Call(StoreGet(ip));
      r := if !ok then Err(Failed(StoreGet(ip))) else if ip in addresses then Ok(addresses[ip]) else Err(NoRows);
    }

    /** `AddressStore.Create`: `REPLACE INTO`, so an existing row is overwritten. */
    method CreateRecord(env: Env, a: Address) returns (ok: bool)
      modifies this, env
      ensures env.log == old(env.log) + [StoreCreate(a.ip)]
      ensures ok <==> |old(env.log)| !in env.faulty
      ensures addresses == if ok then old(addresses)[a.ip := Row(a)] else old(addresses)
      ensures metadata == old(metadata)
    {
      ok := env.Call(StoreCreate(a.ip));
      if ok {
        addresses := addresses[a.ip := Row(a)];
      }
    }

    method OnBlock(env: Env, ip: string, dev: bool) returns (err: Option<Error>)
      modifies env
      ensures var e := OnBlockOutcome(ip, dev, |old(env.log)|, env.faulty);
        err == e.err && env.log == old(env.log) + e.calls
    {
      if !dev {
        var ok := env.Call(CloudflareBlock(ip));
        if !ok {
          return Some(Wrapped(MsgCloudflareBlock, Failed(CloudflareBlock(ip))));
        }
      }
      var ok := env.Call(DnsBlock(ip, Zone));
      err := if ok then None else Some(Wrapped(MsgDnsBlock, Failed(DnsBlock(ip, Zone))));
    }

    method BlockAddress(env: Env, a: Address, dev: bool) returns (err: Option<Error>)
      modifies this, env
      ensures var o := BlockOutcome(old(State()), a, dev, |old(env.log)|, env.faulty, env.answer);
        err == o.err && env.log == old(env.log) + o.calls && State() == o.stores
    {
      ghost var at := |env.log|;
      ghost var s0 := State();
      var r := GetRecord(env, a.ip);
      if r.Err? && r.error != NoRows {
        assert BlockOutcome(s0, a, dev, at, env.faulty, env.answer) == Outcome(Some(r.error), [StoreGet(a.ip)], s0);
        return Some(r.error);
      }
      if r.Ok? {
        if r.value.action == ActionAllow {
          assert BlockOutcome(s0, a, dev, at, env.faulty, env.answer) == Outcome(Some(ErrAddressIsAllowed), [StoreGet(a.ip)], s0);
          return Some(ErrAddressIsAllowed);
        }
        if r.value.action == ActionBlock {
          assert BlockOutcome(s0, a, dev, at, env.faulty, env.answer) == Outcome(Some(ErrAddressIsBlocked), [StoreGet(a.ip)], s0);
          return Some(ErrAddressIsBlocked);
        }
      }
      err := BlockNew(env, a, dev);
    }

    /** `BlockAddress` for an address with no Allow or Block record. */
    method BlockNew(env: Env, a: Address, dev: bool) returns (err: Option<Error>)
      modifies this, env
      ensures var o := BlockNewOutcome(old(State()), a, dev, |old(env.log)|, env.faulty, env.answer);
        err == o.err && env.log == old(env.log) + o.calls && State() == o.stores
    {
      ghost var at := |env.log|;
      var e := OnBlock(env, a.ip, dev);
      if e.Some? {
        return Some(Wrapped(MsgOnBlock, e.value));
      }
      ghost var mid := env.log;
      err := Record(env, a);
      assert env.log == mid + env.log[|mid|..];
    }

    /** `BlockAddress` once the backends succeeded. */
    method Record(env: Env, a: Address) returns (err: Option<Error>)
      modifies this, env
      ensures var o := RecordOutcome(old(State()), a, |old(env.log)|, env.faulty, env.answer);
        err == o.err && env.log == old(env.log) + o.calls && State() == o.stores
    {
      ghost var at := |env.log|;
      var ok := CreateRecord(env, a);
      if !ok {
        return Some(Wrapped(MsgBlockCreate, Failed(StoreCreate(a.ip))));
      }
      var report := env.Query(AbuseCheck(a.ip));
      var data := if report.Some? then report.value.data else ZeroData;
      assert data == if at + 1 in env.faulty then ZeroData else env.answer(at + 1).data;
      ok := env.Call(MetadataCreate(a.ip));
      if !ok {
        return Some(Failed(MetadataCreate(a.ip)));
      }
      metadata := metadata[a.ip := MetadataOf(a.ip, data)];
      err := None;
    }

    method AllowAddress(env: Env, a: Address) returns (err: Option<Error>)
      modifies this, env
      ensures var o := AllowOutcome(old(State()), a, |old(env.log)|, env.faulty);
        err == o.err && env.log == old(env.log) + o.calls && State() == o.stores
    {
      var r := GetRecord(env, a.ip);
      if r.Ok? {
        if r.value.action == ActionAllow {
          return Some(ErrAddressIsAllowed);
        }
        if r.value.action == ActionBlock {
          return Some(ErrAddressIsBlocked);
        }
      }
      var ok := CreateRecord(env, a);
      err := if ok then None else Some(Wrapped(MsgAllowCreate, Failed(StoreCreate(a.ip))));
    }

    method DeleteAddress(env: Env, ip: string, dev: bool) returns (err: Option<Error>)
      modifies this, env
      ensures var o := DeleteOutcome(old(State()), ip, dev, |old(env.log)|, env.faulty);
        err == o.err && env.log == old(env.log) + o.calls && State() == o.stores
    {
      ghost var at := |env.log|;
      var r := GetRecord(env, ip);
      if r.Err? && r.error == NoRows {
        return Some(ErrAddressNotExists);
      }
      var a := if r.Ok? then r.value else ZeroAddress;
      ghost var mid := env.log;
      err := Remove(env, ip, a.action == ActionBlock, dev);
      assert env.log == mid + env.log[|mid|..];
    }

    /** `DeleteAddress` after the lookup. */
    method Remove(env: Env, ip: string, blocked: bool, dev: bool) returns (err: Option<Error>)
      modifies this, env
      ensures var o := RemoveOutcome(old(State()), ip, blocked, dev, |old(env.log)|, env.faulty);
        err == o.err && env.log == old(env.log) + o.calls && State() == o.stores
    {
      if blocked {
        ghost var at := |env.log|;
        var e := Undo(env, ip, dev);
        if e.Some? {
          return e;
        }
        assert env.log == old(env.log) + UndoCalls(ip, dev);
      }
      var ok := env.Call(StoreDelete(ip));
      if !ok {
        return Some(Wrapped(MsgAddressDelete, Failed(StoreDelete(ip))));
      }
      addresses := addresses - {ip};
      err := None;
    }

    /** The unblock cascade of `DeleteAddress` for a blocked address: the
        metadata row goes only once every backend call succeeded. */
    method Undo(env: Env, ip: string, dev: bool) returns (err: Option<Error>)
      modifies this, env
      ensures var e := UndoOutcome(ip, dev, |old(env.log)|, env.faulty);
        && err == e.err && env.log == old(env.log) + e.calls
        && addresses == old(addresses)
        && metadata == if e.err.None? then old(metadata) - {ip} else old(metadata)
    {
      if !dev {
        var ok := env.Call(CloudflareUnblock(ip));
        if !ok {
          return Some(Wrapped(MsgCloudflareUnblock, Failed(CloudflareUnblock(ip))));
        }
      }
      var ok := env.Call(DnsUnblock(ip, Zone));
      if !ok {
        return Some(Wrapped(MsgDnsUnblock, Failed(DnsUnblock(ip, Zone))));
      }
      ok := env.Call(MetadataDelete(ip));
      if !ok {
        return Some(Wrapped(MsgMetadataDelete, Failed(MetadataDelete(ip))));
      }
      metadata := metadata - {ip};
      err := None;
    }

    method GetAddress(env: Env, ip: string) returns (r: Result<Address, Error>)
      modifies env
      ensures var g := GetOutcome(State(), ip, |old(env.log)|, env.faulty);
        r == g.0 && env.log == old(env.log) + g.1
    {
      var found := GetRecord(env, ip);
      if found.Err? && found.error == NoRows {
        return Err(ErrAddressNotExists);
      }
      var record := if found.Ok? then found.value else ZeroAddress;
      var ok := env.Call(MetadataGet(ip));
      if !ok {
        return Err(Failed(MetadataGet(ip)));
      }
      var md := if ip in metadata then metadata[ip] else ZeroMetadata;
      r := Ok(record.(metadata := md));
    }
  }
}
