/** The HTTP handlers of the `hbl` package as decisions: given the request
    and how the service answers each call, which service calls are made, in
    which order, and which status is returned. The service is abstract here:
    `Replies` holds its answer to each call a handler can make. */
module Handlers {
  import opened Common
  import opened IPv4
  import opened Backend
  import opened Models
  import opened Requests

  /** One call from a handler into the service. */
  datatype ServiceCall =
    | GetOneCall(ip: string)
    | BlockCall(address: Address)
    | AllowCall(address: Address)
    | UnblockCall(address: Address)
    | DeleteCall(ip: string)
    | SyncOneCall(ip: string)

  /** The service's answer to each call: the record lookup, and the error
      of each state-changing call. */
  datatype Replies = Replies(
    getOne: Result<Address, Error>,
    block: Option<Error>,
    allow: Option<Error>,
    unblock: Option<Error>,
    delete: Option<Error>,
    syncOne: Option<Error>)

  /** What a handler did: a status with the service calls made and the
      record sent back, or a crash (a nil dereference) after some calls. */
  datatype Response =
    | Response(status: int, calls: seq<ServiceCall>, body: Option<Address>)
    | Crashed(calls: seq<ServiceCall>)

  /** The status of a service call's error: 500 when there is one, else 200. */
  function StatusOf(err: Option<Error>): int
  {
    if err.Some? then 500 else 200
  }

  /** `HandleAddressesPost`: bind and validate the body (422 and no call
      when that fails), look the IP up (500 and nothing more when the lookup
      fails other than with `sql.ErrNoRows`, or when a record exists), then
      Block or Allow as the body's action says; any other action is a 200
      with neither. */
  function Post(decoded: Result<BlockRequest, Error>, svc: Replies): (r: Response)
    ensures r.Response?
    ensures r.status == 422 <==> Bind(decoded, ZeroAddress).err.Some?
    ensures r.status == 422 ==> r.calls == []
    ensures r.status != 422 ==> |r.calls| >= 1 && r.calls[0] == GetOneCall(Bind(decoded, ZeroAddress).address.ip)
    ensures r.status != 422 && (svc.getOne.Ok? || svc.getOne != Err(NoRows)) ==>
      r.status == 500 && |r.calls| == 1
    ensures |r.calls| == 2 ==>
      && svc.getOne == Err(NoRows)
      && (r.calls[1] == BlockCall(Bind(decoded, ZeroAddress).address) <==> decoded.value.action == ActionBlock)
      && (r.calls[1] == AllowCall(Bind(decoded, ZeroAddress).address) <==> decoded.value.action == ActionAllow)
    ensures |r.calls| <= 2
    ensures Bind(decoded, ZeroAddress).err.None? && svc.getOne == Err(NoRows) ==>
      var a := Bind(decoded, ZeroAddress).address;
      && (decoded.value.action == ActionBlock ==>
            r.calls == [GetOneCall(a.ip), BlockCall(a)] && r.status == StatusOf(svc.block))
      && (decoded.value.action == ActionAllow ==>
            r.calls == [GetOneCall(a.ip), AllowCall(a)] && r.status == StatusOf(svc.allow))
      && (decoded.value.action != ActionBlock && decoded.value.action != ActionAllow ==>
            r.calls == [GetOneCall(a.ip)] && r.status == 200)
  {
    var bound := Bind(decoded, ZeroAddress);
    if bound.err.Some? then Response(422, [], None)
    else
      var lookup := [GetOneCall(bound.address.ip)];
      match svc.getOne
      case Ok(_) => Response(500, lookup, None)
      case Err(e) =>
        if e != NoRows then Response(500, lookup, None)
        else if decoded.value.action == ActionBlock then
          Response(StatusOf(svc.block), lookup + [BlockCall(bound.address)], None)
        else if decoded.value.action == ActionAllow then
          Response(StatusOf(svc.allow), lookup + [AllowCall(bound.address)], None)
        else Response(200, lookup, None)
  }

  /** `HandleAddressesDelete` as written: an invalid IP is a 422 before any
      call; a lookup that fails with `sql.ErrNoRows` is a 404 with nothing
      deleted; a record whose action is "Block" is unblocked before it is
      deleted, and a failed unblock is a 500 with nothing deleted. A lookup
      that fails otherwise leaves a nil record, whose action is read: the
      handler crashes. */
  function Delete(ip: string, svc: Replies): (r: Response)
    ensures r.Response? && r.status == 422 <==> !ValidIP(ip)
    ensures ValidIP(ip) ==> |r.calls| >= 1 && r.calls[0] == GetOneCall(ip)
    ensures DeleteCall(ip) in r.calls ==> svc.getOne.Ok?
    ensures r.Response? && r.status == 404 <==> ValidIP(ip) && svc.getOne == Err(NoRows)
    ensures ValidIP(ip) && svc.getOne.Ok? && svc.getOne.value.action == ActionBlock ==>
      && r.Response?
      && |r.calls| >= 2 && r.calls[1] == UnblockCall(svc.getOne.value)
      && (DeleteCall(ip) in r.calls <==> svc.unblock.None?)
    ensures ValidIP(ip) && svc.getOne.Ok? && svc.getOne.value.action != ActionBlock ==>
      r == Response(StatusOf(svc.delete), [GetOneCall(ip), DeleteCall(ip)], None)
    ensures r.Response? && r.status == 200 ==> DeleteCall(ip) in r.calls && svc.delete.None?
  {
    if !ValidIP(ip) then Response(422, [], None)
    else
      var lookup := [GetOneCall(ip)];
      match svc.getOne
      case Err(e) =>
        if e == NoRows then Response(404, lookup, None)
        else Crashed(lookup)
      case Ok(a) =>
        if a.action == ActionBlock then
          var unblocked := lookup + [UnblockCall(a)];
          if svc.unblock.Some? then Response(500, unblocked, None)
          else Response(StatusOf(svc.delete), unblocked + [DeleteCall(ip)], None)
        else Response(StatusOf(svc.delete), lookup + [DeleteCall(ip)], None)
  }

  /** The delete handler as evidently intended: a lookup that fails other
      than with `sql.ErrNoRows` is a 500 with nothing deleted. */
  function DeleteChecked(ip: string, svc: Replies): (r: Response)
    ensures r.Response?
    ensures svc.getOne.Err? && svc.getOne.error != NoRows && ValidIP(ip) ==>
      r.status == 500 && r.calls == [GetOneCall(ip)]
    ensures svc.getOne.Ok? || svc.getOne == Err(NoRows) ==> r == Delete(ip, svc)
  {
    match svc.getOne
    case Err(e) =>
      if ValidIP(ip) && e != NoRows then Response(500, [GetOneCall(ip)], None)
      else Delete(ip, svc)
    case Ok(_) => Delete(ip, svc)
  }

  /** The handler as written crashes on a lookup error that is not
      `sql.ErrNoRows`; the in-memory repository's "not found" error is one.
      The address is 10.0.0.1. */
  lemma DeleteCrashesOnLookupError()
    ensures Delete(FormatIPv4(0x0A00_0001), Replies(Err(Message("Address doesn't exist")), None, None, None, None, None)).Crashed?
  {
    ParseFormatIPv4(0x0A00_0001);
  }

  /** `HandleAddressesGetOne`: 422 for an invalid IP, 404 for
      `sql.ErrNoRows`, 500 for another lookup error, else 200 with the record. */
  function GetOne(ip: string, svc: Replies): (r: Response)
    ensures r.Response?
    ensures r.status == 422 <==> !ValidIP(ip)
    ensures r.status == 200 <==> ValidIP(ip) && svc.getOne.Ok?
    ensures r.status == 200 ==> r.body == Some(svc.getOne.value)
    ensures r.status == 404 <==> ValidIP(ip) && svc.getOne == Err(NoRows)
    ensures r.calls == if ValidIP(ip) then [GetOneCall(ip)] else []
  {
    if !ValidIP(ip) then Response(422, [], None)
    else
      match svc.getOne
      case Err(e) => Response(if e == NoRows then 404 else 500, [GetOneCall(ip)], None)
      case Ok(a) => Response(200, [GetOneCall(ip)], Some(a))
  }

  /** `HandleAddressesSyncOne`: 422 for an invalid IP, 404 when the sync
      fails with `sql.ErrNoRows`, 500 when it fails otherwise, else 200. */
  function SyncOne(ip: string, svc: Replies): (r: Response)
    ensures r.Response?
    ensures r.status == 422 <==> !ValidIP(ip)
    ensures r.status == 404 <==> ValidIP(ip) && svc.syncOne == Some(NoRows)
    ensures r.status == 200 <==> ValidIP(ip) && svc.syncOne.None?
    ensures r.calls == if ValidIP(ip) then [SyncOneCall(ip)] else []
  {
    if !ValidIP(ip) then Response(422, [], None)
    else
      match svc.syncOne
      case Some(e) => Response(if e == NoRows then 404 else 500, [SyncOneCall(ip)], None)
      case None => Response(200, [SyncOneCall(ip)], None)
  }

  /** The `API` handlers decide exactly as the default handler does; these
      lemmas state their decisions on the same functions. */

  /** A body that does not bind or validate is a 422 with no service call. */
  lemma ApiPostRejectsInvalidBody(decoded: Result<BlockRequest, Error>, svc: Replies)
    requires decoded.Err? || Validate(decoded.value).Some?
    ensures Post(decoded, svc) == Response(422, [], None)
  {
  }

  /** An existing record, or a lookup error other than `sql.ErrNoRows`, is a
      500 with neither Block nor Allow called. */
  lemma ApiPostRefusesExisting(decoded: Result<BlockRequest, Error>, svc: Replies)
    requires decoded.Ok? && Validate(decoded.value).None?
    requires svc.getOne != Err(NoRows)
    ensures Post(decoded, svc).status == 500
    ensures forall c :: c in Post(decoded, svc).calls ==> c.GetOneCall?
  {
  }

  /** For a new address, "Block" calls only Block, "Allow" only Allow, and
      any other action calls neither and is a 200. */
  lemma ApiPostDispatch(decoded: Result<BlockRequest, Error>, svc: Replies)
    requires decoded.Ok? && Validate(decoded.value).None? && svc.getOne == Err(NoRows)
    ensures var r := Post(decoded, svc); var a := Bind(decoded, ZeroAddress).address;
      && (decoded.value.action == ActionBlock ==> r.calls == [GetOneCall(a.ip), BlockCall(a)] && r.status == StatusOf(svc.block))
      && (decoded.value.action == ActionAllow ==> r.calls == [GetOneCall(a.ip), AllowCall(a)] && r.status == StatusOf(svc.allow))
      && (decoded.value.action != ActionBlock && decoded.value.action != ActionAllow ==>
            r.calls == [GetOneCall(a.ip)] && r.status == 200)
  {
  }

  /** Not found is a 404; a blocked record is unblocked before it is
      deleted, and a failed unblock stops the deletion. */
  lemma ApiDeleteUnblocksFirst(ip: string, svc: Replies)
    requires ValidIP(ip)
    ensures svc.getOne == Err(NoRows) ==> Delete(ip, svc) == Response(404, [GetOneCall(ip)], None)
    ensures svc.getOne.Ok? && svc.getOne.value.action == ActionBlock ==>
      Delete(ip, svc) == if svc.unblock.Some?
        then Response(500, [GetOneCall(ip), UnblockCall(svc.getOne.value)], None)
        else Response(StatusOf(svc.delete), [GetOneCall(ip), UnblockCall(svc.getOne.value), DeleteCall(ip)], None)
  {
  }

  /** An invalid IP is a 422 and `sql.ErrNoRows` a 404. */
  lemma ApiSyncOneStatuses(ip: string, svc: Replies)
    ensures !ValidIP(ip) ==> SyncOne(ip, svc) == Response(422, [], None)
    ensures ValidIP(ip) && svc.syncOne == Some(NoRows) ==> SyncOne(ip, svc) == Response(404, [SyncOneCall(ip)], None)
  {
  }
}
