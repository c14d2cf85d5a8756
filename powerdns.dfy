/** The PowerDNS side of blocking: an address is blocked by PATCHing its
    zone with one A record, 127.0.0.1, at the address's reverse owner name,
    and unblocked by the same PATCH with changetype DELETE. Both the
    `PowerDNS` endpoint and the `dns` client build such requests; the HTTP
    exchange itself is reduced to its status code. */
module PowerDNS {
  import opened Common
  import opened Text
  import opened IPv4
  import opened Backend

  datatype Record = Record(content: string, disabled: bool)
  datatype RRSet = RRSet(records: seq<Record>, changeType: string, name: string, rtype: string, ttl: int)
  datatype Zone = Zone(rrsets: seq<RRSet>)

  /** An HTTP request: method, URI and JSON body. */
  datatype Request = Request(verb: string, uri: string, body: Zone)

  /** The endpoint's registry name. */
  const EndpointName: string := "PowerDNS"

  /** The zone the `dns` client always names its records in. */
  const RblZone: string := "hostinger.rbl"

  const ErrEndpointIP: Error := Message("argument 'ip' must be a valid IP address")
  const ErrClientIP: Error := Message("Argument 'ip' must be a valid IP address.")

  /** The path of the local server under the PowerDNS HTTP API. */
  const ApiPath: string := "/api/v1/servers/localhost"

  /** The API root of a PowerDNS server: `scheme://host:port/api/v1/servers/localhost`. */
  function ServerURL(scheme: string, host: string, port: string): (r: string)
    ensures |r| == |scheme| + |host| + |port| + 29
    ensures r[..|scheme|] == scheme && r[|scheme|..|scheme| + 3] == "://"
    ensures r[|scheme| + 3..|scheme| + 3 + |host|] == host
    ensures r[|scheme| + 3 + |host|] == ':'
    ensures r[|scheme| + 4 + |host|..|scheme| + 4 + |host| + |port|] == port
    ensures r[|r| - 25..] == ApiPath
  {
    var r := scheme + "://" + host + ":" + port + ApiPath;
    assert r == ((((scheme + "://") + host) + ":") + port) + ApiPath;
    r
  }

  /** The owner name of an address in `zone`: its dot-separated labels in
      reverse order, the zone, and the root's trailing dot. */
  function OwnerName(ip: string, zone: string): string
  {
    ReverseAddress(Split(ip, '.')) + "." + zone + "."
  }

  /** The request that applies `changeType` to the block record of `ip`:
      one RRSet at the owner name in `nameZone`, sent to the zone `uriZone`. */
  function ZonePatch(baseUrl: string, nameZone: string, uriZone: string, ip: string, changeType: string): (r: Request)
    ensures r.verb == "PATCH" && r.uri == baseUrl + "/zones/" + uriZone
    ensures |r.body.rrsets| == 1
    ensures r.body.rrsets[0].name == OwnerName(ip, nameZone)
    ensures r.body.rrsets[0].rtype == "A" && r.body.rrsets[0].ttl == 3600
    ensures r.body.rrsets[0].changeType == changeType
    ensures r.body.rrsets[0].records == [Record("127.0.0.1", false)]
  {
    Request("PATCH", baseUrl + "/zones/" + uriZone,
      Zone([RRSet([Record("127.0.0.1", false)], changeType, OwnerName(ip, nameZone), "A", 3600)]))
  }

  /** `PDNSEndpoint.PatchZone`: an invalid IP is refused before any request;
      otherwise the record is named and sent in the endpoint's zone. */
  function PatchZone(baseUrl: string, zone: string, ip: string, action: string): (r: Result<Request, Error>)
    ensures r.Err? <==> !ValidIP(ip)
    ensures r.Err? ==> r.error == ErrEndpointIP
    ensures r.Ok? ==> r.value == ZonePatch(baseUrl, zone, zone, ip, action)
  {
    if !ValidIP(ip) then Err(ErrEndpointIP) else Ok(ZonePatch(baseUrl, zone, zone, ip, action))
  }

  /** `PDNSEndpoint.Block`. */
  function EndpointBlock(baseUrl: string, zone: string, ip: string): (r: Result<Request, Error>)
    ensures r.Err? <==> !ValidIP(ip)
    ensures r.Ok? ==> r.value == ZonePatch(baseUrl, zone, zone, ip, "REPLACE")
  {
    PatchZone(baseUrl, zone, ip, "REPLACE")
  }

  /** `PDNSEndpoint.Unblock`. */
  function EndpointUnblock(baseUrl: string, zone: string, ip: string): (r: Result<Request, Error>)
    ensures r.Err? <==> !ValidIP(ip)
    ensures r.Ok? ==> r.value == ZonePatch(baseUrl, zone, zone, ip, "DELETE")
  {
    PatchZone(baseUrl, zone, ip, "DELETE")
  }

  /** `dns.Client.Block`: like the endpoint, but the record is always named
      in `hostinger.rbl` while the request goes to the zone argument. */
  function ClientBlock(baseUrl: string, ip: string, zone: string): (r: Result<Request, Error>)
    ensures r.Err? <==> !ValidIP(ip)
    ensures r.Err? ==> r.error == ErrClientIP
    ensures r.Ok? ==> r.value == ZonePatch(baseUrl, RblZone, zone, ip, "REPLACE")
  {
    if !ValidIP(ip) then Err(ErrClientIP) else Ok(ZonePatch(baseUrl, RblZone, zone, ip, "REPLACE"))
  }

  /** `dns.Client.Unblock`. */
  function ClientUnblock(baseUrl: string, ip: string, zone: string): (r: Result<Request, Error>)
    ensures r.Err? <==> !ValidIP(ip)
    ensures r.Err? ==> r.error == ErrClientIP
    ensures r.Ok? ==> r.value == ZonePatch(baseUrl, RblZone, zone, ip, "DELETE")
  {
    if !ValidIP(ip) then Err(ErrClientIP) else Ok(ZonePatch(baseUrl, RblZone, zone, ip, "DELETE"))
  }

  /** The outcome of a PATCH from its status and body: only 204 No Content
      is success; the error of the endpoint's `Call` carries the body. */
  function EndpointCallResult(status: int, body: string): (err: Option<Error>)
    ensures err.None? <==> status == 204
  {
    if status != 204 then Some(Message("error: " + body)) else None
  }

  /** The same rule in the `dns` client's `Call`. */
  function ClientCallResult(status: int, body: string): (err: Option<Error>)
    ensures err.None? <==> status == 204
  {
    if status != 204 then Some(Message("Error: " + body)) else None
  }

  /** Block and Unblock requests for one IP differ only in the changetype,
      for the endpoint and for the client alike. */
  lemma BlockUnblockDiffer(baseUrl: string, zone: string, ip: string)
    requires ValidIP(ip)
    ensures var b := EndpointBlock(baseUrl, zone, ip).value;
      var u := EndpointUnblock(baseUrl, zone, ip).value;
      u == b.(body := Zone([b.body.rrsets[0].(changeType := "DELETE")]))
    ensures var b := ClientBlock(baseUrl, ip, zone).value;
      var u := ClientUnblock(baseUrl, ip, zone).value;
      u == b.(body := Zone([b.body.rrsets[0].(changeType := "DELETE")]))
  {
  }

  /** The client names its records in `hostinger.rbl` whatever zone it is
      given, so it agrees with an endpoint configured for that zone only
      when the request also goes there. */
  lemma ClientIgnoresZoneInName(baseUrl: string, ip: string, zone: string)
    requires ValidIP(ip)
    ensures ClientBlock(baseUrl, ip, zone).value.body == ClientBlock(baseUrl, ip, RblZone).value.body
    ensures ClientBlock(baseUrl, ip, RblZone) == EndpointBlock(baseUrl, RblZone, ip)
    ensures ClientUnblock(baseUrl, ip, RblZone) == EndpointUnblock(baseUrl, RblZone, ip)
  {
  }

  /** The labels of an owner name: the address's four octets back to front,
      then the zone's labels, then the empty root label. */
  lemma {:induction false} OwnerNameLabels(ip: string, zone: string)
    requires ValidIP(ip)
    ensures Split(OwnerName(ip, zone), '.') == Reversed(Split(ip, '.')) + Split(zone, '.') + [""]
    ensures |Reversed(Split(ip, '.'))| == 4
  {
    var labels := Split(ip, '.');
    var rev := ReverseAddress(labels);
    SplitLabels(ip, '.');
    ReverseAddressLabels(labels);
    assert rev + "." + zone + "." == rev + ['.'] + (zone + ['.'] + []);
    SplitConcat(rev, zone + ['.'] + [], '.');
    SplitConcat(zone, [], '.');
    assert Split([], '.') == [""];
  }
}
