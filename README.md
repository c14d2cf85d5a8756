# dnsrbl enforcement core, modelled in Dafny

This project models the enforcement orchestration of `hostinger/dnsrbl`. An
address record store is the source of truth, and every block, unblock or
sync is fanned out to pluggable backends: endpoints such as PowerDNS, and
Cloudflare access rules. Reputation checkers (AbuseIPDB) and alerters sit
beside them. Three generations of the service are covered:

- the `hbl` package's default service over a repository, with its HTTP handlers;
- the `hbl` package's older `Service` over an address store and a metadata store;
- the top-level `dnsrbl` service with its CIDR allow-list.

The PowerDNS request builders, the request validators and the Python ban
script are modelled as well.

The world outside the core is one object, `Backend.Env`. Every external call
is one `Event` appended to its `log`. The call at log position `k` fails
exactly when `k` is in the fixed set `faulty`, and a successful query there
returns `answer(k)`. Each stateful method is therefore proved equal to a
pure "outcome" function of the old state, the log position and that oracle.
The properties the source promises are then proved as lemmas about those
functions. They cover:

- which calls happen, and in which order;
- which calls never happen;
- which error is returned;
- what the maps hold afterwards.

Go's unspecified map iteration order is a parameter `order` together with a
proof `IsEnumeration(order, keys)` that it lists every key exactly once.
Every fan-out lemma holds for any such order.

Where the code and the prose documentation of the repository disagree, the
model follows the code:

- `BlockRequest` in `pkg/hbl/requests.go` has no `Action` field, yet both
  handlers read `req.Action`. The model gives the request an `action` field.
  `Bind` does not copy it into the record, as the code shows.
- `Address` in `pkg/hbl/models.go` has no `IsBlockedCloudflare` or
  `IsBlockedPDNS` field, yet `BlockRequest.Bind` in `pkg/hbl/requests.go`
  assigns both. The model follows `requests.go`: `Models.Address` carries
  the two flags, and `Requests.Bind` copies them.
- In `pkg/dns/dns.go` the record name always uses `hostinger.rbl`. The zone
  argument only chooses the URI (`PowerDNS.ClientIgnoresZoneInName`).
- In `service.go` a Cloudflare answer with `Success == false` and no error
  is not reported as a failure.
- The in-memory repository's "not found" error is not `sql.ErrNoRows`.
  Over that repository, the handlers' 404 branches and the Post handler's
  creation branches are therefore never taken. The handlers are modelled
  over an abstract service (`Handlers.Replies`) so that every branch can be
  reached.

## Model

| member | source | states |
|---|---|---|
| Common.FirstWins | pkg/endpoints/endpoint.go:62-68 | registering under an absent name adds exactly that entry; a present name keeps its entry; every other name is untouched |
| Endpoints.Registry.Register | pkg/endpoints/endpoint.go:62-68 | the endpoint map becomes `FirstWins` of the old map: first registration wins, other names unchanged |
| Endpoints.FanOutShape | pkg/endpoints/endpoint.go:22-40 | the fan-out succeeds iff no call fails, and then every endpoint was called once in order; on failure the calls stop at the first failing endpoint and its error is returned tagged with that endpoint's name |
| Endpoints.FanOutCoversAll | pkg/endpoints/endpoint.go:22-40 | a successful fan-out over any enumeration of the registry calls every registered endpoint exactly once and no other |
| Endpoints.FanOutSkip | pkg/endpoints/endpoint.go:26-36 | after `i` successful calls the fan-out continues as the fan-out of the remaining names |
| Endpoints.Registry.ExecuteOnAll | pkg/endpoints/endpoint.go:22-40 | the calls and the error are those of `Execute`: the fan-out of Block/Unblock/Sync, and for any other action no call and no error |
| Endpoints.Registry.ExecuteOnOne | pkg/endpoints/endpoint.go:42-60 | an unregistered name calls nothing and returns no error; a registered name gets the one-endpoint fan-out, so at most one call |
| Backend.ParseAction | pkg/endpoints/endpoint.go:26-38 | exactly "Block", "Unblock" and "Sync" select an operation, and the selected operation is named by the action |
| Checkers.Registry.Register | pkg/checkers/checker.go:29-35 | first registration of a name wins; other names unchanged |
| Checkers.Registry.CheckOnOne | pkg/checkers/checker.go:18-27 | an unknown name yields no result, no error and no call; a known name calls that checker once and returns its result unchanged, or no result with its error |
| Alerters.AlertsReachEveryone | pkg/alerters/alerter.go:25-29 | alerting an enumeration of the registry notifies every registered alerter exactly once with the same alert, and no one else |
| Alerters.Registry.AlertOnAll | pkg/alerters/alerter.go:25-29 | the log grows by one alert per alerter in map order; there is no error result |
| Alerters.Registry.AlertOnOne | pkg/alerters/alerter.go:31-35 | only the named alerter is notified, and nobody when the name is unregistered |
| Alerters.Registry.Register | pkg/alerters/alerter.go:37-43 | first registration of a name wins; other names unchanged |
| Repository.MockRepository.CreateAddress | pkg/hbl/repository_mock.go:20-26 | an absent IP gets the record and no error; a present IP is refused and the map is unchanged |
| Repository.MockRepository.DeleteAddress | pkg/hbl/repository_mock.go:28-34 | a present IP loses exactly its key; an absent one is an error and nothing changes |
| Repository.MockRepository.GetAddress | pkg/hbl/repository_mock.go:36-41 | the record stored under the IP, or the not-found error |
| Repository.MockRepository.GetAddresses | pkg/hbl/repository_mock.go:43-49 | the stored records in map order (`Listed`) |
| Repository.ListedIsExact | pkg/hbl/repository_mock.go:43-49 | the listing has one entry per stored record, every stored record, and no IP twice |
| Repository.MockRepository.CreateThenGet | pkg/hbl/repository_mock.go:20-41 | a record created under a fresh IP is read back unchanged |
| Repository.MockRepository.DeleteThenGet | pkg/hbl/repository_mock.go:28-41 | after a delete, the lookup reports not found |
| Repository.ThreeCreatedThreeListed | pkg/hbl/handler_default_test.go:22-38 | three creates of distinct IPs in an empty repository list three addresses, whatever the map order |
| DefaultService.Service.Unblock | pkg/hbl/service_default.go:25-34 | the "Unblock" fan-out, then one alert per alerter only on success; the repository is not touched |
| DefaultService.Service.Block | pkg/hbl/service_default.go:36-48 | an existing IP is refused with no call; otherwise the record is written first, then the "Block" fan-out runs, and alerts follow only when it succeeds; a failed fan-out keeps the record and returns its error |
| DefaultService.Service.Allow | pkg/hbl/service_default.go:50-59 | the record is written and alerts follow; no endpoint is ever called |
| DefaultService.Service.Delete | pkg/hbl/service_default.go:61-63 | exactly the repository delete |
| DefaultService.Service.GetOne | pkg/hbl/service_default.go:65-67 | exactly the repository lookup |
| DefaultService.Service.GetAll | pkg/hbl/service_default.go:69-71 | exactly the repository listing |
| DefaultService.Service.Check | pkg/hbl/service_default.go:73-75 | exactly `CheckOnOne` with the checker name and IP |
| DefaultService.Service.SyncOne | pkg/hbl/service_default.go:77-87 | a failed lookup is returned with no endpoint call; otherwise the "Sync" fan-out for the stored IP |
| DefaultService.Service.SyncAll | pkg/hbl/service_default.go:89-101 | the listed IPs are swept in list order (`Sweep`) |
| DefaultService.Service.SyncEach | pkg/hbl/service_default.go:93-99 | the loop over the IPs makes exactly the calls of `Sweep` and returns its error |
| DefaultService.SweepStops | pkg/hbl/service_default.go:93-99 | fail-fast: once the sweep fails on one of the first `j` addresses, later addresses are never attempted |
| DefaultService.SweepSucceeds | pkg/hbl/service_default.go:89-101 | a sweep that succeeds has synced every address on every endpoint, address after address |
| DefaultService.SweepAppend | pkg/hbl/service_default.go:93-99 | sweeping `a + b` sweeps `a`, then sweeps `b` only if `a` succeeded |
| AbuseIPDB.CheckMissErrors | pkg/checkers/abuseipdb_checker.go:117-129 | on a miss: an invalid IP is refused after the lookup alone; a failed fetch returns its error with no save; a failed save returns its error, no report, and leaves the table unchanged |
| AbuseIPDB.CheckHitsTable | pkg/checkers/abuseipdb_checker.go:117-119 | a stored report is returned with one lookup, no fetch and no save |
| AbuseIPDB.CheckShape | pkg/checkers/abuseipdb_checker.go:117-129 | every check starts with the lookup and makes at most three calls; it fetches only on a miss for a valid IP; it changes the table only by saving the report it returns |
| AbuseIPDB.CheckCachesFetched | pkg/checkers/abuseipdb_checker.go:119-128 | a successful fetch is saved, so the next check of that IP is served from the table with the same report |
| AbuseIPDB.CheckMasksLookupFailure | pkg/checkers/abuseipdb_checker.go:118-119 | as written, a failed lookup returns neither report nor error and fetches nothing |
| AbuseIPDB.CheckReportingErrors | pkg/checkers/abuseipdb_checker.go:117-129 | the corrected check reports a failed lookup as an error, and is otherwise the check as written |
| AbuseIPDB.CheckAlwaysAnswers | pkg/checkers/abuseipdb_checker.go:117-129 | with errors reported, a check returns a report exactly when it returns no error |
| AbuseIPDB.Checker.Check | pkg/checkers/abuseipdb_checker.go:117-129 | result, error, calls and new table are those of `CheckAsWritten` |
| AbuseIPDB.Checker.Fetch | pkg/checkers/abuseipdb_checker.go:119-127 | after a miss: result, error, calls and new table are those of `FetchOutcome` (refuse an invalid IP, fetch, save under the IP the API names) |
| AbuseIPDB.Checker.Call | pkg/checkers/abuseipdb_checker.go:53-115 | an invalid IP is refused before any request; otherwise one fetch, whose answer is copied field for field into the report |
| AbuseIPDB.Checker.SaveReport | pkg/checkers/abuseipdb_checker.go:131-178 | a full replace keyed by the report's IP; a failed save leaves the table unchanged |
| AbuseIPDB.Checker.GetReport | pkg/checkers/abuseipdb_checker.go:180-214 | the stored report, `sql.ErrNoRows` when there is none, or the failed lookup's error |
| Handlers.Post | pkg/hbl/handler_default.go:32-56 | 422 exactly when bind/validate fails, and then no call; otherwise the lookup comes first; an existing record or a non-`ErrNoRows` error is a 500 with nothing else; for a valid body and no record, "Block" makes exactly the lookup and Block and answers with Block's status, "Allow" likewise with Allow, and any other action makes the lookup alone and is a 200 |
| Handlers.Delete | pkg/hbl/handler_default.go:66-87 | 422 exactly for an invalid IP; 404 exactly for `ErrNoRows`; a "Block" record is unblocked before the delete, and a failed unblock deletes nothing; another record only gets the delete; 200 only after a successful delete |
| Handlers.DeleteChecked | pkg/hbl/handler_default.go:72-78 | corrected handler: a non-`ErrNoRows` lookup error is a 500 after the lookup alone; otherwise it decides as written |
| Handlers.DeleteCrashesOnLookupError | pkg/hbl/handler_default.go:72-78 | as written, a valid IP whose lookup fails with the repository's own not-found error reaches the nil record and crashes |
| Handlers.GetOne | pkg/hbl/handler_default.go:97-110 | 422 for an invalid IP, 404 for `ErrNoRows`, 200 with the record exactly when the lookup succeeds |
| Handlers.SyncOne | pkg/hbl/handler_default.go:155-167 | 422 for an invalid IP, 404 for `ErrNoRows`, 200 exactly when the sync succeeds, else 500 |
| Handlers.ApiPostRejectsInvalidBody | pkg/hbl/handlers.go:24-26 | a body that fails bind or validation is a 422 with no service call |
| Handlers.ApiPostRefusesExisting | pkg/hbl/handlers.go:27-33 | an existing record or another lookup error is a 500 and only the lookup was made |
| Handlers.ApiPostDispatch | pkg/hbl/handlers.go:34-44 | "Block" calls only Block, "Allow" only Allow, any other action calls neither and is a 200 |
| Handlers.ApiDeleteUnblocksFirst | pkg/hbl/handlers.go:62-76 | not found is a 404; a blocked record is unblocked before the delete, and a failed unblock stops the delete |
| Handlers.ApiSyncOneStatuses | pkg/hbl/handlers.go:153-160 | an invalid IP is a 422 with no call; `ErrNoRows` is a 404 |
| HblService.OnBlockOutcome | pkg/hbl/service.go:142-152 | `onBlock` succeeds iff all its calls (Cloudflare unless DEV, then DNS) succeed; its calls are a prefix of those, ending at the failing call |
| HblService.OnBlockOrder | pkg/hbl/service.go:142-152 | DEV skips Cloudflare; otherwise Cloudflare comes first, and its failure stops before DNS |
| HblService.Service.OnBlock | pkg/hbl/service.go:142-152 | the error and calls are those of `OnBlockOutcome` |
| HblService.BlockRefusesExisting | pkg/hbl/service.go:47-54 | an existing Allow or Block record is refused with the matching error after the lookup alone; the stores are unchanged |
| HblService.BlockLookupFailure | pkg/hbl/service.go:43-46 | a failed lookup is returned before any backend call |
| HblService.BlockBackendsFirst | pkg/hbl/service.go:55-60 | the record is written only after every `onBlock` call succeeded; a failed `onBlock` changes nothing; only the IP's own record and metadata may change |
| HblService.BlockSurvivesAbuseFailure | pkg/hbl/service.go:61-78 | a failed AbuseIPDB lookup is only logged; the metadata is still written from the zero answer, and only the metadata write's error is returned |
| HblService.Service.BlockAddress | pkg/hbl/service.go:42-79 | error, calls and new stores are those of `BlockOutcome` |
| HblService.Service.BlockNew | pkg/hbl/service.go:55-78 | the part after the lookup matches `BlockNewOutcome`: backends first, stores after |
| HblService.Service.Record | pkg/hbl/service.go:58-78 | the part after the backends matches `RecordOutcome`: record, AbuseIPDB, metadata |
| HblService.AllowStoresOnly | pkg/hbl/service.go:81-95 | existing Allow/Block records are refused with the matching error; no backend is ever called; success means exactly that the record was written |
| HblService.Service.AllowAddress | pkg/hbl/service.go:81-95 | error, calls and new stores are those of `AllowOutcome` |
| HblService.DeleteMissing | pkg/hbl/service.go:98-101 | a missing record is reported and nothing is deleted |
| HblService.UndoOutcome | pkg/hbl/service.go:102-114 | the unblock cascade succeeds iff all its calls succeed; its calls are a prefix of Cloudflare (unless DEV), DNS, metadata delete |
| HblService.DeleteCascade | pkg/hbl/service.go:102-118 | a Block record is undone in order (Cloudflare unless DEV, DNS, metadata, address), each failure stopping the rest; success removes both rows; any other record loses only its address row |
| HblService.Service.DeleteAddress | pkg/hbl/service.go:97-119 | error, calls and new stores are those of `DeleteOutcome` |
| HblService.Service.Remove | pkg/hbl/service.go:102-118 | after the lookup: error, calls and new stores are those of `RemoveOutcome` (undo a block first, then delete the address row) |
| HblService.Service.Undo | pkg/hbl/service.go:102-114 | error and calls are those of `UndoOutcome` (Cloudflare unless DEV, DNS, metadata, stopping at the first failure); the metadata row goes only when every call succeeded; the address rows are untouched |
| HblService.GetAttachesMetadata | pkg/hbl/service.go:121-132 | a stored record comes back with the metadata stored for its IP, or the zero metadata |
| HblService.GetMasksLookupFailure | pkg/hbl/service.go:122-125 | a lookup error other than not-found is not returned: the zero record comes back without error |
| HblService.Service.GetAddress | pkg/hbl/service.go:121-132 | result and calls are those of `GetOutcome` |
| HblService.Service.CreateRecord | pkg/hbl/service.go:58 | a successful create writes the record's four columns under its IP; the metadata table is untouched |
| HblService.Row | pkg/hbl/service.go:58 | the stored row keeps IP, author, action and comment and nothing else |
| RootService.Service.IsAddressInAllowList | service.go:73-84 | true iff the IP is valid and some allow-list network contains it |
| RootService.InAllowListRange | service.go:73-84 | with parsed networks, being allow-listed means lying in the address range of some network |
| IPv4.ContainsRange | service.go:79 | a network contains exactly the `2^(32-prefix)` addresses from its base up |
| RootService.Service.BlockAddress | service.go:30-41 | an allow-listed IP is refused with no call; a failed store write is returned and Cloudflare is not called; after the write the result is success whatever Cloudflare does |
| RootService.Service.UnblockAddress | service.go:43-55 | a missing record is reported and nothing is deleted; otherwise the store delete comes before Cloudflare; a failed delete is returned; a Cloudflare failure is swallowed |
| RootService.CloudflareBlockOutcome | service.go:86-103 | an invalid IP gives an error with no call; otherwise one create call, failing exactly when that call fails |
| RootService.Service.BlockIPAddressInCloudflare | service.go:86-103 | error and calls are those of `CloudflareBlockOutcome` |
| RootService.Service.UnblockIPAddressInCloudflare | service.go:105-129 | error and calls are those of `CloudflareUnblockOutcome` |
| RootService.CloudflareGuards | service.go:87-89 | both Cloudflare helpers reject an invalid IP before any API call |
| RootService.CloudflareUnblockDeletesTheRule | service.go:117-128 | a rule is deleted only when exactly one is listed, and it is that rule; otherwise the "not found" error |
| Requests.Validate | pkg/hbl/requests.go:34-48 | success iff valid IP, non-blank comment and both flags present; each error is returned exactly when its rule is the first one broken |
| Requests.BlankCommentRefused | pkg/hbl/requests.go:38-40 | a whitespace-only comment is refused |
| Requests.ValidateIgnoresAuthor | pkg/hbl/requests.go:34-48 | the author never changes the verdict |
| Requests.Bind | pkg/hbl/requests.go:19-32 | a decoding or validation error leaves the record unchanged and is returned; success copies IP, author, comment and both flags and keeps every other field |
| Requests.BoundRecordIsWellFormed | pkg/hbl/requests.go:26-30 | a bound record has a valid IP and a non-blank comment |
| RootModels.ValidateAddress | models.go:22-30 | success iff valid IP and non-blank comment; the IP error is returned first |
| RootModels.ValidateRequest | models.go:49-57 | the same two rules in the same order |
| RootModels.Bind | models.go:37-47 | a failure leaves the record unchanged; success copies exactly address and comment |
| RootModels.BoundAddressValidates | models.go:44-46 | a request that binds yields a record that validates |
| PowerDNS.ZonePatch | pkg/endpoints/endpoint_pdns.go:87-105 | a PATCH to `base/zones/<zone>` with one RRSet: the reverse owner name, type A, TTL 3600, the given changetype, one enabled record 127.0.0.1 |
| PowerDNS.PatchZone | pkg/endpoints/endpoint_pdns.go:69-109 | an invalid IP is an error before any request; otherwise the request names the record in the endpoint's zone and is sent there |
| PowerDNS.EndpointBlock | pkg/endpoints/endpoint_pdns.go:115-117 | `PatchZone` with REPLACE |
| PowerDNS.EndpointUnblock | pkg/endpoints/endpoint_pdns.go:119-121 | `PatchZone` with DELETE |
| PowerDNS.EndpointCallResult | pkg/endpoints/endpoint_pdns.go:58-64 | no error iff the status is 204 |
| PowerDNS.ClientBlock | pkg/dns/dns.go:78-104 | an invalid IP is an error before any request; otherwise REPLACE, named in `hostinger.rbl`, sent to the zone argument |
| PowerDNS.ClientUnblock | pkg/dns/dns.go:106-132 | the same with DELETE |
| PowerDNS.ClientCallResult | pkg/dns/dns.go:67-73 | no error iff the status is 204 |
| PowerDNS.ServerURL | pkg/dns/dns.go:42 | the API root is the scheme, "://", the host, ":", the port, and the fixed `/api/v1/servers/localhost` tail, each at its place and nothing else |
| PowerDNS.BlockUnblockDiffer | pkg/endpoints/endpoint_pdns.go:88-121 | Block and Unblock requests for one IP differ only in changetype, for the endpoint and the client alike |
| PowerDNS.ClientIgnoresZoneInName | pkg/dns/dns.go:86-99 | the client's body ignores the zone argument and agrees with an endpoint configured for `hostinger.rbl` |
| PowerDNS.OwnerNameLabels | pkg/endpoints/endpoint_pdns.go:87-91 | the owner name's labels are the four octets back to front, then the zone's labels, then the root |
| Script.Reverse | dnsrbl.py:150-153 | a string of at most one character is returned unchanged |
| Script.ReverseLabels | dnsrbl.py:150-153 | reversing keeps the length and turns label `i` into label `n-1-i` |
| Script.ReverseInvolution | dnsrbl.py:150-153 | reversing twice gives the input back |
| Script.SelectBans | dnsrbl.py:225-238 | the loop's ban list is `BanList` of the buckets |
| Script.BanListSound | dnsrbl.py:232-238 | every ban comes from a bucket with a global IPv4 key, more hits than the threshold and more than ten sites |
| Script.BanListComplete | dnsrbl.py:227-238 | every qualifying bucket is banned |
| Script.BanListConcat | dnsrbl.py:227-238 | the ban list keeps bucket order: the list of `a + b` is the list of `a` then that of `b` |
| Script.ReasonHits | dnsrbl.py:235-237 | the recorded reason starts with the hits label, then the hit count's sign and a run of digits that reads back as its magnitude, closed by a non-digit |
| Script.NatStringValue | dnsrbl.py:235-237 | the decimal spelling `str` gives a natural number reads back as that number |
| Script.BanListOne | dnsrbl.py:228-231 | a single bucket contributes its ban exactly when it qualifies; a non-IPv4 key contributes nothing |
| Script.ManualRemove | dnsrbl.py:253-257 | the rows (each IP as a 1-tuple) are deleted from the database before one DNS removal per IP, in order |
| Script.Rows | dnsrbl.py:254-255 | one 1-tuple per address, in order |
| Script.Removals | dnsrbl.py:140-144 | one removal of the reversed name per address, in order |
| IPv4.ParseFormatIPv4 | service.go:74 | every address's dotted-quad spelling is accepted and read back as that address |
| IPv4.FormatParseIPv4 | service.go:74 | an accepted address is spelled canonically: formatting the value read gives the input back, and it has exactly four dot-separated labels |

## Left out

- IPv6: `net.ParseIP` and `ipaddress.IPv4Address` are modelled for IPv4 dotted quads only, and Go 1.17's rejection of leading zeros is assumed. On the Python side the model assumes Python 3.9.5 or later before 3.12.4: earlier versions accept some leading-zero octets, and 3.12.4 replaced 192.0.0.0/29 in the `is_private` table with 192.0.0.0/24 less 192.0.0.9 and 192.0.0.10.
- `INET_ATON`/`INET_NTOA` normalisation in the SQL stores: the stores are keyed by the IP string as given.
- SQL transactions, HTTP requests, JSON encoding and the Cloudflare, AbuseIPDB, Slack, Elasticsearch, MySQL and PowerDNS client libraries: foreign code. Each call is one `Backend.Env` event that may fail.
- The registry mutexes and all concurrency: the model is sequential.
- `Sync` of an endpoint: no endpoint shown implements it. It is an abstract per-endpoint call.
- Checker implementations behind `CheckOnOne`: the answer is taken from the oracle.
- `ENVIRONMENT`: it is the `dev` parameter.
- `utils.ReverseAddress` and `dnsutils.ReverseAddress` are not part of this model. They are taken to join the labels in reverse order, as `reverse` in dnsrbl.py does.
- `created_at`, the expiry cleanup (`remove_expired_bans`), the ban-record creation after selection, and the Elasticsearch query window: wall-clock time and foreign calls.
- The root service's `GetAddress`/`GetAddresses`, and the `hbl` service's `GetAddresses`: plain pass-throughs to the store.
- Python exceptions during manual removal: the database and DNS calls are modelled as calls that cannot fail.
- Script.ManualRemove: models only the `manual_remove` branch of `cleanup`, so it requires a non-empty list, the condition that selects the branch.
- Requests.Bind: the write through the `*Address` out-parameter is modelled as returning the updated record; aliasing is not captured.
- RootModels.Bind: the same as `Requests.Bind`.
- Handlers.Post: the record pointer returned by `GetOne` is non-nil exactly when the lookup succeeds; a lookup that returns both a nil record and no error is not modelled.
- DefaultService.Service.SyncAll: the listing cannot fail over the in-memory repository, so the "listing error aborts" branch is not reached, and every address is synced over the same endpoint enumeration.
- `Success == false` in Cloudflare answers is not modelled as a separate outcome, because the source returns the (nil) error in that case.
- Handlers.GetOne and the other handlers' JSON bodies: only the status, the service calls and the returned record are modelled.

## Findings

| source | as written | input that shows it | evidently intended | confidence | as-written member | corrected member |
|---|---|---|---|---|---|---|
| pkg/checkers/abuseipdb_checker.go:117-129 | a `GetReport` error other than `sql.ErrNoRows` falls through to `return report, nil`, so the caller gets no report and no error | any IP whose table lookup fails, e.g. the transaction cannot begin | return the lookup error | high; not executed | AbuseIPDB.CheckMasksLookupFailure | AbuseIPDB.CheckAlwaysAnswers |
| pkg/hbl/handler_default.go:72-78 | a `GetOne` error other than `sql.ErrNoRows` skips both returns, and `address.Action` is read from a nil record | DELETE /addresses/10.0.0.1 over the in-memory repository when 10.0.0.1 is not stored: its not-found error is not `sql.ErrNoRows` | answer 500 without reading the record | high; not executed | Handlers.DeleteCrashesOnLookupError | Handlers.DeleteChecked |
