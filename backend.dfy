/** The outside world every service talks to: endpoints, checkers, alerters,
    SQL stores and HTTP APIs. Each external call is an `Event` appended to one
    shared log, so a contract can say which calls happen, in which order, and
    which do not happen at all. Whether a call fails, and what a successful
    query answers, is decided by an oracle fixed when the world is created. */
module Backend {
  import opened Common
  import opened Reputation

  /** The three actions an endpoint implements. */
  datatype Op = Block | Unblock | Sync

  /** The action string that selects `op`. */
  function OpName(op: Op): string
  {
    match op
    case Block => "Block"
    case Unblock => "Unblock"
    case Sync => "Sync"
  }

  /** The `switch action` of the endpoint fan-out: "Block", "Unblock" and
      "Sync" select an operation, anything else selects none. */
  function ParseAction(action: string): (r: Option<Op>)
    ensures r.Some? <==> action == "Block" || action == "Unblock" || action == "Sync"
    ensures r.Some? ==> OpName(r.value) == action
  {
    if action == "Block" then Some(Block)
    else if action == "Unblock" then Some(Unblock)
    else if action == "Sync" then Some(Sync)
    else None
  }

  /** Every operation's name selects that operation. */
  lemma ParseOpName(op: Op)
    ensures ParseAction(OpName(op)) == Some(op)
  {
  }

  /** `alerters.Alert`. */
  datatype Alert = Alert(ip: string, action: string, author: string, comment: string)

  /** One call to something outside the core. */
  datatype Event =
    | EndpointCall(endpoint: string, op: Op, ip: string)
    | CheckerCall(checker: string, ip: string)
    | AlertSent(alerter: string, alert: Alert)
    | ReportLookup(ip: string)
    | ReportFetch(ip: string)
    | ReportSave(ip: string)
    | StoreGet(ip: string)
    | StoreList
    | StoreCreate(ip: string)
    | StoreDelete(ip: string)
    | MetadataGet(ip: string)
    | MetadataCreate(ip: string)
    | MetadataDelete(ip: string)
    | CloudflareBlock(ip: string)
    | CloudflareUnblock(ip: string)
    | AccessRuleCreate(ip: string)
    | AccessRuleList(ip: string)
    | AccessRuleDelete(ruleId: string)
    | DnsBlock(ip: string, zone: string)
    | DnsUnblock(ip: string, zone: string)
    | AbuseCheck(ip: string)
    | RowsDelete(rows: seq<seq<string>>)
    | RRSetDelete(name: string)

  /** Go errors as far as the core distinguishes them. */
  datatype Error =
      /** whatever error the external call `call` returned */
    | Failed(call: Event)
      /** `errors.Wrapf(cause, "<op> failed on Endpoint '<endpoint>'")` */
    | Tagged(op: Op, endpoint: string, cause: Error)
      /** `fmt.Errorf("<context>: %s", cause)` */
    | Wrapped(context: string, cause: Error)
      /** `sql.ErrNoRows` */
    | NoRows
      /** an error with a fixed text */
    | Message(text: string)

  /** What a successful query returns: an AbuseIPDB response, a checker
      result, the IDs of the listed access rules, and the `Success` flag of a
      Cloudflare response. Each caller reads the part it asked for. */
  datatype Answer = Answer(data: ApiData, result: Option<Report>, ruleIds: seq<string>, success: bool)

  /** The world. `log` grows by one event per external call; the call at log
      position `k` fails iff `k in faulty`, and a successful query at `k`
      returns `answer(k)`. */
  class Env {
    var log: seq<Event>
    const faulty: set<nat>
    const answer: nat -> Answer

    constructor (faulty: set<nat>, answer: nat -> Answer)
      ensures log == [] && this.faulty == faulty && this.answer == answer
    {
      log := [];
      this.faulty := faulty;
      this.answer := answer;
    }

    /** A call that can only succeed or fail. */
    method Call(e: Event) returns (ok: bool)
      modifies this
      ensures log == old(log) + [e]
      ensures ok <==> |old(log)| !in faulty
    {
      ok := |log| !in faulty;
      log := log + [e];
    }

    /** A call that returns an answer when it succeeds. */
    method Query(e: Event) returns (r: Option<Answer>)
      modifies this
      ensures log == old(log) + [e]
      ensures r == if |old(log)| in faulty then None else Some(answer(|old(log)|))
    {
      r := if |log| in faulty then None else Some(answer(|log|));
      log := log + [e];
    }

    /** A call that cannot report failure. */
    method Notify(e: Event)
      modifies this
      ensures log == old(log) + [e]
    {
      log := log + [e];
    }
  }

  /** No call at a log position in `lo..hi` fails. */
  predicate NoFault(faulty: set<nat>, lo: nat, hi: nat)
  {
    forall k :: lo <= k < hi ==> k !in faulty
  }
}
