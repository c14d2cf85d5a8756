/** The AbuseIPDB checker: a reputation report per IP, read from a local
    table when it is there and otherwise fetched from the AbuseIPDB `/check`
    API and saved. The table is the class's `table` field; the SQL
    transactions and the HTTP request are single calls into `Backend.Env`. */
module AbuseIPDB {
  import opened Common
  import opened IPv4
  import opened Reputation
  import opened Backend

  /** The checker's registry name. */
  const CheckerName: string := "AbuseIPDB"

  /** The API root the checker is created with. */
  const BaseURL: string := "https://api.abuseipdb.com/api/v2"

  /** The error for an argument that is not an IP address. */
  const ErrInvalidIP: Error := Message("argument must be a valid IP address")

  /** The report kept for a `/check` answer: the eight stored fields, copied
      from the response's `data` object. */
  function ToReport(d: ApiData): Report
  {
    Report(d.ipAddress, d.countryCode, d.usageType, d.isp,
           d.abuseConfidenceScore, d.numDistinctUsers, d.totalReports, d.lastReportedAt)
  }

  /** What one `Check` did: the result and the error it returned, the
      external calls it made, and the report table afterwards. */
  datatype Step = Step(result: Option<Report>, err: Option<Error>, calls: seq<Event>, table: map<string, Report>)

  /** `Check` as written, with the lookup at log position `at`: a stored
      report is returned as it is; on `sql.ErrNoRows` the report is fetched
      and saved under the IP the API names. A lookup that fails any other way
      returns neither a report nor an error. */
  function CheckAsWritten(table: map<string, Report>, ip: string, at: nat, faulty: set<nat>, answer: nat -> Answer): Step
  {
    var lookup := [ReportLookup(ip)];
    if at in faulty then Step(None, None, lookup, table)
    else if ip in table then Step(Some(table[ip]), None, lookup, table)
    else
      var miss := FetchOutcome(table, ip, at + 1, faulty, answer);
      miss.(calls := lookup + miss.calls)
  }

  /** The part of `Check` after a lookup that found no report, with the
      request at log position `at`: fetch the report and save it. */
  function FetchOutcome(table: map<string, Report>, ip: string, at: nat, faulty: set<nat>, answer: nat -> Answer): Step
  {
    if !ValidIP(ip) then Step(None, Some(ErrInvalidIP), [], table)
    else if at in faulty then Step(None, Some(Failed(ReportFetch(ip))), [ReportFetch(ip)], table)
    else
      var report := ToReport(answer(at).data);
      var calls := [ReportFetch(ip), ReportSave(report.ip)];
      if at + 1 in faulty then Step(None, Some(Failed(ReportSave(report.ip))), calls, table)
      else Step(Some(report), None, calls, table[report.ip := report])
  }

  /** `Check` as evidently intended: a failed lookup is reported as the error
      it is; otherwise it behaves as written. */
  function CheckReportingErrors(table: map<string, Report>, ip: string, at: nat, faulty: set<nat>, answer: nat -> Answer): (s: Step)
    ensures at in faulty ==> s == Step(None, Some(Failed(ReportLookup(ip))), [ReportLookup(ip)], table)
    ensures at !in faulty ==> s == CheckAsWritten(table, ip, at, faulty, answer)
  {
    if at in faulty then Step(None, Some(Failed(ReportLookup(ip))), [ReportLookup(ip)], table)
    else CheckAsWritten(table, ip, at, faulty, answer)
  }

  /** As written, a failed lookup is indistinguishable from "no report":
      neither a report nor an error comes back, and nothing is fetched. */
  lemma CheckMasksLookupFailure(table: map<string, Report>, ip: string, at: nat, faulty: set<nat>, answer: nat -> Answer)
    requires at in faulty
    ensures var s := CheckAsWritten(table, ip, at, faulty, answer);
      s.result.None? && s.err.None? && s.calls == [ReportLookup(ip)]
  {
  }

  /** With errors reported, every check either returns a report or says why
      not, and a report comes back only without an error. */
  lemma CheckAlwaysAnswers(table: map<string, Report>, ip: string, at: nat, faulty: set<nat>, answer: nat -> Answer)
    ensures var s := CheckReportingErrors(table, ip, at, faulty, answer);
      s.err.None? <==> s.result.Some?
  {
  }

  /** The shape of every check: it starts with the table lookup, makes at most
      three calls, fetches only on a miss, and changes the table only by
      saving the fetched report, which it then returns. */
  lemma CheckShape(table: map<string, Report>, ip: string, at: nat, faulty: set<nat>, answer: nat -> Answer)
    ensures var s := CheckAsWritten(table, ip, at, faulty, answer);
      && 1 <= |s.calls| <= 3 && s.calls[0] == ReportLookup(ip)
      && (|s.calls| > 1 ==> ip !in table && ValidIP(ip) && s.calls[1] == ReportFetch(ip))
      && (s.table != table ==> s.result.Some? && s.err.None? && s.table == table[s.result.value.ip := s.result.value])
      && (s.result.Some? && ip in table && at !in faulty ==> s.result.value == table[ip] && s.table == table)
  {
    var s := CheckAsWritten(table, ip, at, faulty, answer);
    if at in faulty || ip in table || !ValidIP(ip) {
      assert s.calls == [ReportLookup(ip)] && s.table == table;
    } else if at + 1 in faulty {
      assert s.calls == [ReportLookup(ip), ReportFetch(ip)] && s.table == table;
    } else {
      var report := ToReport(answer(at + 1).data);
      assert s.calls == [ReportLookup(ip), ReportFetch(ip), ReportSave(report.ip)];
      if at + 2 in faulty {
        assert s.table == table;
      } else {
        assert s == Step(Some(report), None, s.calls, table[report.ip := report]);
      }
    }
  }

  /** On a miss, every failure after the lookup is returned and nothing is
      saved: an invalid IP is refused before the request, a failed request
      returns its error without a save, and a failed save returns its error
      with the table unchanged. */
  lemma CheckMissErrors(table: map<string, Report>, ip: string, at: nat, faulty: set<nat>, answer: nat -> Answer)
    requires ip !in table && at !in faulty
    ensures var s := CheckAsWritten(table, ip, at, faulty, answer);
      && (!ValidIP(ip) ==> s == Step(None, Some(ErrInvalidIP), [ReportLookup(ip)], table))
      && (ValidIP(ip) && at + 1 in faulty ==>
            s == Step(None, Some(Failed(ReportFetch(ip))), [ReportLookup(ip), ReportFetch(ip)], table))
      && (ValidIP(ip) && at + 1 !in faulty && at + 2 in faulty ==>
            && s.result.None?
            && s.err == Some(Failed(ReportSave(ToReport(answer(at + 1).data).ip)))
            && s.calls == [ReportLookup(ip), ReportFetch(ip), ReportSave(ToReport(answer(at + 1).data).ip)]
            && s.table == table)
  {
    var s := CheckAsWritten(table, ip, at, faulty, answer);
    var miss := FetchOutcome(table, ip, at + 1, faulty, answer);
    assert s == miss.(calls := [ReportLookup(ip)] + miss.calls);
  }

  /** A stored report is served from the table: one lookup, no fetch. */
  lemma CheckHitsTable(table: map<string, Report>, ip: string, at: nat, faulty: set<nat>, answer: nat -> Answer)
    requires ip in table && at !in faulty
    ensures CheckAsWritten(table, ip, at, faulty, answer) == Step(Some(table[ip]), None, [ReportLookup(ip)], table)
  {
  }

  /** When the API names the IP it was asked about, a successful fetch is
      saved so that the next check of that IP is answered from the table
      with the same report. */
  lemma {:induction false} CheckCachesFetched(table: map<string, Report>, ip: string, at: nat, faulty: set<nat>, answer: nat -> Answer)
    requires ip !in table && ValidIP(ip)
    requires NoFault(faulty, at, at + 4)
    requires answer(at + 1).data.ipAddress == ip
    ensures var first := CheckAsWritten(table, ip, at, faulty, answer);
      var second := CheckAsWritten(first.table, ip, at + 3, faulty, answer);
      && first.result == Some(ToReport(answer(at + 1).data))
      && second == Step(first.result, None, [ReportLookup(ip)], first.table)
  {
    assert at !in faulty && at + 1 !in faulty && at + 2 !in faulty && at + 3 !in faulty;
  }

  class Checker {
    /** The `abuseipdb_metadata` table: the stored report per IP. */
    var table: map<string, Report>

    constructor ()
      ensures table == map[]
    {
      table := map[];
    }

    /** `GetReport`: the stored report, `sql.ErrNoRows` when there is none,
        or the failed lookup's error. */
    method GetReport(env: Env, ip: string) returns (r: Result<Report, Error>)
      modifies env
      ensures env.log == old(env.log) + [ReportLookup(ip)]
      ensures |old(env.log)| in env.faulty ==> r == Err(Failed(ReportLookup(ip)))
      ensures |old(env.log)| !in env.faulty ==> (r.Ok? <==> ip in table)
      ensures |old(env.log)| !in env.faulty && ip in table ==> r == Ok(table[ip])
      ensures |old(env.log)| !in env.faulty && ip !in table ==> r == Err(NoRows)
    {
      var ok := env.Call(ReportLookup(ip));
      if !ok {
        r := Err(Failed(ReportLookup(ip)));
      } else if ip in table {
        r := Ok(table[ip]);
      } else {
        r := Err(NoRows);
      }
    }

    /** `Call`: an argument that is not an IP address is refused before any
        request; otherwise the `/check` answer becomes a report. */
    method Call(env: Env, ip: string) returns (r: Result<Report, Error>)
      modifies env
      ensures !ValidIP(ip) ==> r == Err(ErrInvalidIP) && env.log == old(env.log)
      ensures ValidIP(ip) ==> env.log == old(env.log) + [ReportFetch(ip)]
      ensures ValidIP(ip) ==> r == if |old(env.log)| in env.faulty then Err(Failed(ReportFetch(ip)))
                                   else Ok(ToReport(env.answer(|old(env.log)|).data))
    {
      if !ValidIP(ip) {
        return Err(ErrInvalidIP);
      }
      var a := env.Query(ReportFetch(ip));
      match a
      case None => r := Err(Failed(ReportFetch(ip)));
      case Some(answer) => r := Ok(ToReport(answer.data));
    }

    /** `SaveReport`: a `REPLACE INTO` keyed by the report's IP; on failure
        the table is unchanged. */
    method SaveReport(env: Env, report: Report) returns (err: Option<Error>)
      modifies this, env
      ensures env.log == old(env.log) + [ReportSave(report.ip)]
      ensures err.Some? <==> |old(env.log)| in env.faulty
      ensures err.Some? ==> err == Some(Failed(ReportSave(report.ip))) && table == old(table)
      ensures err.None? ==> table == old(table)[report.ip := report]
    {
      var ok := env.Call(ReportSave(report.ip));
      if ok {
        table := table[report.ip := report];
        err := None;
      } else {
        err := Some(Failed(ReportSave(report.ip)));
      }
    }

    /** `Check` as written. */
    method Check(env: Env, ip: string) returns (result: Option<Report>, err: Option<Error>)
      modifies this, env
      ensures var s := CheckAsWritten(old(table), ip, |old(env.log)|, env.faulty, env.answer);
        && result == s.result && err == s.err
        && env.log == old(env.log) + s.calls && table == s.table
    {
      var r := GetReport(env, ip);
      if r.Err? && r.error == NoRows {
        ghost var mid := env.log;
        result, err := Fetch(env, ip);
        assert env.log == mid + env.log[|mid|..];
        return;
      }
      result := if r.Ok? then Some(r.value) else None;
      err := None;
    }

    /** `Check` after a lookup that found no report. */
    method Fetch(env: Env, ip: string) returns (result: Option<Report>, err: Option<Error>)
      modifies this, env
      ensures var s := FetchOutcome(old(table), ip, |old(env.log)|, env.faulty, env.answer);
        && result == s.result && err == s.err
        && env.log == old(env.log) + s.calls && table == s.table
    {
      var fetched := Call(env, ip);
      if fetched.Err? {
        return None, Some(fetched.error);
      }
      var e := SaveReport(env, fetched.value);
      if e.Some? {
        return None, e;
      }
      return Some(fetched.value), None;
    }
  }
}
