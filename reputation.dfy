/** AbuseIPDB reputation data: the `data` object of a `/check` response and
    the report the checker keeps per IP. Timestamps are opaque. */
module Reputation {
  import opened Common

  /** `LastReportedAt`, an optional timestamp whose arithmetic is not modelled. */
  type Timestamp = Option<int>

  /** The `data` object of an AbuseIPDB `/check` response. */
  datatype ApiData = ApiData(
    hostnames: seq<string>,
    ipAddress: string,
    countryCode: string,
    usageType: string,
    isp: string,
    domain: string,
    ipVersion: int,
    abuseConfidenceScore: int,
    totalReports: int,
    numDistinctUsers: int,
    lastReportedAt: Timestamp,
    isWhitelisted: bool,
    isPublic: bool)

  /** The zero value of a response, which a failed client call returns. */
  const ZeroData: ApiData := ApiData([], "", "", "", "", "", 0, 0, 0, 0, None, false, false)

  /** `AbuseIPDBReport`: the eight fields the checker stores per IP. */
  datatype Report = Report(
    ip: string,
    countryCode: string,
    usageType: string,
    isp: string,
    abuseConfidenceScore: int,
    numDistinctUsers: int,
    totalReports: int,
    lastReportedAt: Timestamp)
}
