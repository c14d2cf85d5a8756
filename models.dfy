/** The record types of the `hbl` package: an address record, with the
    AbuseIPDB metadata attached to it, and the two actions a record carries. */
module Models {
  import opened Common
  import opened Reputation

  const ActionBlock: string := "Block"
  const ActionAllow: string := "Allow"

  /** `AbuseIPDBMetadata`. */
  datatype Metadata = Metadata(
    ip: string,
    isp: string,
    usageType: string,
    countryCode: string,
    totalReports: int,
    numDistinctUsers: int,
    abuseConfidenceScore: int,
    lastReportedAt: Timestamp)

  const ZeroMetadata: Metadata := Metadata("", "", "", "", 0, 0, 0, None)

  /** `Address`: one record of the address store. The two flags are the ones
      `BlockRequest.Bind` fills in; the creation time is not modelled. */
  datatype Address = Address(
    ip: string,
    author: string,
    action: string,
    comment: string,
    blockedCloudflare: bool,
    blockedPdns: bool,
    metadata: Metadata)

  /** The zero `Address` a Go caller starts from. */
  const ZeroAddress: Address := Address("", "", "", "", false, false, ZeroMetadata)
}
