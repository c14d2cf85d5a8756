/** The request body of `POST /addresses` in the `hbl` package: its
    validation rules and the copy into an address record. */
module Requests {
  import opened Common
  import opened Text
  import opened IPv4
  import opened Backend
  import opened Models

  /** `BlockRequest`. The two flags are pointers in the source, so a body
      may leave them out; `action` is the body's Action field, which the
      handlers read to choose between Block and Allow. */
  datatype BlockRequest = BlockRequest(
    ip: string,
    author: string,
    comment: string,
    blockPdns: Option<bool>,
    blockCloudflare: Option<bool>,
    action: string)

  const ErrInvalidIP: Error := Message("Field 'IP' must be a valid IP address.")
  const ErrEmptyComment: Error := Message("Field 'Comment' must not be empty.")
  const ErrNoBlockCloudflare: Error := Message("Field 'BlockCloudflare' must not be empty.")
  const ErrNoBlockPdns: Error := Message("Field 'BlockPDNS' must not be empty.")

  /** `BlockRequest.Validate`: the IP must be valid, the comment must not be
      blank, and both flags must be present, checked in that order; the first
      rule broken is reported. The author is not checked. */
  function Validate(m: BlockRequest): (r: Option<Error>)
    ensures r.None? <==> ValidIP(m.ip) && !IsBlank(m.comment) && m.blockCloudflare.Some? && m.blockPdns.Some?
    ensures r == Some(ErrInvalidIP) <==> !ValidIP(m.ip)
    ensures r == Some(ErrEmptyComment) <==> ValidIP(m.ip) && IsBlank(m.comment)
    ensures r == Some(ErrNoBlockCloudflare) <==>
      ValidIP(m.ip) && !IsBlank(m.comment) && m.blockCloudflare.None?
    ensures r == Some(ErrNoBlockPdns) <==>
      ValidIP(m.ip) && !IsBlank(m.comment) && m.blockCloudflare.Some? && m.blockPdns.None?
  {
    if !ValidIP(m.ip) then Some(ErrInvalidIP)
    else if |TrimSpace(m.comment)| == 0 then Some(ErrEmptyComment)
    else if m.blockCloudflare.None? then Some(ErrNoBlockCloudflare)
    else if m.blockPdns.None? then Some(ErrNoBlockPdns)
    else None
  }

  /** A comment made only of white space is refused. */
  lemma BlankCommentRefused(m: BlockRequest)
    requires ValidIP(m.ip) && |m.comment| > 0 && IsBlank(m.comment)
    ensures Validate(m) == Some(ErrEmptyComment)
  {
  }

  /** The author never decides validation. */
  lemma ValidateIgnoresAuthor(m: BlockRequest, author: string)
    ensures Validate(m.(author := author)) == Validate(m)
  {
  }

  /** What `Bind` leaves behind: the address record it wrote into, and its error. */
  datatype Bound = Bound(address: Address, err: Option<Error>)

  /** `BlockRequest.Bind` into the record `a`: `decoded` is the outcome of
      decoding the body. A decoding or validation error leaves `a` as it was;
      on success the IP, author, comment and both flags are copied and the
      other fields of `a` are kept. */
  function Bind(decoded: Result<BlockRequest, Error>, a: Address): (b: Bound)
    ensures b.err.Some? ==> b.address == a
    ensures b.err.None? <==> decoded.Ok? && Validate(decoded.value) == None
    ensures decoded.Err? ==> b.err == Some(decoded.error)
    ensures decoded.Ok? && b.err.Some? ==> b.err == Validate(decoded.value)
    ensures b.err.None? ==>
      && b.address.ip == decoded.value.ip
      && b.address.author == decoded.value.author
      && b.address.comment == decoded.value.comment
      && Some(b.address.blockedCloudflare) == decoded.value.blockCloudflare
      && Some(b.address.blockedPdns) == decoded.value.blockPdns
      && b.address.action == a.action
      && b.address.metadata == a.metadata
  {
    match decoded
    case Err(e) => Bound(a, Some(e))
    case Ok(m) =>
      match Validate(m)
      case Some(e) => Bound(a, Some(e))
      case None =>
        Bound(a.(ip := m.ip, author := m.author, comment := m.comment,
                 blockedCloudflare := m.blockCloudflare.value, blockedPdns := m.blockPdns.value), None)
  }

  /** A bound record has a valid IP and a non-blank comment. */
  lemma BoundRecordIsWellFormed(decoded: Result<BlockRequest, Error>, a: Address)
    requires Bind(decoded, a).err.None?
    ensures ValidIP(Bind(decoded, a).address.ip) && !IsBlank(Bind(decoded, a).address.comment)
  {
  }
}
