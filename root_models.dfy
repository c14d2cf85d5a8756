/** The record and request types of the top-level `dnsrbl` package: a blocked
    address with its comment, and the body of a block request. */
module RootModels {
  import opened Common
  import opened Text
  import opened IPv4
  import opened Backend

  /** `Address` (the creation time is not modelled). */
  datatype Address = Address(address: string, comment: string)

  /** `BlockAddressRequest`. */
  datatype BlockAddressRequest = BlockAddressRequest(address: string, comment: string)

  const ErrInvalidAddress: Error := Message("Field 'Address' must be a valid IP address.")
  const ErrEmptyComment: Error := Message("Field 'Comment' must be not empty.")

  /** The two rules both validators apply, in this order: a valid IP, then a
      comment that is not blank. */
  function CheckFields(address: string, comment: string): (r: Option<Error>)
    ensures r.None? <==> ValidIP(address) && !IsBlank(comment)
    ensures r == Some(ErrInvalidAddress) <==> !ValidIP(address)
    ensures r == Some(ErrEmptyComment) <==> ValidIP(address) && IsBlank(comment)
  {
    if !ValidIP(address) then Some(ErrInvalidAddress)
    else if |TrimSpace(comment)| == 0 then Some(ErrEmptyComment)
    else None
  }

  /** `Address.Validate`. */
  function ValidateAddress(a: Address): (r: Option<Error>)
    ensures r.None? <==> ValidIP(a.address) && !IsBlank(a.comment)
    ensures r == Some(ErrInvalidAddress) <==> !ValidIP(a.address)
    ensures r == Some(ErrEmptyComment) <==> ValidIP(a.address) && IsBlank(a.comment)
  {
    CheckFields(a.address, a.comment)
  }

  /** `BlockAddressRequest.Validate`: the same two rules in the same order. */
  function ValidateRequest(m: BlockAddressRequest): (r: Option<Error>)
    ensures r.None? <==> ValidIP(m.address) && !IsBlank(m.comment)
    ensures r == Some(ErrInvalidAddress) <==> !ValidIP(m.address)
    ensures r == Some(ErrEmptyComment) <==> ValidIP(m.address) && IsBlank(m.comment)
  {
    CheckFields(m.address, m.comment)
  }

  /** What `Bind` leaves behind: the record it wrote into, and its error. */
  datatype Bound = Bound(address: Address, err: Option<Error>)

  /** `BlockAddressRequest.Bind` into the record `a`: `decoded` is the outcome
      of decoding the body. A decoding or validation error leaves `a` as it
      was; on success exactly the address and the comment are copied. */
  function Bind(decoded: Result<BlockAddressRequest, Error>, a: Address): (b: Bound)
    ensures b.err.Some? ==> b.address == a
    ensures b.err.None? <==> decoded.Ok? && ValidateRequest(decoded.value) == None
    ensures decoded.Err? ==> b.err == Some(decoded.error)
    ensures decoded.Ok? && b.err.Some? ==> b.err == ValidateRequest(decoded.value)
    ensures b.err.None? ==>
      b.address.address == decoded.value.address && b.address.comment == decoded.value.comment
  {
    match decoded
    case Err(e) => Bound(a, Some(e))
    case Ok(m) =>
      match ValidateRequest(m)
      case Some(e) => Bound(a, Some(e))
      case None => Bound(a.(address := m.address, comment := m.comment), None)
  }

  /** A request that binds yields a record that validates. */
  lemma BoundAddressValidates(decoded: Result<BlockAddressRequest, Error>, a: Address)
    requires Bind(decoded, a).err.None?
    ensures ValidateAddress(Bind(decoded, a).address) == None
  {
  }
}
