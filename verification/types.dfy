/** Value types of the procurement tender ledger: tenders, bids and the
    error kinds an aborted call reports. */
module TenderTypes {

  /** Unsigned 64-bit integers, as used for tender and bid identifiers. */
  type U64 = x: int | 0 <= x < 0x1_0000_0000_0000_0000

  /** An account or contract identity; the ledger only compares identities. */
  type Address(==, !new)

  datatype Option<+T> = None | Some(value: T)

  datatype Result<+T> = Ok(value: T) | Err(error: Error)

  /** The result of an entry point that returns nothing: it either completes
      or aborts with an error. */
  datatype Outcome = Pass | Fail(error: Error)

  /** Why a call aborted. The host reverts every write of an aborted call. */
  datatype Error =
    | KeyExists        // a tender or bid with this identifier is already recorded
    | NotFound         // no such tender, no bid list, or no such winning bid
    | Unauthorized     // the caller is not the tender's authority
    | InvalidState     // the tender is no longer Open
    | InvalidArgument  // a bid amount that is not positive

  datatype TenderStatus = Open | Awarded | Cancelled

  datatype Tender = Tender(
    tenderId: U64,
    authority: Address,
    title: string,
    status: TenderStatus,
    winningBid: Option<U64>)

  /** A bid amount is a signed 128-bit integer in the contract; it is an
      unbounded integer here, because only its sign is ever examined. */
  datatype Bid = Bid(
    bidId: U64,
    tenderId: U64,
    vendor: Address,
    amount: int,
    details: string)
}
