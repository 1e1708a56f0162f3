/** Sequences of contract calls. The host runs the calls against one
    contract instance one after another, and a call that aborts leaves no
    trace; these lemmas state what then holds at every point in time. */
module TenderHistory {
  import opened TenderTypes
  import opened TenderKeys
  import opened TenderLedger

  /** One invocation of a state-changing entry point of the contract. */
  datatype Call =
    | CreateTenderCall(tenderId: U64, authority: Address, title: string)
    | SubmitBidCall(bidId: U64, tenderId: U64, vendor: Address, amount: int, details: string)
    | AwardTenderCall(tenderId: U64, caller: Address, winningBidId: U64)
    | CancelTenderCall(tenderId: U64, caller: Address)

  function Step(s: Store, c: Call): Result<Store> {
    match c
    case CreateTenderCall(id, authority, title) => CreateTender(s, id, authority, title)
    case SubmitBidCall(bidId, id, vendor, amount, details) => SubmitBid(s, bidId, id, vendor, amount, details)
    case AwardTenderCall(id, caller, winningBidId) => AwardTender(s, id, caller, winningBidId)
    case CancelTenderCall(id, caller) => CancelTender(s, id, caller)
  }

  /** The store after one call, all or nothing. */
  function Apply(s: Store, c: Call): Store {
    Commit(s, Step(s, c))
  }

  /** The store after a sequence of calls, in order. */
  function Run(s: Store, calls: seq<Call>): Store
    decreases |calls|
  {
    if calls == [] then s else Run(Apply(s, calls[0]), calls[1..])
  }

  lemma StepKeepsConsistent(s: Store, c: Call)
    requires Consistent(s)
    ensures Consistent(Apply(s, c))
  {
    match c
    case CreateTenderCall(id, authority, title) => CreateTenderKeepsConsistent(s, id, authority, title);
    case SubmitBidCall(bidId, id, vendor, amount, details) => SubmitBidKeepsConsistent(s, bidId, id, vendor, amount, details);
    case AwardTenderCall(id, caller, winningBidId) => AwardTenderKeepsConsistent(s, id, caller, winningBidId);
    case CancelTenderCall(id, caller) => CancelTenderKeepsConsistent(s, id, caller);
  }

  /** The store invariant holds after any sequence of calls: a winner is
      recorded exactly for Awarded tenders and names a bid of the list,
      bid identifiers are unique per tender, every tender has a bid list. */
  lemma {:induction false} RunKeepsConsistent(s: Store, calls: seq<Call>)
    requires Consistent(s)
    ensures Consistent(Run(s, calls))
    decreases |calls|
  {
    if calls != [] {
      StepKeepsConsistent(s, calls[0]);
      RunKeepsConsistent(Apply(s, calls[0]), calls[1..]);
    }
  }

  /** How the record of tender `id` may change from `s` to `s'`: once
      created it is never removed, its identifier, authority and title never
      change, its bid list only grows at the end, and once it is Awarded or
      Cancelled neither the tender nor its bid list changes again. */
  ghost predicate Evolves(s: Store, s': Store, id: U64) {
    GetTender(s, id).Some? && GetBids(s, id).Some? ==>
      && GetTender(s', id).Some? && GetBids(s', id).Some?
      && var t, t' := GetTender(s, id).value, GetTender(s', id).value;
         var bids, bids' := GetBids(s, id).value, GetBids(s', id).value;
         && t'.tenderId == t.tenderId && t'.authority == t.authority && t'.title == t.title
         && bids <= bids'
         && (t.status != Open ==> t' == t && bids' == bids)
  }

  lemma StepEvolves(s: Store, c: Call, id: U64)
    requires Consistent(s)
    ensures Evolves(s, Apply(s, c), id)
  {
  }

  lemma EvolvesTransitive(s1: Store, s2: Store, s3: Store, id: U64)
    requires Evolves(s1, s2, id) && Evolves(s2, s3, id)
    ensures Evolves(s1, s3, id)
  {
  }

  /** Over any sequence of calls a tender record only evolves as `Evolves`
      allows: bid lists are append-only, and a closed tender is frozen. */
  lemma {:induction false} RunEvolves(s: Store, calls: seq<Call>, id: U64)
    requires Consistent(s)
    ensures Evolves(s, Run(s, calls), id)
    decreases |calls|
  {
    if calls != [] {
      var s' := Apply(s, calls[0]);
      StepEvolves(s, calls[0], id);
      StepKeepsConsistent(s, calls[0]);
      RunEvolves(s', calls[1..], id);
      EvolvesTransitive(s, s', Run(s', calls[1..]), id);
    }
  }

  /** Example runs from an empty store: a tender identifier cannot be reused, a bid identifier cannot be
      reused within a tender, only the authority may award, and an awarded
      tender takes no further bids. */
  lemma RoadWorksScenario(authorityA: Address, authorityB: Address, vendorX: Address, vendorY: Address)
    requires authorityA != authorityB
    ensures var s1 := Apply(map[], CreateTenderCall(1, authorityA, "Road works"));
            var s2 := Apply(s1, SubmitBidCall(10, 1, vendorX, 500, "bid A"));
            var s3 := Apply(s2, AwardTenderCall(1, authorityA, 10));
            && GetTender(s1, 1) == Some(Tender(1, authorityA, "Road works", Open, None))
            && Step(s1, CreateTenderCall(1, authorityA, "Road works")) == Err(KeyExists)
            && Step(s2, SubmitBidCall(10, 1, vendorY, 600, "bid B")) == Err(KeyExists)
            && Step(s2, AwardTenderCall(1, authorityB, 10)) == Err(Unauthorized)
            && GetTender(s3, 1) == Some(Tender(1, authorityA, "Road works", Awarded, Some(10)))
            && Step(s3, SubmitBidCall(11, 1, vendorY, 700, "bid C")) == Err(InvalidState)
  {
    var s1 := Apply(map[], CreateTenderCall(1, authorityA, "Road works"));
    var s2 := Apply(s1, SubmitBidCall(10, 1, vendorX, 500, "bid A"));
    assert GetBids(s2, 1) == Some([Bid(10, 1, vendorX, 500, "bid A")]);
    assert GetBids(s2, 1).value[0].bidId == 10;
  }
}
