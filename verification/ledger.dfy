/** The tender ledger as pure functions over the contract's instance store.
    Each operation maps the store it reads to the store it would write, or
    to the error that aborts it; an aborted call writes nothing (`Commit`). */
module TenderLedger {
  import opened TenderTypes
  import opened TenderKeys

  /** The instance store holds values of two kinds. */
  datatype StoreValue = TenderVal(tender: Tender) | BidsVal(bids: seq<Bid>)

  type Store = map<StoreKey, StoreValue>

  // ---------------------------------------------------------------------
  // Views: get_tender and get_bids

  /** The tender stored under `id`, or None when there is none. */
  function GetTender(s: Store, id: U64): (r: Option<Tender>)
    ensures forall t :: r == Some(t) <==> TenderKey(id) in s && s[TenderKey(id)] == TenderVal(t)
  {
    if TenderKey(id) !in s then None
    else match s[TenderKey(id)]
      case TenderVal(t) => Some(t)
      case BidsVal(_) => None
  }

  /** The bid list stored for tender `id`, or None when there is none. */
  function GetBids(s: Store, id: U64): (r: Option<seq<Bid>>)
    ensures forall bids :: r == Some(bids) <==> BidsKey(id) in s && s[BidsKey(id)] == BidsVal(bids)
  {
    if BidsKey(id) !in s then None
    else match s[BidsKey(id)]
      case BidsVal(bids) => Some(bids)
      case TenderVal(_) => None
  }

  // ---------------------------------------------------------------------
  // Bid lists

  /** Some bid of the list carries `bidId`. */
  predicate HasBid(bids: seq<Bid>, bidId: U64) {
    exists i :: 0 <= i < |bids| && bids[i].bidId == bidId
  }

  /** No two bids of the list share an identifier. */
  predicate DistinctBidIds(bids: seq<Bid>) {
    forall i, j :: 0 <= i < j < |bids| ==> bids[i].bidId != bids[j].bidId
  }

  // ---------------------------------------------------------------------
  // The store invariant

  /** What holds of every stored tender `t` with identifier `id` and its bid
      list: the winner is recorded exactly when the tender is Awarded, and
      it names a bid of the list; bid identifiers are unique; every bid
      points back to the tender and has a positive amount. */
  ghost predicate WellFormed(id: U64, t: Tender, bids: seq<Bid>) {
    && t.tenderId == id
    && (t.winningBid.Some? <==> t.status == Awarded)
    && (t.winningBid.Some? ==> HasBid(bids, t.winningBid.value))
    && DistinctBidIds(bids)
    && forall i :: 0 <= i < |bids| ==> bids[i].tenderId == id && bids[i].amount > 0
  }

  /** Either both keys of `id` are absent, or the tender key holds a tender,
      the bid-list key holds a bid list, and the two are well formed. */
  ghost predicate TenderRecordOk(s: Store, id: U64) {
    match (GetTender(s, id), GetBids(s, id))
    case (Some(t), Some(bids)) => WellFormed(id, t, bids)
    case (None, None) => TenderKey(id) !in s && BidsKey(id) !in s
    case _ => false
  }

  ghost predicate Consistent(s: Store) {
    forall id: U64 :: TenderRecordOk(s, id)
  }

  /** The two stores agree on every key outside `keys`. */
  ghost predicate SameOutside(s: Store, s': Store, keys: set<StoreKey>) {
    forall k :: k !in keys ==> (k in s <==> k in s') && (k in s ==> s[k] == s'[k])
  }

  predicate IsOpen(s: Store, id: U64) {
    GetTender(s, id).Some? && GetTender(s, id).value.status == Open
  }

  /** The store after a call: the written store, or the old one when the
      call aborted (the host reverts every write of a failed call). */
  function Commit(before: Store, r: Result<Store>): Store {
    match r
    case Ok(after) => after
    case Err(_) => before
  }

  /** What the caller of an operation observes: success, or the error. */
  function OutcomeOf(r: Result<Store>): Outcome {
    match r
    case Ok(_) => Pass
    case Err(e) => Fail(e)
  }

  // ---------------------------------------------------------------------
  // Operations

  /** create_tender: refuses an identifier whose tender key is taken;
      otherwise records an Open tender without winner and an empty bid list. */
  function CreateTender(s: Store, id: U64, authority: Address, title: string): (r: Result<Store>)
    ensures r.Err? <==> TenderKey(id) in s
    ensures r.Err? ==> r.error == KeyExists
    ensures r.Ok? ==> GetTender(r.value, id) == Some(Tender(id, authority, title, Open, None))
    ensures r.Ok? ==> GetBids(r.value, id) == Some([])
    ensures r.Ok? ==> SameOutside(s, r.value, {TenderKey(id), BidsKey(id)})
  {
    if TenderKey(id) in s then Err(KeyExists)
    else
      var tender := Tender(id, authority, title, Open, None);
      Ok(s[TenderKey(id) := TenderVal(tender)][BidsKey(id) := BidsVal([])])
  }

  /** submit_bid: the amount is checked before anything is read; then the
      tender must exist and be Open, and the bid identifier must be new to
      its list. The bid is appended at the end of the list. */
  function SubmitBid(s: Store, bidId: U64, tenderId: U64, vendor: Address, amount: int, details: string): (r: Result<Store>)
    ensures amount <= 0 ==> r == Err(InvalidArgument)
    ensures amount > 0 && GetTender(s, tenderId).None? ==> r == Err(NotFound)
    ensures amount > 0 && GetTender(s, tenderId).Some? && !IsOpen(s, tenderId) ==> r == Err(InvalidState)
    ensures amount > 0 && IsOpen(s, tenderId) && GetBids(s, tenderId).Some? && HasBid(GetBids(s, tenderId).value, bidId)
            ==> r == Err(KeyExists)
    ensures r.Ok? <==> amount > 0 && IsOpen(s, tenderId) && GetBids(s, tenderId).Some?
                       && !HasBid(GetBids(s, tenderId).value, bidId)
    ensures r.Ok? ==> GetBids(r.value, tenderId)
                      == Some(GetBids(s, tenderId).value + [Bid(bidId, tenderId, vendor, amount, details)])
    ensures r.Ok? ==> SameOutside(s, r.value, {BidsKey(tenderId)})
  {
    if amount <= 0 then Err(InvalidArgument)
    else match GetTender(s, tenderId)
      case None => Err(NotFound)
      case Some(tender) =>
        if tender.status != Open then Err(InvalidState)
        else match GetBids(s, tenderId)
          case None => Err(NotFound)  // "bids missing": never taken on a Consistent store
          case Some(bids) =>
            if HasBid(bids, bidId) then Err(KeyExists)
            else Ok(s[BidsKey(tenderId) := BidsVal(bids + [Bid(bidId, tenderId, vendor, amount, details)])])
  }

  /** award_tender: the caller must be the tender's authority, the tender
      must be Open and the winning bid must be in its list. The tender then
      becomes Awarded with that winner; nothing else is written. */
  function AwardTender(s: Store, tenderId: U64, caller: Address, winningBidId: U64): (r: Result<Store>)
    ensures GetTender(s, tenderId).None? ==> r == Err(NotFound)
    ensures GetTender(s, tenderId).Some? && caller != GetTender(s, tenderId).value.authority ==> r == Err(Unauthorized)
    ensures GetTender(s, tenderId).Some? && caller == GetTender(s, tenderId).value.authority && !IsOpen(s, tenderId)
            ==> r == Err(InvalidState)
    ensures IsOpen(s, tenderId) && caller == GetTender(s, tenderId).value.authority
            && GetBids(s, tenderId).Some? && !HasBid(GetBids(s, tenderId).value, winningBidId)
            ==> r == Err(NotFound)
    ensures r.Ok? <==> IsOpen(s, tenderId) && caller == GetTender(s, tenderId).value.authority
                       && GetBids(s, tenderId).Some? && HasBid(GetBids(s, tenderId).value, winningBidId)
    ensures r.Ok? ==> GetTender(r.value, tenderId)
                      == Some(GetTender(s, tenderId).value.(status := Awarded, winningBid := Some(winningBidId)))
    ensures r.Ok? ==> SameOutside(s, r.value, {TenderKey(tenderId)})
  {
    match GetTender(s, tenderId)
    case None => Err(NotFound)
    case Some(tender) =>
      if caller != tender.authority then Err(Unauthorized)
      else if tender.status != Open then Err(InvalidState)
      else match GetBids(s, tenderId)
        case None => Err(NotFound)  // "bids missing": never taken on a Consistent store
        case Some(bids) =>
          if !HasBid(bids, winningBidId) then Err(NotFound)
          else Ok(s[TenderKey(tenderId) := TenderVal(tender.(status := Awarded, winningBid := Some(winningBidId)))])
  }

  /** cancel_tender: the caller must be the tender's authority and the
      tender must be Open. Only the status changes, to Cancelled. */
  function CancelTender(s: Store, tenderId: U64, caller: Address): (r: Result<Store>)
    ensures GetTender(s, tenderId).None? ==> r == Err(NotFound)
    ensures GetTender(s, tenderId).Some? && caller != GetTender(s, tenderId).value.authority ==> r == Err(Unauthorized)
    ensures GetTender(s, tenderId).Some? && caller == GetTender(s, tenderId).value.authority && !IsOpen(s, tenderId)
            ==> r == Err(InvalidState)
    ensures r.Ok? <==> IsOpen(s, tenderId) && caller == GetTender(s, tenderId).value.authority
    ensures r.Ok? ==> GetTender(r.value, tenderId) == Some(GetTender(s, tenderId).value.(status := Cancelled))
    ensures r.Ok? ==> SameOutside(s, r.value, {TenderKey(tenderId)})
  {
    match GetTender(s, tenderId)
    case None => Err(NotFound)
    case Some(tender) =>
      if caller != tender.authority then Err(Unauthorized)
      else if tender.status != Open then Err(InvalidState)
      else Ok(s[TenderKey(tenderId) := TenderVal(tender.(status := Cancelled))])
  }

  // ---------------------------------------------------------------------
  // The invariant is kept by every operation

  /** A freshly deployed contract, with an empty store, is consistent. */
  lemma EmptyStoreConsistent()
    ensures Consistent(map[])
  {
  }


  lemma CreateTenderKeepsConsistent(s: Store, id: U64, authority: Address, title: string)
    requires Consistent(s)
    ensures Consistent(Commit(s, CreateTender(s, id, authority, title)))
  {
    var r := CreateTender(s, id, authority, title);
    if r.Ok? {
      var s' := r.value;
      forall x: U64 ensures TenderRecordOk(s', x) {
        if x != id {
          assert TenderRecordOk(s, x);
          KeysNeverCollide(x, id);
          assert GetTender(s', x) == GetTender(s, x);
          assert GetBids(s', x) == GetBids(s, x);
        }
      }
    }
  }

  lemma SubmitBidKeepsConsistent(s: Store, bidId: U64, tenderId: U64, vendor: Address, amount: int, details: string)
    requires Consistent(s)
    ensures Consistent(Commit(s, SubmitBid(s, bidId, tenderId, vendor, amount, details)))
  {
    var r := SubmitBid(s, bidId, tenderId, vendor, amount, details);
    if r.Ok? {
      var s' := r.value;
      forall x: U64 ensures TenderRecordOk(s', x) {
        assert TenderRecordOk(s, x);
        KeysNeverCollide(x, tenderId);
        assert GetTender(s', x) == GetTender(s, x);
        if x == tenderId {
          var bids := GetBids(s, x).value;
          var bid := Bid(bidId, tenderId, vendor, amount, details);
          AppendKeepsWellFormed(x, GetTender(s, x).value, bids, bid);
        } else {
          assert GetBids(s', x) == GetBids(s, x);
        }
      }
    }
  }

  /** Appending a positive bid with a fresh identifier to the list of an
      Open tender keeps the pair well formed. */
  lemma AppendKeepsWellFormed(id: U64, t: Tender, bids: seq<Bid>, bid: Bid)
    requires WellFormed(id, t, bids) && t.status == Open
    requires bid.tenderId == id && bid.amount > 0 && !HasBid(bids, bid.bidId)
    ensures WellFormed(id, t, bids + [bid])
  {
    var bids' := bids + [bid];
    forall i, j | 0 <= i < j < |bids'| ensures bids'[i].bidId != bids'[j].bidId {
      if j == |bids| {
        assert bids'[i] == bids[i];
      }
    }
  }

  lemma AwardTenderKeepsConsistent(s: Store, tenderId: U64, caller: Address, winningBidId: U64)
    requires Consistent(s)
    ensures Consistent(Commit(s, AwardTender(s, tenderId, caller, winningBidId)))
  {
    var r := AwardTender(s, tenderId, caller, winningBidId);
    if r.Ok? {
      var s' := r.value;
      forall x: U64 ensures TenderRecordOk(s', x) {
        assert TenderRecordOk(s, x);
        KeysNeverCollide(x, tenderId);
        assert GetBids(s', x) == GetBids(s, x);
        if x != tenderId {
          assert GetTender(s', x) == GetTender(s, x);
        }
      }
    }
  }

  lemma CancelTenderKeepsConsistent(s: Store, tenderId: U64, caller: Address)
    requires Consistent(s)
    ensures Consistent(Commit(s, CancelTender(s, tenderId, caller)))
  {
    var r := CancelTender(s, tenderId, caller);
    if r.Ok? {
      var s' := r.value;
      forall x: U64 ensures TenderRecordOk(s', x) {
        assert TenderRecordOk(s, x);
        KeysNeverCollide(x, tenderId);
        assert GetBids(s', x) == GetBids(s, x);
        if x != tenderId {
          assert GetTender(s', x) == GetTender(s, x);
        }
      }
    }
  }

  // ---------------------------------------------------------------------
  // Consequences of the invariant

  /** Every stored tender has a bid list, so the "bids missing" aborts of
      submit_bid and award_tender can never happen. */
  lemma EveryTenderHasBids(s: Store, id: U64)
    requires Consistent(s)
    ensures GetTender(s, id).Some? <==> GetBids(s, id).Some?
    ensures GetTender(s, id).Some? ==> WellFormed(id, GetTender(s, id).value, GetBids(s, id).value)
  {
    assert TenderRecordOk(s, id);
  }

  /** Awarded and Cancelled are terminal: on a tender that is no longer
      Open, even its own authority can neither award nor cancel it again,
      and no bid can be added to it. */
  lemma ClosedTenderRejectsCalls(s: Store, id: U64, bidId: U64, vendor: Address, amount: int, details: string, winningBidId: U64)
    requires GetTender(s, id).Some? && GetTender(s, id).value.status != Open
    ensures AwardTender(s, id, GetTender(s, id).value.authority, winningBidId) == Err(InvalidState)
    ensures CancelTender(s, id, GetTender(s, id).value.authority) == Err(InvalidState)
    ensures SubmitBid(s, bidId, id, vendor, amount, details).Err?
  {
  }

  /** A successful award or cancel closes the tender for good: a second
      award or cancel by anyone fails, and so does every later bid. */
  lemma CloseIsTerminal(s: Store, id: U64, caller: Address, winningBidId: U64,
                        caller': Address, winningBidId': U64, bidId: U64, vendor: Address, amount: int, details: string)
    requires AwardTender(s, id, caller, winningBidId).Ok? || CancelTender(s, id, caller).Ok?
    ensures var s' := if AwardTender(s, id, caller, winningBidId).Ok?
                      then AwardTender(s, id, caller, winningBidId).value
                      else CancelTender(s, id, caller).value;
            && AwardTender(s', id, caller', winningBidId').Err?
            && CancelTender(s', id, caller').Err?
            && SubmitBid(s', bidId, id, vendor, amount, details).Err?
            && GetBids(s', id) == GetBids(s, id)
  {
  }
}
