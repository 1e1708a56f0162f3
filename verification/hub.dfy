/** The SecureTenderHub contract: its entry points read and write the
    instance store step by step, as the contract does, and each is proved
    to do exactly what the corresponding function of TenderLedger says. */
module TenderHub {
  import opened TenderTypes
  import opened TenderKeys
  import L = TenderLedger

  class SecureTenderHub {
    /** The contract's instance store. */
    var store: L.Store

    ghost predicate Valid()
      reads this
    {
      L.Consistent(store)
    }

    constructor ()
      ensures Valid() && store == map[]
    {
      store := map[];
      L.EmptyStoreConsistent();
    }

    method CreateTender(tenderId: U64, authority: Address, title: string) returns (r: Outcome)
      requires Valid()
      modifies this
      ensures Valid()
      ensures r == L.OutcomeOf(L.CreateTender(old(store), tenderId, authority, title))
      ensures store == L.Commit(old(store), L.CreateTender(old(store), tenderId, authority, title))
    {
      var tKey := TenderKey(tenderId);
      if tKey in store {
        return Fail(KeyExists);
      }
      var tender := Tender(tenderId, authority, title, Open, None);
      var bKey := BidsKey(tenderId);
      L.CreateTenderKeepsConsistent(store, tenderId, authority, title);
      store := store[tKey := L.TenderVal(tender)];
      store := store[bKey := L.BidsVal([])];
      r := Pass;
    }

    method SubmitBid(bidId: U64, tenderId: U64, vendor: Address, amount: int, details: string) returns (r: Outcome)
      requires Valid()
      modifies this
      ensures Valid()
      ensures r == L.OutcomeOf(L.SubmitBid(old(store), bidId, tenderId, vendor, amount, details))
      ensures store == L.Commit(old(store), L.SubmitBid(old(store), bidId, tenderId, vendor, amount, details))
    {
      if amount <= 0 {
        return Fail(InvalidArgument);
      }
      var tender := L.GetTender(store, tenderId);
      if tender.None? {
        return Fail(NotFound);
      }
      if tender.value.status != Open {
        return Fail(InvalidState);
      }
      // every stored tender has a bid list, so this read cannot come back empty
      L.EveryTenderHasBids(store, tenderId);
      var bids := L.GetBids(store, tenderId).value;
      var i := 0;
      while i < |bids|
        invariant 0 <= i <= |bids|
        invariant forall j :: 0 <= j < i ==> bids[j].bidId != bidId
      {
        if bids[i].bidId == bidId {
          return Fail(KeyExists);
        }
        i := i + 1;
      }
      bids := bids + [Bid(bidId, tenderId, vendor, amount, details)];
      L.SubmitBidKeepsConsistent(store, bidId, tenderId, vendor, amount, details);
      store := store[BidsKey(tenderId) := L.BidsVal(bids)];
      r := Pass;
    }

    method AwardTender(tenderId: U64, caller: Address, winningBidId: U64) returns (r: Outcome)
      requires Valid()
      modifies this
      ensures Valid()
      ensures r == L.OutcomeOf(L.AwardTender(old(store), tenderId, caller, winningBidId))
      ensures store == L.Commit(old(store), L.AwardTender(old(store), tenderId, caller, winningBidId))
    {
      var tender := L.GetTender(store, tenderId);
      if tender.None? {
        return Fail(NotFound);
      }
      var t := tender.value;
      if caller != t.authority {
        return Fail(Unauthorized);
      }
      if t.status != Open {
        return Fail(InvalidState);
      }
      L.EveryTenderHasBids(store, tenderId);
      var bids := L.GetBids(store, tenderId).value;
      var found := false;
      var i := 0;
      while i < |bids|
        invariant 0 <= i <= |bids|
        invariant !found
        invariant forall j :: 0 <= j < i ==> bids[j].bidId != winningBidId
      {
        if bids[i].bidId == winningBidId {
          found := true;
          break;
        }
        i := i + 1;
      }
      if !found {
        return Fail(NotFound);
      }
      L.AwardTenderKeepsConsistent(store, tenderId, caller, winningBidId);
      t := t.(status := Awarded, winningBid := Some(winningBidId));
      store := store[TenderKey(tenderId) := L.TenderVal(t)];
      r := Pass;
    }

    method CancelTender(tenderId: U64, caller: Address) returns (r: Outcome)
      requires Valid()
      modifies this
      ensures Valid()
      ensures r == L.OutcomeOf(L.CancelTender(old(store), tenderId, caller))
      ensures store == L.Commit(old(store), L.CancelTender(old(store), tenderId, caller))
    {
      var tender := L.GetTender(store, tenderId);
      if tender.None? {
        return Fail(NotFound);
      }
      var t := tender.value;
      if caller != t.authority {
        return Fail(Unauthorized);
      }
      if t.status != Open {
        return Fail(InvalidState);
      }
      L.CancelTenderKeepsConsistent(store, tenderId, caller);
      t := t.(status := Cancelled);
      store := store[TenderKey(tenderId) := L.TenderVal(t)];
      r := Pass;
    }
  }
}
