# SecureTenderHub: a verified model of the procurement tender ledger

This project models the `SecureTenderHub` contract: a procurement ledger
hosted in a transactional smart-contract environment. An authority opens a
tender, vendors submit bids while it is Open, and the authority either awards
it to one of the submitted bids or cancels it. Tenders live in the contract's
instance store under the key `(TENDR, id)`, their bid lists under
`(TENDR, BIDS, id)`.

Layout:

- `types.dfy` (`TenderTypes`): identifiers (`U64`), `Address`, `TenderStatus`,
  `Tender`, `Bid`, and the error kinds of an aborted call.
- `keys.dfy` (`TenderKeys`): the two key constructors and the proof that they
  never collide.
- `ledger.dfy` (`TenderLedger`): the store as a map from keys to tagged
  values. The two views and each operation are written as a pure function
  from the store to the written store or an error. The store invariant is
  `Consistent`, and one lemma per operation proves that the operation keeps it.
- `history.dfy` (`TenderHistory`): sequences of calls, run one after the
  other with all-or-nothing aborts. It proves that the invariant holds at
  every point in time, that bid lists are append-only and that closed
  tenders are frozen.
- `hub.dfy` (`TenderHub`): the contract as a class over the store. Its entry
  points read the store, scan bid lists in loops and write back, as the
  contract does. Each one is proved to return the outcome, and leave the
  store, that the matching `TenderLedger` function prescribes.

Every `panic!` of the contract is an `Err` result here. The host reverts all
writes of a failed call, so `Commit` keeps the old store on an error. Panic
messages map to error kinds as follows:

- "tender_id exists" and "bid_id exists" are `KeyExists`.
- "tender not found", "winning bid not found" and "bids missing" are `NotFound`.
- "only authority can …" is `Unauthorized`.
- "tender not open" and "can cancel only when open" are `InvalidState`.
- "amount must be positive" is `InvalidArgument`.

## Model

| member | source | states |
|---|---|---|
| `TenderKeys.KeysNeverCollide` | contracts/hello-world/src/lib.rs:185-191 | `TenderKey` builds the pair `(TENDR, id)` and `BidsKey` the triple `(TENDR, BIDS, id)`; both are injective in the id, and no tender key equals any bid-list key |
| `TenderLedger.GetTender` | contracts/hello-world/src/lib.rs:173-177 | returns `Some(t)` exactly when the tender key holds tender `t`, otherwise `None`; it only reads the store |
| `TenderLedger.GetBids` | contracts/hello-world/src/lib.rs:179-183 | returns `Some(bids)` exactly when the bid-list key holds `bids`, otherwise `None`; it only reads the store |
| `TenderLedger.CreateTender` | contracts/hello-world/src/lib.rs:43-64 | fails with KeyExists exactly when the tender key is already taken; on success the tender reads back as Open with no winner and the bid list as empty; no other key changes |
| `TenderLedger.SubmitBid` | contracts/hello-world/src/lib.rs:67-111 | a non-positive amount fails with InvalidArgument whatever the store holds; then a missing tender gives NotFound, a tender that is not Open gives InvalidState, a repeated bid id gives KeyExists; success happens exactly when none of these apply and the bid list exists; the new list is the old list plus the new bid at the end, and no other key changes |
| `TenderLedger.AwardTender` | contracts/hello-world/src/lib.rs:114-149 | a missing tender gives NotFound, a caller other than the authority gives Unauthorized, a tender that is not Open gives InvalidState, a winning id absent from the bid list gives NotFound; success happens exactly when the tender is Open, the caller is its authority and the winning id is in its bid list; then only the status (Awarded) and the winner change, and no other key changes |
| `TenderLedger.CancelTender` | contracts/hello-world/src/lib.rs:152-170 | the same three errors as award; success happens exactly when the tender is Open and the caller is its authority; then only the status changes, to Cancelled, and the winner stays as it was; no other key changes |
| `TenderLedger.CreateTenderKeepsConsistent` | contracts/hello-world/src/lib.rs:51-63 | create_tender keeps the store invariant: the tender gets a bid list, and an Open tender has no winner |
| `TenderLedger.SubmitBidKeepsConsistent` | contracts/hello-world/src/lib.rs:94-110 | submit_bid keeps the store invariant, including bid-id uniqueness and the recorded winner still being in the list |
| `TenderLedger.AppendKeepsWellFormed` | contracts/hello-world/src/lib.rs:94-108 | appending a positive bid with an unused id to an Open tender's list keeps the bid ids pairwise distinct |
| `TenderLedger.AwardTenderKeepsConsistent` | contracts/hello-world/src/lib.rs:134-148 | award_tender keeps the store invariant: an Awarded tender has a winner, and the winner names a bid of its list |
| `TenderLedger.CancelTenderKeepsConsistent` | contracts/hello-world/src/lib.rs:163-169 | cancel_tender keeps the store invariant: a Cancelled tender has no winner |
| `TenderLedger.EveryTenderHasBids` | contracts/hello-world/src/lib.rs:91-92 | on a consistent store a tender exists exactly when its bid list does, so the "bids missing" aborts cannot happen |
| `TenderLedger.ClosedTenderRejectsCalls` | contracts/hello-world/src/lib.rs:126-166 | on an Awarded or Cancelled tender, award and cancel by its own authority fail with InvalidState, and every bid fails |
| `TenderLedger.CloseIsTerminal` | contracts/hello-world/src/lib.rs:145-169 | after a successful award or cancel, a second award or cancel by anyone fails, every later bid fails, and the bid list is the one before the close |
| `TenderLedger.EmptyStoreConsistent` | contracts/hello-world/src/lib.rs:37-38 | a freshly deployed contract, with an empty store, satisfies the store invariant |
| `TenderHistory.StepKeepsConsistent` | contracts/hello-world/src/lib.rs:43-170 | every call, whether it succeeds or aborts, keeps the store invariant |
| `TenderHistory.RunKeepsConsistent` | contracts/hello-world/src/lib.rs:43-170 | after any sequence of calls every tender has a bid list with distinct bid ids, and has a winner exactly when Awarded, and that winner is in its list |
| `TenderHistory.StepEvolves` | contracts/hello-world/src/lib.rs:43-170 | one call never removes a tender, never changes its id, authority or title, only appends to its bid list, and leaves a closed tender and its bids untouched |
| `TenderHistory.RunEvolves` | contracts/hello-world/src/lib.rs:86-110 | over any sequence of calls bid lists are append-only, and an Awarded or Cancelled tender and its bid list never change again |
| `TenderHistory.RoadWorksScenario` | contracts/hello-world/src/lib.rs:43-149 | from an empty store: a repeated tender id fails with KeyExists, a repeated bid id fails with KeyExists, award by a non-authority fails with Unauthorized, a proper award records the winner, and a later bid fails with InvalidState |
| `TenderHub.SecureTenderHub.constructor` | contracts/hello-world/src/lib.rs:37-38 | a new contract instance has an empty, consistent store |
| `TenderHub.SecureTenderHub.CreateTender` | contracts/hello-world/src/lib.rs:43-64 | checks the tender key and writes the tender and its empty bid list; the outcome and the new store are those of `TenderLedger.CreateTender`, and the invariant is kept |
| `TenderHub.SecureTenderHub.SubmitBid` | contracts/hello-world/src/lib.rs:67-111 | checks the amount, loads the tender, scans the bid list in a loop for the bid id, and appends; the outcome and the new store are those of `TenderLedger.SubmitBid`, and the invariant is kept |
| `TenderHub.SecureTenderHub.AwardTender` | contracts/hello-world/src/lib.rs:114-149 | checks authority and status, then searches the bid list with a found flag and an early exit; the outcome and the new store are those of `TenderLedger.AwardTender`, and the invariant is kept |
| `TenderHub.SecureTenderHub.CancelTender` | contracts/hello-world/src/lib.rs:152-170 | checks authority and status and rewrites the tender with status Cancelled; the outcome and the new store are those of `TenderLedger.CancelTender`, and the invariant is kept |

## Left out

- The host environment (`Env`, the instance-storage handle and its `has`/`get`/`set` calls) is a Dafny map held by the class. Storage-lifetime extension is not modelled.
- The byte encoding of contract types and of the `TENDR`/`BIDS` short symbols is not modelled. Keys are an abstract pair/triple datatype that carries the symbols as text.
- `Address` is an abstract type with equality. Its internals and invocation-signature checks are not modelled. The contract itself performs no authorization check in `create_tender` or `submit_bid`, and the model adds none.
- Bid amounts are unbounded integers: the 128-bit range of the contract's amount is not modelled, because only the sign of an amount is examined.
- Panic messages are not modelled; each abort is an error kind, mapped as listed above.
- The "bids missing" aborts appear in the functions as `NotFound`. `EveryTenderHasBids` proves they cannot happen on a consistent store, and the class methods read the bid list without that branch.
- A stored value of the wrong kind under a key would make the host trap when decoding. The views return `None` for it instead. The store invariant rules such a value out.
- `get_tender` and `get_bids` are the functions `TenderLedger.GetTender` and `TenderLedger.GetBids` over the store. They are not repeated as members of the class.
- The per-owner note journal (`add_note`, `view_note`, `notes_count`, `remove_note`) is a separate ledger and is not modelled.
