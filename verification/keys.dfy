/** The storage keys of the tender ledger. A tender lives under the pair
    (TENDR, id) and its bid list under the triple (TENDR, BIDS, id); the
    symbols are kept as text, their short-symbol encoding is not modelled. */
module TenderKeys {
  import opened TenderTypes

  type Symbol = string

  /** Namespace symbol shared by every key of the ledger. */
  const TenderNamespace: Symbol := "TENDR"

  /** Extra tag that distinguishes a bid-list key from a tender key. */
  const BidsTag: Symbol := "BIDS"

  /** A key of the contract's instance store: a 2-tuple or a 3-tuple. */
  datatype StoreKey =
    | Pair(ns: Symbol, id: U64)
    | Triple(ns: Symbol, tag: Symbol, id: U64)

  function TenderKey(id: U64): StoreKey {
    Pair(TenderNamespace, id)
  }

  function BidsKey(id: U64): StoreKey {
    Triple(TenderNamespace, BidsTag, id)
  }

  /** Distinct identifiers get distinct keys, and no tender key is ever a
      bid-list key, so a tender and a bid list never overwrite each other. */
  lemma KeysNeverCollide(a: U64, b: U64)
    ensures TenderKey(a) == TenderKey(b) <==> a == b
    ensures BidsKey(a) == BidsKey(b) <==> a == b
    ensures TenderKey(a) != BidsKey(b)
  {
  }
}
