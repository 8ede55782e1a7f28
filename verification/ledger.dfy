/**
  The part of the ledger the escrow program reads and writes: the mints, the
  token accounts with their balances, and the offer accounts by address.
 */
module LedgerState {
  import opened Types
  import opened OfferState
  import opened Token

  datatype Ledger = Ledger(
    mints: set<Address>,
    balances: Balances,
    offers: map<Address, Offer>)

  /**
    The offer stored at `p` sits at the address derived from its own maker, id
    and bump, its maker is a keypair address, and its vault exists holding
    either the whole offered amount (not taken yet) or nothing (taken).
   */
  ghost predicate Custodied(l: Ledger, p: Address)
    requires p in l.offers
  {
    var o := l.offers[p];
    var vault := Vault(p, o.tokenMintA);
    && o.maker.Key?
    && p == OfferAddress(o.maker, o.id, o.bump)
    && vault in l.balances
    && (l.balances[vault] == o.tokenAAmount || l.balances[vault] == 0)
  }

  /** Every offer is custodied. */
  ghost predicate Consistent(l: Ledger)
  {
    forall p | p in l.offers :: Custodied(l, p)
  }
}
