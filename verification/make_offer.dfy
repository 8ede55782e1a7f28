/**
  What `make_offer` (lab6/escrow/programs/escrow/src/instructions/make_offer.rs)
  accepts and what it leaves behind, and the properties that follow.
 */
module MakeOfferSpec {
  import opened Types
  import opened OfferState
  import opened Token
  import opened LedgerState

  /** The accounts of `MakeOffer`, as the client supplies them. */
  datatype MakeOfferAccounts = MakeOfferAccounts(
    maker: Wallet,
    tokenMintA: Address,
    tokenMintB: Address,
    makerTokenAccountA: TokenAccount,
    vault: TokenAccount,
    offer: Address)

  /**
    The account constraints of `MakeOffer` hold in `l`, where `bump` is the
    bump found for the offer seeds: both mints exist; the source is the
    maker's own associated account for mint A and exists; the vault is the
    offer's associated account for mint A and does not exist yet; the offer is
    at the address derived from `[b"offer", maker, id]` and does not exist yet.
   */
  predicate Bound(l: Ledger, ctx: MakeOfferAccounts, id: u64, bump: u8)
  {
    && ctx.tokenMintA in l.mints
    && ctx.tokenMintB in l.mints
    && ctx.makerTokenAccountA in l.balances
    && ctx.makerTokenAccountA == TokenAccount(ctx.maker, ctx.tokenMintA)
    && ctx.vault == Vault(ctx.offer, ctx.tokenMintA)
    && ctx.vault !in l.balances
    && ctx.offer == OfferAddress(ctx.maker, id, bump)
    && ctx.offer !in l.offers
  }

  /**
    `make_offer` succeeds: the constraints hold and the maker holds at least
    the offered amount. Nothing is asked of the amounts or of the two mints
    beyond this: zero amounts and mint A = mint B are accepted.
   */
  predicate Accepted(l: Ledger, ctx: MakeOfferAccounts, id: u64, tokenAAmount: u64, bump: u8)
  {
    && Bound(l, ctx, id, bump)
    && l.balances[ctx.makerTokenAccountA] >= tokenAAmount
  }

  /**
    The ledger `l'` after a successful `make_offer` on `l`: the offer record
    holds the arguments, the maker's key, the two mints and the bump; the vault
    exists; exactly `tokenAAmount` has left the maker's account for the vault;
    the mints and every other account are as before.
   */
  ghost predicate Applied(l: Ledger, l': Ledger, ctx: MakeOfferAccounts, id: u64,
                          tokenAAmount: u64, tokenBWantedAmount: u64, bump: u8)
  {
    && l'.mints == l.mints
    && l'.offers == l.offers[ctx.offer := Offer(id, ctx.maker, tokenAAmount, ctx.tokenMintA,
                                                tokenBWantedAmount, ctx.tokenMintB, bump)]
    && l'.balances.Keys == l.balances.Keys + {ctx.vault}
    && forall x :: Bal(l'.balances, x) + (if x == ctx.makerTokenAccountA then tokenAAmount else 0)
                == Bal(l.balances, x) + (if x == ctx.vault then tokenAAmount else 0)
  }

  /**
    The exact amounts: the maker's mint-A balance drops by `tokenAAmount`, the
    new vault holds `tokenAAmount`, and no other account changes, so no
    balance outside mint A changes.
   */
  lemma DepositAmounts(l: Ledger, l': Ledger, ctx: MakeOfferAccounts, id: u64,
                       tokenAAmount: u64, tokenBWantedAmount: u64, bump: u8)
    requires Accepted(l, ctx, id, tokenAAmount, bump)
    requires Applied(l, l', ctx, id, tokenAAmount, tokenBWantedAmount, bump)
    ensures l'.balances[ctx.makerTokenAccountA] == l.balances[ctx.makerTokenAccountA] - tokenAAmount
    ensures l'.balances[ctx.vault] == tokenAAmount
    ensures forall x :: x != ctx.makerTokenAccountA && x != ctx.vault ==> Bal(l'.balances, x) == Bal(l.balances, x)
    ensures forall x: TokenAccount :: x.mint != ctx.tokenMintA ==> Bal(l'.balances, x) == Bal(l.balances, x)
  {
    assert ctx.vault != ctx.makerTokenAccountA;
    assert Bal(l'.balances, ctx.makerTokenAccountA) + tokenAAmount == Bal(l.balances, ctx.makerTokenAccountA);
    assert Bal(l'.balances, ctx.vault) == Bal(l.balances, ctx.vault) + tokenAAmount;
  }

  /** Per-mint conservation: the supply of every mint is the same before and after. */
  lemma AppliedConservesSupply(l: Ledger, l': Ledger, ctx: MakeOfferAccounts, id: u64,
                               tokenAAmount: u64, tokenBWantedAmount: u64, bump: u8)
    requires Accepted(l, ctx, id, tokenAAmount, bump)
    requires Applied(l, l', ctx, id, tokenAAmount, tokenBWantedAmount, bump)
    ensures forall mint :: Supply(l'.balances, mint) == Supply(l.balances, mint)
  {
    var withVault := OpenIfNeeded(l.balances, ctx.vault);
    assert Moved(withVault, l'.balances, ctx.makerTokenAccountA, ctx.vault, tokenAAmount) by {
      forall x ensures Bal(l'.balances, x) + (if x == ctx.makerTokenAccountA then tokenAAmount else 0)
                    == Bal(withVault, x) + (if x == ctx.vault then tokenAAmount else 0)
      {
        assert Bal(withVault, x) == Bal(l.balances, x);
      }
    }
    MovedConservesSupply(withVault, l'.balances, ctx.makerTokenAccountA, ctx.vault, tokenAAmount);
  }

  /** A successful `make_offer` keeps every offer custodied, the new one included. */
  lemma AppliedKeepsConsistent(l: Ledger, l': Ledger, ctx: MakeOfferAccounts, id: u64,
                               tokenAAmount: u64, tokenBWantedAmount: u64, bump: u8)
    requires Consistent(l)
    requires Accepted(l, ctx, id, tokenAAmount, bump)
    requires Applied(l, l', ctx, id, tokenAAmount, tokenBWantedAmount, bump)
    ensures Consistent(l')
  {
    DepositAmounts(l, l', ctx, id, tokenAAmount, tokenBWantedAmount, bump);
    forall p | p in l'.offers
      ensures Custodied(l', p)
    {
      if p != ctx.offer {
        assert Custodied(l, p);
        var o := l.offers[p];
        assert Vault(p, o.tokenMintA) != ctx.vault;
        assert Vault(p, o.tokenMintA) != ctx.makerTokenAccountA;
        assert Bal(l'.balances, Vault(p, o.tokenMintA)) == Bal(l.balances, Vault(p, o.tokenMintA));
      }
    }
  }

  /**
    A make touches no existing offer: every offer record already stored and
    the balance of its vault are as before.
   */
  lemma ExistingOffersUntouched(l: Ledger, l': Ledger, ctx: MakeOfferAccounts, id: u64,
                                tokenAAmount: u64, tokenBWantedAmount: u64, bump: u8, p: Address)
    requires Consistent(l)
    requires Accepted(l, ctx, id, tokenAAmount, bump)
    requires Applied(l, l', ctx, id, tokenAAmount, tokenBWantedAmount, bump)
    requires p in l.offers
    ensures p in l'.offers && l'.offers[p] == l.offers[p]
    ensures Bal(l'.balances, Vault(p, l.offers[p].tokenMintA)) == Bal(l.balances, Vault(p, l.offers[p].tokenMintA))
  {
    assert Custodied(l, p);
    var v := Vault(p, l.offers[p].tokenMintA);
    assert v != ctx.vault && v != ctx.makerTokenAccountA;
    assert Bal(l'.balances, v) + (if v == ctx.makerTokenAccountA then tokenAAmount else 0)
        == Bal(l.balances, v) + (if v == ctx.vault then tokenAAmount else 0);
  }

  /**
    A second `make_offer` for the same maker and id, which the program derives
    with the same bump, fails: the offer address is already in use.
   */
  lemma DuplicateRejected(l: Ledger, l': Ledger, ctx: MakeOfferAccounts, id: u64,
                          tokenAAmount: u64, tokenBWantedAmount: u64, bump: u8,
                          again: MakeOfferAccounts, tokenAAmount2: u64)
    requires Accepted(l, ctx, id, tokenAAmount, bump)
    requires Applied(l, l', ctx, id, tokenAAmount, tokenBWantedAmount, bump)
    requires again.maker == ctx.maker
    ensures !Accepted(l', again, id, tokenAAmount2, bump)
  {
  }

  /**
    Offers of different makers or ids never share an address, so a
    `make_offer` never finds another pair's record in its way.
   */
  lemma DistinctPairsDistinctOffers(l: Ledger, ctx1: MakeOfferAccounts, id1: u64, bump1: u8,
                                    ctx2: MakeOfferAccounts, id2: u64, bump2: u8)
    requires Bound(l, ctx1, id1, bump1) && Bound(l, ctx2, id2, bump2)
    requires ctx1.maker != ctx2.maker || id1 != id2
    ensures ctx1.offer != ctx2.offer
    ensures ctx1.vault != ctx2.vault
  {
    OfferAddressInjective(ctx1.maker, id1, bump1, ctx2.maker, id2, bump2);
  }
}
