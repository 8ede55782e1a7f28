/**
  What `take_offer` (lab6/escrow/programs/escrow/src/instructions/take_offer.rs)
  accepts and what it leaves behind, and the properties that follow.
 */
module TakeOfferSpec {
  import opened Types
  import opened OfferState
  import opened Token
  import opened LedgerState

  /** The accounts of `TakeOffer`, as the client supplies them. */
  datatype TakeOfferAccounts = TakeOfferAccounts(
    taker: Wallet,
    maker: Address,
    tokenMintA: Address,
    tokenMintB: Address,
    takerTokenAccountA: TokenAccount,
    takerTokenAccountB: TokenAccount,
    makerTokenAccountB: TokenAccount,
    vault: TokenAccount,
    offer: Address)

  /**
    The account constraints of `TakeOffer` hold in `l`: both mints exist; the
    three token accounts are the associated accounts of taker and maker for
    the right mints, and all but the taker's mint-A account exist; the vault
    is the offer's associated account for mint A and exists; the offer exists,
    its stored maker and mints are the ones supplied (`has_one`), and its
    address re-derives from `[b"offer", maker, offer.id]` with the stored bump.
   */
  predicate Bound(l: Ledger, ctx: TakeOfferAccounts)
  {
    && ctx.tokenMintA in l.mints
    && ctx.tokenMintB in l.mints
    && ctx.takerTokenAccountA == TokenAccount(ctx.taker, ctx.tokenMintA)
    && ctx.takerTokenAccountB in l.balances
    && ctx.takerTokenAccountB == TokenAccount(ctx.taker, ctx.tokenMintB)
    && ctx.makerTokenAccountB in l.balances
    && ctx.makerTokenAccountB == TokenAccount(ctx.maker, ctx.tokenMintB)
    && ctx.vault in l.balances
    && ctx.vault == Vault(ctx.offer, ctx.tokenMintA)
    && ctx.offer in l.offers
    && l.offers[ctx.offer].maker == ctx.maker
    && l.offers[ctx.offer].tokenMintA == ctx.tokenMintA
    && l.offers[ctx.offer].tokenMintB == ctx.tokenMintB
    && ctx.offer == OfferAddress(ctx.maker, l.offers[ctx.offer].id, l.offers[ctx.offer].bump)
  }

  /** `take_offer` succeeds: the constraints hold, the taker holds the wanted amount of mint B and the vault the offered amount. */
  predicate Accepted(l: Ledger, ctx: TakeOfferAccounts)
  {
    && Bound(l, ctx)
    && l.balances[ctx.takerTokenAccountB] >= l.offers[ctx.offer].tokenBWantedAmount
    && l.balances[ctx.vault] >= l.offers[ctx.offer].tokenAAmount
  }

  /** The address the program signs for in `withdraw_from_vault`: seeds `[b"offer", maker, offer.id, bump]`. */
  function OfferSigner(ctx: TakeOfferAccounts, o: Offer): Address
  {
    OfferAddress(ctx.maker, o.id, o.bump)
  }

  /** What account `x` pays out in the two legs of a take of `o`. */
  function Debit(ctx: TakeOfferAccounts, o: Offer, x: TokenAccount): nat
  {
    (if x == ctx.takerTokenAccountB then o.tokenBWantedAmount else 0) + (if x == ctx.vault then o.tokenAAmount else 0)
  }

  /** What account `x` receives in the two legs of a take of `o`. */
  function Credit(ctx: TakeOfferAccounts, o: Offer, x: TokenAccount): nat
  {
    (if x == ctx.makerTokenAccountB then o.tokenBWantedAmount else 0) + (if x == ctx.takerTokenAccountA then o.tokenAAmount else 0)
  }

  /**
    The ledger `l'` after a successful `take_offer` on `l`: the taker's mint-A
    account exists (opened with 0 if it was absent); the taker has paid
    `tokenBWantedAmount` to the maker and the vault `tokenAAmount` to the
    taker; nothing else changed, the offer records included.
   */
  ghost predicate Applied(l: Ledger, l': Ledger, ctx: TakeOfferAccounts)
  {
    && ctx.offer in l.offers
    && l'.mints == l.mints
    && l'.offers == l.offers
    && l'.balances.Keys == l.balances.Keys + {ctx.takerTokenAccountA}
    && forall x :: Bal(l'.balances, x) + Debit(ctx, l.offers[ctx.offer], x)
                == Bal(l.balances, x) + Credit(ctx, l.offers[ctx.offer], x)
  }

  /**
    The exact amounts, when taker and maker differ and so do the mints (so
    the four accounts are distinct): taker's mint B and maker's mint B move
    by `tokenBWantedAmount`, the vault and the taker's mint A by
    `tokenAAmount`, and no other account changes.
   */
  lemma SettlementAmounts(l: Ledger, l': Ledger, ctx: TakeOfferAccounts)
    requires Consistent(l)
    requires Accepted(l, ctx) && Applied(l, l', ctx)
    requires ctx.taker != ctx.maker && ctx.tokenMintA != ctx.tokenMintB
    ensures var o := l.offers[ctx.offer];
      && l'.balances[ctx.takerTokenAccountB] == l.balances[ctx.takerTokenAccountB] - o.tokenBWantedAmount
      && l'.balances[ctx.makerTokenAccountB] == l.balances[ctx.makerTokenAccountB] + o.tokenBWantedAmount
      && l'.balances[ctx.vault] == l.balances[ctx.vault] - o.tokenAAmount
      && l'.balances[ctx.takerTokenAccountA] == Bal(l.balances, ctx.takerTokenAccountA) + o.tokenAAmount
    ensures forall x :: x !in {ctx.takerTokenAccountA, ctx.takerTokenAccountB, ctx.makerTokenAccountB, ctx.vault}
                    ==> Bal(l'.balances, x) == Bal(l.balances, x)
  {
    var o := l.offers[ctx.offer];
    assert Custodied(l, ctx.offer);
    assert Bal(l'.balances, ctx.takerTokenAccountB) + Debit(ctx, o, ctx.takerTokenAccountB)
        == Bal(l.balances, ctx.takerTokenAccountB) + Credit(ctx, o, ctx.takerTokenAccountB);
    assert Bal(l'.balances, ctx.makerTokenAccountB) + Debit(ctx, o, ctx.makerTokenAccountB)
        == Bal(l.balances, ctx.makerTokenAccountB) + Credit(ctx, o, ctx.makerTokenAccountB);
    assert Bal(l'.balances, ctx.vault) + Debit(ctx, o, ctx.vault)
        == Bal(l.balances, ctx.vault) + Credit(ctx, o, ctx.vault);
    assert Bal(l'.balances, ctx.takerTokenAccountA) + Debit(ctx, o, ctx.takerTokenAccountA)
        == Bal(l.balances, ctx.takerTokenAccountA) + Credit(ctx, o, ctx.takerTokenAccountA);
    forall x | x !in {ctx.takerTokenAccountA, ctx.takerTokenAccountB, ctx.makerTokenAccountB, ctx.vault}
      ensures Bal(l'.balances, x) == Bal(l.balances, x)
    {
      assert Bal(l'.balances, x) + Debit(ctx, o, x) == Bal(l.balances, x) + Credit(ctx, o, x);
    }
  }

  /** Per-mint conservation: the supply of every mint is the same before and after. */
  lemma AppliedConservesSupply(l: Ledger, l': Ledger, ctx: TakeOfferAccounts)
    requires Consistent(l)
    requires Accepted(l, ctx) && Applied(l, l', ctx)
    ensures forall mint :: Supply(l'.balances, mint) == Supply(l.balances, mint)
  {
    var o := l.offers[ctx.offer];
    assert Custodied(l, ctx.offer);
    var b0 := OpenIfNeeded(l.balances, ctx.takerTokenAccountA);
    var b1 := Move(b0, ctx.takerTokenAccountB, ctx.makerTokenAccountB, o.tokenBWantedAmount);
    MovedIsMove(b0, b1, ctx.takerTokenAccountB, ctx.makerTokenAccountB, o.tokenBWantedAmount);
    MovedConservesSupply(b0, b1, ctx.takerTokenAccountB, ctx.makerTokenAccountB, o.tokenBWantedAmount);
    assert Bal(b1, ctx.vault) == Bal(b0, ctx.vault);
    assert Moved(b1, l'.balances, ctx.vault, ctx.takerTokenAccountA, o.tokenAAmount) by {
      forall x ensures Bal(l'.balances, x) + (if x == ctx.vault then o.tokenAAmount else 0)
                    == Bal(b1, x) + (if x == ctx.takerTokenAccountA then o.tokenAAmount else 0)
      {
        assert Bal(b0, x) == Bal(l.balances, x);
        assert Bal(l'.balances, x) + Debit(ctx, o, x) == Bal(l.balances, x) + Credit(ctx, o, x);
      }
    }
    MovedConservesSupply(b1, l'.balances, ctx.vault, ctx.takerTokenAccountA, o.tokenAAmount);
  }

  /** A successful `take_offer` keeps every offer custodied: the taken vault goes from the offered amount to 0. */
  lemma AppliedKeepsConsistent(l: Ledger, l': Ledger, ctx: TakeOfferAccounts)
    requires Consistent(l)
    requires Accepted(l, ctx) && Applied(l, l', ctx)
    ensures Consistent(l')
  {
    var o := l.offers[ctx.offer];
    assert Custodied(l, ctx.offer);
    forall p | p in l'.offers
      ensures Custodied(l', p)
    {
      assert Custodied(l, p);
      var v := Vault(p, l.offers[p].tokenMintA);
      assert Bal(l'.balances, v) + Debit(ctx, o, v) == Bal(l.balances, v) + Credit(ctx, o, v);
    }
  }

  /**
    No double settlement of a non-zero offer: once a take of an offer with a
    positive `tokenAAmount` has succeeded, the offer record is kept but its
    vault is empty, so a take of the same offer right after fails. That this
    lasts through any later instructions is `Swap.NoSecondTake`.
   */
  lemma SecondTakeRejected(l: Ledger, l': Ledger, ctx: TakeOfferAccounts, again: TakeOfferAccounts)
    requires Consistent(l)
    requires Accepted(l, ctx) && Applied(l, l', ctx)
    requires again.offer == ctx.offer
    requires l.offers[ctx.offer].tokenAAmount > 0
    ensures ctx.offer in l'.offers && l'.offers[ctx.offer] == l.offers[ctx.offer]
    ensures Bal(l'.balances, ctx.vault) == 0
    ensures !Accepted(l', again)
  {
    var o := l.offers[ctx.offer];
    assert Custodied(l, ctx.offer);
    assert l.balances[ctx.vault] == o.tokenAAmount;
    assert Bal(l'.balances, ctx.vault) + Debit(ctx, o, ctx.vault) == Bal(l.balances, ctx.vault) + Credit(ctx, o, ctx.vault);
    assert Bal(l'.balances, ctx.vault) == 0;
  }

  /**
    A take touches no other offer: every other offer record and the balance
    of its vault are as before.
   */
  lemma OtherOffersUntouched(l: Ledger, l': Ledger, ctx: TakeOfferAccounts, p: Address)
    requires Consistent(l)
    requires Accepted(l, ctx) && Applied(l, l', ctx)
    requires p in l.offers && p != ctx.offer
    ensures p in l'.offers && l'.offers[p] == l.offers[p]
    ensures Bal(l'.balances, Vault(p, l.offers[p].tokenMintA)) == Bal(l.balances, Vault(p, l.offers[p].tokenMintA))
  {
    var o := l.offers[ctx.offer];
    assert Custodied(l, ctx.offer);
    assert Custodied(l, p);
    var v := Vault(p, l.offers[p].tokenMintA);
    assert v !in {ctx.takerTokenAccountA, ctx.takerTokenAccountB, ctx.makerTokenAccountB, ctx.vault};
    assert Bal(l'.balances, v) + Debit(ctx, o, v) == Bal(l.balances, v) + Credit(ctx, o, v);
  }

  /**
    An offer of zero tokens is never used up: after a successful take it can
    be taken again by the same accounts exactly when the taker still holds
    the wanted amount.
   */
  lemma ZeroOfferRetaken(l: Ledger, l': Ledger, ctx: TakeOfferAccounts)
    requires Consistent(l)
    requires Accepted(l, ctx) && Applied(l, l', ctx)
    requires l.offers[ctx.offer].tokenAAmount == 0
    ensures Accepted(l', ctx) <==> l'.balances[ctx.takerTokenAccountB] >= l.offers[ctx.offer].tokenBWantedAmount
  {
  }

  /**
    The binding checks: a take whose maker or mints differ from those the
    offer stores, or that names an address the offer does not re-derive to,
    fails.
   */
  lemma MismatchRejected(l: Ledger, ctx: TakeOfferAccounts)
    requires ctx.offer in l.offers
    requires var o := l.offers[ctx.offer];
      || o.maker != ctx.maker || o.tokenMintA != ctx.tokenMintA || o.tokenMintB != ctx.tokenMintB
      || ctx.offer != OfferAddress(ctx.maker, o.id, o.bump)
    ensures !Accepted(l, ctx)
  {
  }

  /**
    Only the offer can release its vault: a transfer out of the vault of
    address `offer` succeeds only on the authority of `offer` itself, and only
    when `offer` is among the signers, which for a derived address means the
    program signed with its seeds.
   */
  lemma VaultReleaseNeedsOfferSignature(b: Balances, offer: Address, mint: Address, to: TokenAccount,
                                        authority: Address, signers: set<Address>, amount: nat)
    requires TransferChecked(b, Vault(offer, mint), to, mint, authority, signers, amount).Success?
    ensures authority == offer && offer in signers
  {
  }
}
