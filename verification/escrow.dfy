/**
  The escrow program's two instructions as methods over the ledger they
  change in place. Account validation runs first; then the handler creates
  accounts, writes the offer and calls the token program. The host runs each
  instruction as one transaction: if any step fails, every change the
  instruction made is undone.
 */
module Escrow {
  import opened Types
  import opened OfferState
  import opened Token
  import opened LedgerState
  import MakeOfferSpec
  import TakeOfferSpec

  class Chain {
    var mints: set<Address>
    var balances: Balances
    var offers: map<Address, Offer>

    /**
      The bump `find_program_address` settles on for a list of seeds. It
      depends on SHA-256 and a curve test, so the model takes it as given; it is
      the same for the same seeds.
     */
    const canonicalBump: seq<Seed> -> u8

    function View(): Ledger
      reads this
    {
      Ledger(mints, balances, offers)
    }

    ghost predicate Valid()
      reads this
    {
      Consistent(View())
    }

    /** A ledger with the given mints and token accounts and no offers yet. */
    constructor (mints: set<Address>, balances: Balances, canonicalBump: seq<Seed> -> u8)
      ensures Valid()
      ensures View() == Ledger(mints, balances, map[])
      ensures this.canonicalBump == canonicalBump
    {
      this.mints := mints;
      this.balances := balances;
      this.offers := map[];
      this.canonicalBump := canonicalBump;
    }

    /** The host's transaction boundary: a failed instruction leaves the ledger as it found it. */
    method Rollback(snapshot: Ledger)
      modifies this
      ensures View() == snapshot
    {
      mints, balances, offers := snapshot.mints, snapshot.balances, snapshot.offers;
    }

    /** Validation of the `MakeOffer` accounts, constraint by constraint in declaration order. */
    method CheckMakeOfferAccounts(ctx: MakeOfferSpec.MakeOfferAccounts, id: u64, bump: u8) returns (r: Outcome)
      ensures r.Ok? <==> MakeOfferSpec.Bound(View(), ctx, id, bump)
    {
      if ctx.tokenMintA !in mints || ctx.tokenMintB !in mints {
        return Err(AccountNotInitialized);
      }
      if ctx.makerTokenAccountA !in balances {
        return Err(AccountNotInitialized);
      }
      if ctx.makerTokenAccountA != TokenAccount(ctx.maker, ctx.tokenMintA) {
        return Err(ConstraintAssociated);
      }
      if ctx.vault != Vault(ctx.offer, ctx.tokenMintA) {
        return Err(ConstraintAssociated);
      }
      if ctx.vault in balances {
        return Err(AccountAlreadyInUse);
      }
      if ctx.offer != OfferAddress(ctx.maker, id, bump) {
        return Err(ConstraintSeeds);
      }
      if ctx.offer in offers {
        return Err(AccountAlreadyInUse);
      }
      r := Ok;
    }

    /** `send_offer_tokens_to_vault`: the maker pays exactly `tokenAAmount` of mint A into the vault. */
    method SendOfferTokensToVault(ctx: MakeOfferSpec.MakeOfferAccounts, tokenAAmount: u64) returns (r: Outcome)
      requires ctx.makerTokenAccountA in balances && ctx.vault in balances
      requires ctx.makerTokenAccountA == TokenAccount(ctx.maker, ctx.tokenMintA)
      requires ctx.vault.mint == ctx.tokenMintA
      modifies this`balances
      ensures r.Ok? <==> old(balances)[ctx.makerTokenAccountA] >= tokenAAmount
      ensures r.Err? ==> r.error == InsufficientFunds && balances == old(balances)
      ensures r.Ok? ==> Moved(old(balances), balances, ctx.makerTokenAccountA, ctx.vault, tokenAAmount)
    {
      var t := TransferChecked(balances, ctx.makerTokenAccountA, ctx.vault, ctx.tokenMintA,
                               ctx.maker, {ctx.maker}, tokenAAmount);
      if t.Failure? {
        return Err(t.error);
      }
      balances := t.value;
      r := Ok;
    }

    /**
      `make_offer`: validate the accounts, create the vault and the offer
      account, write the offer record, and move the offered tokens into the
      vault; all or nothing.
     */
    method MakeOffer(ctx: MakeOfferSpec.MakeOfferAccounts, id: u64, tokenAAmount: u64, tokenBWantedAmount: u64)
      returns (r: Outcome)
      requires Valid()
      modifies this
      ensures Valid()
      ensures var bump := canonicalBump(OfferSeeds(ctx.maker, id));
        && (r.Ok? <==> MakeOfferSpec.Accepted(old(View()), ctx, id, tokenAAmount, bump))
        && (r.Ok? ==> MakeOfferSpec.Applied(old(View()), View(), ctx, id, tokenAAmount, tokenBWantedAmount, bump))
        && (MakeOfferSpec.Bound(old(View()), ctx, id, bump) ==>
              (MakeOfferSpec.Accepted(old(View()), ctx, id, tokenAAmount, bump) || r == Err(InsufficientFunds)))
      ensures r.Err? ==> View() == old(View())
    {
      var bump := canonicalBump(OfferSeeds(ctx.maker, id));
      r := CheckMakeOfferAccounts(ctx, id, bump);
      if r.Err? {
        return;
      }
      var snapshot := View();
      // `init` of the vault and of the offer account, then `set_inner` on the offer
      balances := balances[ctx.vault := 0];
      offers := offers[ctx.offer := Offer(id, ctx.maker, tokenAAmount, ctx.tokenMintA,
                                          tokenBWantedAmount, ctx.tokenMintB, bump)];
      r := SendOfferTokensToVault(ctx, tokenAAmount);
      if r.Err? {
        Rollback(snapshot);
        return;
      }
      assert MakeOfferSpec.Applied(snapshot, View(), ctx, id, tokenAAmount, tokenBWantedAmount, bump) by {
        forall x ensures Bal(balances, x) + (if x == ctx.makerTokenAccountA then tokenAAmount else 0)
                      == Bal(snapshot.balances, x) + (if x == ctx.vault then tokenAAmount else 0)
        {
          assert Bal(snapshot.balances[ctx.vault := 0], x) == Bal(snapshot.balances, x);
        }
      }
      MakeOfferSpec.AppliedKeepsConsistent(snapshot, View(), ctx, id, tokenAAmount, tokenBWantedAmount, bump);
    }

    /** Validation of the `TakeOffer` accounts, constraint by constraint in declaration order. */
    method CheckTakeOfferAccounts(ctx: TakeOfferSpec.TakeOfferAccounts) returns (r: Outcome)
      ensures r.Ok? <==> TakeOfferSpec.Bound(View(), ctx)
    {
      if ctx.tokenMintA !in mints || ctx.tokenMintB !in mints {
        return Err(AccountNotInitialized);
      }
      if ctx.takerTokenAccountA != TokenAccount(ctx.taker, ctx.tokenMintA) {
        return Err(ConstraintAssociated);
      }
      if ctx.takerTokenAccountB !in balances {
        return Err(AccountNotInitialized);
      }
      if ctx.takerTokenAccountB != TokenAccount(ctx.taker, ctx.tokenMintB) {
        return Err(ConstraintAssociated);
      }
      if ctx.makerTokenAccountB !in balances {
        return Err(AccountNotInitialized);
      }
      if ctx.makerTokenAccountB != TokenAccount(ctx.maker, ctx.tokenMintB) {
        return Err(ConstraintAssociated);
      }
      if ctx.vault !in balances {
        return Err(AccountNotInitialized);
      }
      if ctx.vault != Vault(ctx.offer, ctx.tokenMintA) {
        return Err(ConstraintAssociated);
      }
      if ctx.offer !in offers {
        return Err(AccountNotInitialized);
      }
      var o := offers[ctx.offer];
      if o.maker != ctx.maker || o.tokenMintA != ctx.tokenMintA || o.tokenMintB != ctx.tokenMintB {
        return Err(ConstraintHasOne);
      }
      if ctx.offer != OfferAddress(ctx.maker, o.id, o.bump) {
        return Err(ConstraintSeeds);
      }
      r := Ok;
    }

    /** `transfer_tokens_to_maker`: the taker pays exactly the wanted amount of mint B to the maker. */
    method TransferTokensToMaker(ctx: TakeOfferSpec.TakeOfferAccounts, o: Offer) returns (r: Outcome)
      requires ctx.takerTokenAccountB in balances && ctx.makerTokenAccountB in balances
      requires ctx.takerTokenAccountB == TokenAccount(ctx.taker, ctx.tokenMintB)
      requires ctx.makerTokenAccountB.mint == ctx.tokenMintB
      modifies this`balances
      ensures r.Ok? <==> old(balances)[ctx.takerTokenAccountB] >= o.tokenBWantedAmount
      ensures r.Err? ==> r.error == InsufficientFunds && balances == old(balances)
      ensures r.Ok? ==> Moved(old(balances), balances, ctx.takerTokenAccountB, ctx.makerTokenAccountB, o.tokenBWantedAmount)
    {
      var t := TransferChecked(balances, ctx.takerTokenAccountB, ctx.makerTokenAccountB, ctx.tokenMintB,
                               ctx.taker, {ctx.taker}, o.tokenBWantedAmount);
      if t.Failure? {
        return Err(t.error);
      }
      balances := t.value;
      r := Ok;
    }

    /**
      `withdraw_from_vault`: the vault pays exactly the offered amount of mint A
      to the taker, on the authority of the offer, for which the program signs
      with the seeds `[b"offer", maker, offer.id, bump]`.
     */
    method WithdrawFromVault(ctx: TakeOfferSpec.TakeOfferAccounts, o: Offer) returns (r: Outcome)
      requires ctx.vault in balances && ctx.takerTokenAccountA in balances
      requires ctx.vault == Vault(ctx.offer, ctx.tokenMintA)
      requires ctx.takerTokenAccountA.mint == ctx.tokenMintA
      requires ctx.offer == TakeOfferSpec.OfferSigner(ctx, o)
      modifies this`balances
      ensures r.Ok? <==> old(balances)[ctx.vault] >= o.tokenAAmount
      ensures r.Err? ==> r.error == InsufficientFunds && balances == old(balances)
      ensures r.Ok? ==> Moved(old(balances), balances, ctx.vault, ctx.takerTokenAccountA, o.tokenAAmount)
    {
      var signers := {ctx.taker, TakeOfferSpec.OfferSigner(ctx, o)};
      var t := TransferChecked(balances, ctx.vault, ctx.takerTokenAccountA, ctx.tokenMintA,
                               ctx.offer, signers, o.tokenAAmount);
      if t.Failure? {
        return Err(t.error);
      }
      balances := t.value;
      r := Ok;
    }

    /**
      `take_offer`: validate the accounts, open the taker's mint-A account if
      needed, then taker pays maker and vault pays taker; all or nothing. The
      `id` argument is not used, and the offer and vault are left in place.
     */
    method TakeOffer(ctx: TakeOfferSpec.TakeOfferAccounts, id: u64) returns (r: Outcome)
      requires Valid()
      modifies this
      ensures Valid()
      ensures r.Ok? <==> TakeOfferSpec.Accepted(old(View()), ctx)
      ensures r.Ok? ==> TakeOfferSpec.Applied(old(View()), View(), ctx)
      ensures TakeOfferSpec.Bound(old(View()), ctx) ==>
                (TakeOfferSpec.Accepted(old(View()), ctx) || r == Err(InsufficientFunds))
      ensures r.Err? ==> View() == old(View())
    {
      r := CheckTakeOfferAccounts(ctx);
      if r.Err? {
        return;
      }
      var snapshot := View();
      var o := offers[ctx.offer];
      assert Custodied(snapshot, ctx.offer);
      // `init_if_needed` of the taker's mint-A account
      balances := OpenIfNeeded(balances, ctx.takerTokenAccountA);
      var withTakerA := balances;
      r := TransferTokensToMaker(ctx, o);
      if r.Err? {
        Rollback(snapshot);
        return;
      }
      var paid := balances;
      assert Bal(paid, ctx.vault) == Bal(withTakerA, ctx.vault);
      r := WithdrawFromVault(ctx, o);
      if r.Err? {
        Rollback(snapshot);
        return;
      }
      assert TakeOfferSpec.Applied(snapshot, View(), ctx) by {
        forall x ensures Bal(balances, x) + TakeOfferSpec.Debit(ctx, o, x)
                      == Bal(snapshot.balances, x) + TakeOfferSpec.Credit(ctx, o, x)
        {
          assert Bal(withTakerA, x) == Bal(snapshot.balances, x);
          assert Bal(paid, x) + (if x == ctx.takerTokenAccountB then o.tokenBWantedAmount else 0)
              == Bal(withTakerA, x) + (if x == ctx.makerTokenAccountB then o.tokenBWantedAmount else 0);
          assert Bal(balances, x) + (if x == ctx.vault then o.tokenAAmount else 0)
              == Bal(paid, x) + (if x == ctx.takerTokenAccountA then o.tokenAAmount else 0);
        }
      }
      TakeOfferSpec.AppliedKeepsConsistent(snapshot, View(), ctx);
    }
  }
}
