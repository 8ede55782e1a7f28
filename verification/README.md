# Escrow program: a Dafny model

This project models the escrow program of `lab6/escrow`. The program is a
two-instruction exchange that runs on top of a token ledger.

- `make_offer` is run by a maker. It creates an `Offer` record at the address
  derived from `[b"offer", maker, id]`. It creates a vault: the offer's own
  token account for mint A. It then moves `token_a_amount` of mint A from the
  maker's account into the vault.
- `take_offer` is run by a taker. It first checks that the supplied maker,
  mints and offer address match what the offer stored. It opens the taker's
  mint-A account if needed. The taker then pays `token_b_wanted_amount` of
  mint B to the maker, and the vault pays `token_a_amount` of mint A to the
  taker. The program signs that payment for the offer, using the offer's seeds.

Each instruction runs as one host transaction, so a failure at any step
undoes every change.

Layout:

- `types.dfy`: fixed-width integers, addresses (keypair or derived),
  token accounts identified by (authority, mint), and errors.
- `offer.dfy`: the `Offer` record, its space, the little-endian id seed,
  and the offer address. Offer addresses are injective in (maker, id, bump).
- `token.dfy`: balances, per-mint supply, and `transfer_checked` as an
  abstract ledger step.
- `ledger.dfy`: the ledger the program sees and its invariant `Consistent`.
  The invariant says every offer sits at its derived address and its vault
  holds either the offered amount or nothing.
- `make_offer.dfy` and `take_offer.dfy`: for each instruction, when it
  succeeds (`Accepted`) and what it leaves behind (`Applied`), with the
  lemmas about them.
- `escrow.dfy`: class `Chain`, whose methods carry out the two instructions
  on mutable state. A failed instruction rolls back to a snapshot. Each method
  is proved against `Accepted`/`Applied`.
- `swap.dfy`: a make followed by a take, end to end.

Points where the code does less than one might expect, and the model
follows the code:

- `make_offer` does not reject zero amounts or mint A = mint B.
- `take_offer` neither closes nor consumes the offer or the vault.
  A repeated take of a non-zero offer therefore fails because the vault is
  empty (`InsufficientFunds`), not because the offer is gone. An offer of zero
  tokens can be taken again and again.
- The `id` argument of `take_offer` is ignored.

## Model

| member | source | states |
|---|---|---|
| OfferState.FieldWidthsFitTypes | lab6/escrow/programs/escrow/src/state/offer.rs:5-16 | The 8-byte and 1-byte widths of the `u64` and `u8` fields are exactly what their types need: 256^8 and 256^1 are the type bounds, and every value is stored in that many bytes and read back unchanged. |
| OfferState.OfferSpace | lab6/escrow/programs/escrow/src/state/offer.rs:3-16 | The record has seven fields whose widths come from their types (u64 8, Pubkey 32, u8 1). It needs 121 bytes, and with the 8-byte discriminator the account gets 129. |
| OfferState.LeBytes | lab6/escrow/programs/escrow/src/instructions/make_offer.rs:105 | `to_le_bytes` of a `width`-byte integer yields exactly `width` bytes. |
| OfferState.LeRoundTrip | lab6/escrow/programs/escrow/src/instructions/make_offer.rs:105 | Reading back the little-endian bytes of any number below 256^width gives that number. |
| OfferState.U64LeBytes | lab6/escrow/programs/escrow/src/instructions/make_offer.rs:105 | The id seed of a u64 is 8 bytes and determines the id. |
| OfferState.OfferAddressInjective | lab6/escrow/programs/escrow/src/instructions/make_offer.rs:103-108 | Two offer addresses are equal exactly when maker, id and bump are equal, so each (maker, id) pair has its own record. |
| Token.TransferChecked | lab6/escrow/programs/escrow/src/instructions/make_offer.rs:62-66 | A transfer succeeds exactly when both accounts exist, the source holds the amount, both accounts are in the given mint, and the authority owns the source and signed. It fails with `InsufficientFunds` when the source is short. On success it moves exactly the amount from source to destination, changes no other account, and keeps every mint's supply. |
| Token.OpenIfNeeded | lab6/escrow/programs/escrow/src/instructions/take_offer.rs:97-103 | `init_if_needed` gives an existing account unchanged, or adds the account with balance 0. No balance and no supply changes. |
| MakeOfferSpec.DepositAmounts | lab6/escrow/programs/escrow/src/instructions/make_offer.rs:42-66 | After a successful make, the maker's mint-A balance is lower by exactly `token_a_amount` and the new vault holds exactly `token_a_amount`. No other account changes, so no balance outside mint A changes. |
| MakeOfferSpec.AppliedConservesSupply | lab6/escrow/programs/escrow/src/instructions/make_offer.rs:48-66 | A successful make leaves the total supply of every mint unchanged. |
| MakeOfferSpec.AppliedKeepsConsistent | lab6/escrow/programs/escrow/src/instructions/make_offer.rs:94-109 | After a make, every offer, the new one included, sits at its derived address and has a vault that exists and holds the offered amount or 0. |
| MakeOfferSpec.ExistingOffersUntouched | lab6/escrow/programs/escrow/src/instructions/make_offer.rs:42-68 | A successful make leaves every offer record already stored, and the balance of its vault, as before. |
| MakeOfferSpec.DuplicateRejected | lab6/escrow/programs/escrow/src/instructions/make_offer.rs:103-108 | Once a make for (maker, id) has succeeded, a second make for the same maker, id and bump is not accepted, whatever its other accounts and amounts. |
| MakeOfferSpec.DistinctPairsDistinctOffers | lab6/escrow/programs/escrow/src/instructions/make_offer.rs:94-108 | Makes for different (maker, id) pairs use different offer addresses and different vaults. |
| TakeOfferSpec.SettlementAmounts | lab6/escrow/programs/escrow/src/instructions/take_offer.rs:19-78 | When taker ≠ maker and mint A ≠ mint B: the taker's mint B drops and the maker's mint B rises by exactly `token_b_wanted_amount`. The vault drops and the taker's mint A rises by exactly `token_a_amount`, counting from 0 if that account was just opened. Every other account is unchanged. |
| TakeOfferSpec.AppliedConservesSupply | lab6/escrow/programs/escrow/src/instructions/take_offer.rs:37-75 | A successful take leaves the total supply of every mint unchanged. |
| TakeOfferSpec.AppliedKeepsConsistent | lab6/escrow/programs/escrow/src/instructions/take_offer.rs:12-16 | After a take, every offer still sits at its derived address with its vault. The taken vault goes from the offered amount to 0, or stays at 0 for a zero offer. |
| TakeOfferSpec.OtherOffersUntouched | lab6/escrow/programs/escrow/src/instructions/take_offer.rs:19-78 | A successful take leaves every other offer record, and the balance of its vault, as before. |
| TakeOfferSpec.SecondTakeRejected | lab6/escrow/programs/escrow/src/instructions/take_offer.rs:131-138 | For an offer with `token_a_amount` > 0, the offer record is kept after a take, its vault holds 0, and a take of the same offer right after is refused. |
| TakeOfferSpec.ZeroOfferRetaken | lab6/escrow/programs/escrow/src/instructions/take_offer.rs:131-138 | For an offer of 0 tokens, after a successful take the same take is accepted again exactly when the taker still holds the wanted amount. |
| TakeOfferSpec.MismatchRejected | lab6/escrow/programs/escrow/src/instructions/take_offer.rs:131-137 | A take is refused when the supplied maker, mint A or mint B differs from the stored one, or when the offer address does not re-derive from the maker, the stored id and the stored bump. |
| TakeOfferSpec.VaultReleaseNeedsOfferSignature | lab6/escrow/programs/escrow/src/instructions/take_offer.rs:47-75 | Tokens leave a vault only on the authority of the vault's own offer address, and only when that address signed. For a derived address, signing means the program presented the offer's seeds. |
| Swap.MakeThenTake | lab6/escrow/programs/escrow/src/instructions/take_offer.rs:12-16 | Over a make followed by a take between two parties in two mints, `token_a_amount` leaves the maker and reaches the taker exactly once. `token_b_wanted_amount` goes the other way. The vault ends empty, and every mint's supply is unchanged. |
| Swap.EmptiedVaultStaysEmpty | lab6/escrow/programs/escrow/src/instructions/take_offer.rs:12-16 | Once the vault of a non-zero offer is empty, it stays empty through any run of successful makes and takes. The ledger stays consistent and the offer record is kept. |
| Swap.NoSecondTake | lab6/escrow/programs/escrow/src/instructions/take_offer.rs:12-16 | After a successful take of a non-zero offer, no later instruction in any run is a take of that offer, and a take of it at the end of the run is refused. At most one take ever succeeds. |
| Escrow.Chain.CheckMakeOfferAccounts | lab6/escrow/programs/escrow/src/instructions/make_offer.rs:72-114 | Account validation for `MakeOffer` succeeds exactly when: both mints exist; the source is the maker's existing account for mint A; the vault is the offer's own mint-A account and does not exist; and the offer is at the derived address and does not exist. |
| Escrow.Chain.SendOfferTokensToVault | lab6/escrow/programs/escrow/src/instructions/make_offer.rs:42-68 | It succeeds exactly when the maker holds `token_a_amount`, and then moves exactly that amount into the vault. Otherwise it fails with `InsufficientFunds` and changes nothing. |
| Escrow.Chain.MakeOffer | lab6/escrow/programs/escrow/src/instructions/make_offer.rs:13-38 | It succeeds exactly when `Accepted` holds with the canonical bump of the offer seeds. On success the ledger is as `Applied` describes: the stored fields are the inputs, the vault was created, and exact amounts moved. When the accounts validate but the maker is short, it fails with `InsufficientFunds`. On failure nothing changes, including the offer record and the vault. `Consistent` is kept. |
| Escrow.Chain.CheckTakeOfferAccounts | lab6/escrow/programs/escrow/src/instructions/take_offer.rs:82-143 | Account validation for `TakeOffer` succeeds exactly when the associated-account, `has_one` and seeds/bump constraints all hold. |
| Escrow.Chain.TransferTokensToMaker | lab6/escrow/programs/escrow/src/instructions/take_offer.rs:19-42 | It succeeds exactly when the taker holds `token_b_wanted_amount` of mint B, and then moves exactly that amount to the maker. Otherwise it fails with `InsufficientFunds` and changes nothing. |
| Escrow.Chain.WithdrawFromVault | lab6/escrow/programs/escrow/src/instructions/take_offer.rs:45-78 | Signing for the offer with its seeds, it succeeds exactly when the vault holds `token_a_amount`, and then moves exactly that amount to the taker. Otherwise it fails with `InsufficientFunds` and changes nothing. |
| Escrow.Chain.TakeOffer | lab6/escrow/programs/escrow/src/instructions/take_offer.rs:12-16 | It succeeds exactly when `Accepted` holds, and then the ledger is as `Applied` describes. Taker→maker is paid first, then vault→taker. When the accounts validate but the taker or the vault is short, it fails with `InsufficientFunds`. On failure of validation or of either leg, nothing changes. The offer is never changed or closed, and `id` is unused. `Consistent` is kept. |

## Left out

- SPL token program internals: decimals validation, frozen accounts, token-2022 extensions, and the `token` vs `token_2022` import difference. `transfer_checked` is an abstract debit/credit step.
- Token amounts in the ledger are unbounded: the token program's overflow check on the credited account is not modelled. Each mint's supply fits in a u64, so that check cannot fail here.
- SHA-256 hashing of seeds, and the curve test, are not modelled. A derived address is the symbolic pair (seeds, bump). The bump `find_program_address` settles on is a function given to `Escrow.Chain` when it is built.
- Pubkeys are symbolic addresses, not 32-byte strings. The `Offer` record's Borsh bytes are therefore not modelled; only its fixed field widths and space are.
- The `mint::token_program` constraints are not modelled: the model has a single token program. The payer's lamports, rent and the system program are not modelled either.
- Signers: a signer is typed as a keypair address (`Wallet`). The signature check itself is the host's.
- Error precedence: constraints are checked in declaration order. Anchor's exact order of validating `init` accounts, and its exact error codes, may differ. Every result is still an error that changes nothing.
- `Consistent` assumes that only these two instructions change the ledger. A deposit into a vault made directly through the token program is not modelled. `Swap.NoSecondTake` relies on this.
- lab6/escrow/programs/escrow/src/lib.rs only dispatches to the two handlers, and the two `Escrow.Chain` methods stand in for it. The favorites example in lab5 is not part of this model.
- Concurrency between competing takers is not modelled. Each instruction is one atomic step.
