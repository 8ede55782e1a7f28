/**
  Values shared by the escrow model: fixed-width integers, addresses, token
  accounts and the errors an instruction can end with.
 */
module Types {

  /** Rust's `u8`. */
  type u8 = n: nat | n < 0x100

  /** Rust's `u64`. */
  type u64 = n: nat | n < 0x1_0000_0000_0000_0000

  /**
    An address on the ledger. A `Key` is an address with a keypair behind it
    (a wallet or a mint); a `Program` address is one the escrow program derives
    from seeds and a bump. Hashing the seeds to 32 bytes is not modelled: two
    derived addresses are equal exactly when their seeds and bumps are, and no
    derived address is a keypair address.
   */
  datatype Address =
    | Key(n: nat)
    | Program(seeds: seq<Seed>, bump: u8)

  /** One seed of a derived address: raw bytes, or the 32 bytes of a key. */
  datatype Seed =
    | Bytes(bytes: seq<u8>)
    | KeyOf(key: Address)

  /** A transaction signer: only an address with a keypair can sign a transaction. */
  type Wallet = a: Address | a.Key? witness Key(0)

  /**
    A token account, identified as its associated-token address is, by the
    authority that owns it and the mint of its tokens.
   */
  datatype TokenAccount = TokenAccount(authority: Address, mint: Address)

  /** The vault of an offer: the associated token account of the offer's own address. */
  function Vault(offer: Address, mint: Address): TokenAccount
  {
    TokenAccount(offer, mint)
  }

  /** Errors raised by account validation and by the token program. */
  datatype Error =
    | AccountNotInitialized     // an account the instruction reads does not exist
    | AccountAlreadyInUse       // `init` on an address that already holds an account
    | ConstraintAssociated      // a token account is not the associated account of its authority and mint
    | ConstraintSeeds           // the offer address is not the one derived from its seeds
    | ConstraintHasOne          // a field stored in the offer differs from the account supplied
    | UninitializedState        // token program: a transfer account does not exist
    | InsufficientFunds         // token program: the source holds less than the amount
    | MintMismatch              // token program: an account's mint is not the mint given
    | OwnerMismatch             // token program: the authority does not own the source
    | MissingRequiredSignature  // token program: the authority did not sign

  /** The `Result<()>` an instruction returns. */
  datatype Outcome = Ok | Err(error: Error)

  /** A value or an error. */
  datatype Result<T> = Success(value: T) | Failure(error: Error)
}
