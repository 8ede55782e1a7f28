/**
  The `Offer` record (lab6/escrow/programs/escrow/src/state/offer.rs), its
  storage size, and the address it is stored at.
 */
module OfferState {
  import opened Types

  /** One pending exchange: exactly these seven fields are stored. */
  datatype Offer = Offer(
    id: u64,
    maker: Address,
    tokenAAmount: u64,
    tokenMintA: Address,
    tokenBWantedAmount: u64,
    tokenMintB: Address,
    bump: u8)

  /** Bytes taken by the account discriminator in front of the record. */
  const DISCRIMINATOR_LEN: nat := 8

  /** Bytes Borsh gives a Rust `u64`, a `Pubkey` and a `u8`. */
  const U64_WIDTH: nat := 8
  const PUBKEY_WIDTH: nat := 32
  const U8_WIDTH: nat := 1

  /** Width in bytes of each `Offer` field, in declaration order, from the field's type. */
  const OFFER_FIELD_WIDTHS: seq<nat> :=
    [U64_WIDTH, PUBKEY_WIDTH, U64_WIDTH, PUBKEY_WIDTH, U64_WIDTH, PUBKEY_WIDTH, U8_WIDTH]

  function Sum(ws: seq<nat>): nat
  {
    if ws == [] then 0 else ws[0] + Sum(ws[1..])
  }

  /** The space the record needs (`Offer::INIT_SPACE`). */
  const INIT_SPACE: nat := Sum(OFFER_FIELD_WIDTHS)

  /** The space allocated for an offer account: `8 + Offer::INIT_SPACE`. */
  const OFFER_ACCOUNT_SPACE: nat := DISCRIMINATOR_LEN + INIT_SPACE

  /**
    The integer widths match the field types: a `u64` or `u8` field is
    exactly as wide as the values of its type need, so every value of the
    type is stored in that many bytes and read back unchanged.
   */
  lemma FieldWidthsFitTypes()
    ensures Pow256(U64_WIDTH) == 0x1_0000_0000_0000_0000
    ensures Pow256(U8_WIDTH) == 0x100
    ensures forall n: u64 :: FromLe(LeBytes(n, U64_WIDTH)) == n
    ensures forall n: u8 :: FromLe(LeBytes(n, U8_WIDTH)) == n
  {
    assert Pow256(U64_WIDTH) == 0x1_0000_0000_0000_0000;
    assert Pow256(U8_WIDTH) == 0x100;
    forall n: u64 ensures FromLe(LeBytes(n, U64_WIDTH)) == n {
      LeRoundTrip(n, U64_WIDTH);
    }
    forall n: u8 ensures FromLe(LeBytes(n, U8_WIDTH)) == n {
      LeRoundTrip(n, U8_WIDTH);
    }
  }

  /** One width per field, and the record and account sizes the program allocates. */
  lemma OfferSpace()
    ensures |OFFER_FIELD_WIDTHS| == 7
    ensures INIT_SPACE == 121
    ensures OFFER_ACCOUNT_SPACE == 129
  {
    var ws := OFFER_FIELD_WIDTHS;
    forall k | 0 <= k < |ws|
      ensures Sum(ws[k..]) == ws[k] + Sum(ws[k + 1..])
    {
      assert ws[k..][1..] == ws[k + 1..];
    }
    assert Sum(ws[7..]) == 0;
    assert Sum(ws[6..]) == 1;
    assert Sum(ws[5..]) == 33;
    assert Sum(ws[4..]) == 41;
    assert Sum(ws[3..]) == 73;
    assert Sum(ws[2..]) == 81;
    assert Sum(ws[1..]) == 113;
    assert ws[0..] == ws;
  }

  /** `b"offer"`, the first seed of every offer address. */
  const OFFER_SEED: seq<u8> := [0x6f, 0x66, 0x66, 0x65, 0x72]

  function Pow256(k: nat): (p: nat)
    ensures p > 0
  {
    if k == 0 then 1 else 256 * Pow256(k - 1)
  }

  /** `n.to_le_bytes()` for an integer of `width` bytes: least significant byte first. */
  function LeBytes(n: nat, width: nat): (bs: seq<u8>)
    ensures |bs| == width
  {
    if width == 0 then [] else [n % 256] + LeBytes(n / 256, width - 1)
  }

  /** The integer a little-endian byte string stands for. */
  function FromLe(bs: seq<u8>): nat
  {
    if bs == [] then 0 else bs[0] + 256 * FromLe(bs[1..])
  }

  /** Reading back the little-endian bytes of a number that fits gives the number. */
  lemma {:induction false} LeRoundTrip(n: nat, width: nat)
    requires n < Pow256(width)
    ensures FromLe(LeBytes(n, width)) == n
  {
    if width > 0 {
      assert n / 256 < Pow256(width - 1);
      LeRoundTrip(n / 256, width - 1);
      assert LeBytes(n, width)[1..] == LeBytes(n / 256, width - 1);
    }
  }

  /** `id.to_le_bytes()` for a u64 id: eight bytes that determine the id. */
  lemma U64LeBytes(id: u64)
    ensures |LeBytes(id, U64_WIDTH)| == 8
    ensures FromLe(LeBytes(id, U64_WIDTH)) == id
  {
    FieldWidthsFitTypes();
  }

  /** The seeds `[b"offer", maker.key(), id.to_le_bytes()]`. */
  function OfferSeeds(maker: Address, id: u64): seq<Seed>
  {
    [Bytes(OFFER_SEED), KeyOf(maker), Bytes(LeBytes(id, U64_WIDTH))]
  }

  /** The address derived from the offer seeds and a bump. */
  function OfferAddress(maker: Address, id: u64, bump: u8): Address
  {
    Program(OfferSeeds(maker, id), bump)
  }

  /**
    Offer addresses do not collide: two are equal exactly when maker, id and
    bump are, so each (maker, id) pair has its own record.
   */
  lemma {:induction false} OfferAddressInjective(maker1: Address, id1: u64, bump1: u8, maker2: Address, id2: u64, bump2: u8)
    ensures OfferAddress(maker1, id1, bump1) == OfferAddress(maker2, id2, bump2)
        <==> maker1 == maker2 && id1 == id2 && bump1 == bump2
  {
    if OfferAddress(maker1, id1, bump1) == OfferAddress(maker2, id2, bump2) {
      assert OfferSeeds(maker1, id1)[2] == OfferSeeds(maker2, id2)[2];
      U64LeBytes(id1);
      U64LeBytes(id2);
    }
  }
}
