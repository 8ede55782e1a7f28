/**
  A whole exchange: `make_offer` followed by `take_offer` of the same offer,
  and what stays true over any sequence of later instructions.
 */
module Swap {
  import opened Types
  import opened OfferState
  import opened Token
  import opened LedgerState
  import MakeOfferSpec
  import TakeOfferSpec

  /**
    Conservation over a whole exchange between two different parties in two
    different mints: the offered amount leaves the maker and reaches the taker
    exactly once, the wanted amount goes the other way, the vault ends empty,
    and the supply of every mint is unchanged.
   */
  lemma MakeThenTake(l0: Ledger, l1: Ledger, l2: Ledger, make: MakeOfferSpec.MakeOfferAccounts, id: u64,
                     tokenAAmount: u64, tokenBWantedAmount: u64, bump: u8, take: TakeOfferSpec.TakeOfferAccounts)
    requires Consistent(l0)
    requires MakeOfferSpec.Accepted(l0, make, id, tokenAAmount, bump)
    requires MakeOfferSpec.Applied(l0, l1, make, id, tokenAAmount, tokenBWantedAmount, bump)
    requires take.offer == make.offer
    requires TakeOfferSpec.Accepted(l1, take) && TakeOfferSpec.Applied(l1, l2, take)
    requires take.taker != make.maker && make.tokenMintA != make.tokenMintB
    ensures Bal(l2.balances, make.makerTokenAccountA) == Bal(l0.balances, make.makerTokenAccountA) - tokenAAmount
    ensures Bal(l2.balances, take.takerTokenAccountA) == Bal(l0.balances, take.takerTokenAccountA) + tokenAAmount
    ensures Bal(l2.balances, make.vault) == 0
    ensures Bal(l2.balances, take.makerTokenAccountB) == Bal(l0.balances, take.makerTokenAccountB) + tokenBWantedAmount
    ensures Bal(l2.balances, take.takerTokenAccountB) == Bal(l0.balances, take.takerTokenAccountB) - tokenBWantedAmount
    ensures forall mint :: Supply(l2.balances, mint) == Supply(l0.balances, mint)
  {
    MakeOfferSpec.DepositAmounts(l0, l1, make, id, tokenAAmount, tokenBWantedAmount, bump);
    MakeOfferSpec.AppliedConservesSupply(l0, l1, make, id, tokenAAmount, tokenBWantedAmount, bump);
    MakeOfferSpec.AppliedKeepsConsistent(l0, l1, make, id, tokenAAmount, tokenBWantedAmount, bump);
    assert take.maker == make.maker && take.tokenMintA == make.tokenMintA && take.tokenMintB == make.tokenMintB;
    TakeOfferSpec.SettlementAmounts(l1, l2, take);
    TakeOfferSpec.AppliedConservesSupply(l1, l2, take);
    assert make.makerTokenAccountA !in {take.takerTokenAccountA, take.takerTokenAccountB, take.makerTokenAccountB, take.vault};
  }

  /** One successful instruction, with its arguments and the bump it is run with. */
  datatype Step =
    | MakeStep(make: MakeOfferSpec.MakeOfferAccounts, id: u64, tokenAAmount: u64, tokenBWantedAmount: u64, bump: u8)
    | TakeStep(take: TakeOfferSpec.TakeOfferAccounts)

  /** `s` succeeds on `l` and leaves `l'`. */
  ghost predicate Succeeds(l: Ledger, s: Step, l': Ledger)
  {
    match s
    case MakeStep(make, id, a, b, bump) =>
      MakeOfferSpec.Accepted(l, make, id, a, bump) && MakeOfferSpec.Applied(l, l', make, id, a, b, bump)
    case TakeStep(take) =>
      TakeOfferSpec.Accepted(l, take) && TakeOfferSpec.Applied(l, l', take)
  }

  /**
    The ledgers `ls` are those a run of `steps` passes through. A failed
    instruction leaves the ledger as it was, so only successful ones appear.
   */
  ghost predicate Run(ls: seq<Ledger>, steps: seq<Step>)
  {
    && |ls| == |steps| + 1
    && forall i :: 0 <= i < |steps| ==> Succeeds(ls[i], steps[i], ls[i + 1])
  }

  /**
    An emptied vault of a non-zero offer stays empty: along any run, the
    ledger stays consistent and the offer record and its empty vault are kept.
   */
  lemma {:induction false} EmptiedVaultStaysEmpty(ls: seq<Ledger>, steps: seq<Step>, p: Address, k: nat)
    requires Run(ls, steps) && Consistent(ls[0])
    requires p in ls[0].offers && ls[0].offers[p].tokenAAmount > 0
    requires Bal(ls[0].balances, Vault(p, ls[0].offers[p].tokenMintA)) == 0
    requires k < |ls|
    ensures Consistent(ls[k])
    ensures p in ls[k].offers && ls[k].offers[p] == ls[0].offers[p]
    ensures Bal(ls[k].balances, Vault(p, ls[0].offers[p].tokenMintA)) == 0
  {
    if k > 0 {
      EmptiedVaultStaysEmpty(ls, steps, p, k - 1);
      var l, l' := ls[k - 1], ls[k];
      assert Succeeds(l, steps[k - 1], l');
      match steps[k - 1]
      case MakeStep(make, id, a, b, bump) =>
        MakeOfferSpec.AppliedKeepsConsistent(l, l', make, id, a, b, bump);
        MakeOfferSpec.ExistingOffersUntouched(l, l', make, id, a, b, bump, p);
      case TakeStep(take) =>
        TakeOfferSpec.AppliedKeepsConsistent(l, l', take);
        if take.offer != p {
          TakeOfferSpec.OtherOffersUntouched(l, l', take, p);
        } else {
          assert false;
        }
    }
  }

  /**
    At most one take of a non-zero offer ever succeeds: after a successful
    take, no later instruction in any run is a take of the same offer, and at
    the end of the run a take of it is still refused.
   */
  lemma NoSecondTake(l0: Ledger, first: TakeOfferSpec.TakeOfferAccounts,
                     ls: seq<Ledger>, steps: seq<Step>, again: TakeOfferSpec.TakeOfferAccounts)
    requires Consistent(l0)
    requires TakeOfferSpec.Accepted(l0, first) && |ls| > 0 && TakeOfferSpec.Applied(l0, ls[0], first)
    requires l0.offers[first.offer].tokenAAmount > 0
    requires Run(ls, steps)
    requires again.offer == first.offer
    ensures forall i :: 0 <= i < |steps| ==> !(steps[i].TakeStep? && steps[i].take.offer == first.offer)
    ensures !TakeOfferSpec.Accepted(ls[|steps|], again)
  {
    var p := first.offer;
    TakeOfferSpec.AppliedKeepsConsistent(l0, ls[0], first);
    TakeOfferSpec.SecondTakeRejected(l0, ls[0], first, again);
    forall i | 0 <= i < |steps|
      ensures !(steps[i].TakeStep? && steps[i].take.offer == p)
    {
      EmptiedVaultStaysEmpty(ls, steps, p, i);
      assert Succeeds(ls[i], steps[i], ls[i + 1]);
    }
    EmptiedVaultStaysEmpty(ls, steps, p, |steps|);
  }
}
