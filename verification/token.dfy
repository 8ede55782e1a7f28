/**
  The token ledger as the escrow program sees it, and `transfer_checked` as one
  abstract ledger step: it either fails and changes nothing, or debits the
  source and credits the destination by exactly the amount.
 */
module Token {
  import opened Types

  /** The balance of every existing token account. */
  type Balances = map<TokenAccount, nat>

  /** The balance of an account, 0 for an account that does not exist. */
  function Bal(b: Balances, x: TokenAccount): nat
  {
    if x in b then b[x] else 0
  }

  /** What account `a` contributes to the supply of `mint`. */
  function Share(b: Balances, a: TokenAccount, mint: Address): nat
    requires a in b
  {
    if a.mint == mint then b[a] else 0
  }

  /** The total of all balances held in `mint`. */
  ghost function Supply(b: Balances, mint: Address): nat
    decreases |b.Keys|
  {
    if b.Keys == {} then 0
    else
      var a :| a in b;
      assert (b - {a}).Keys == b.Keys - {a};
      Share(b, a, mint) + Supply(b - {a}, mint)
  }

  /** The supply can be split at any account, not only at the one `Supply` picks. */
  lemma {:induction false} SupplySplit(b: Balances, a: TokenAccount, mint: Address)
    requires a in b
    ensures Supply(b, mint) == Share(b, a, mint) + Supply(b - {a}, mint)
    decreases |b.Keys|
  {
    var c :| c in b && Supply(b, mint) == Share(b, c, mint) + Supply(b - {c}, mint);
    if c != a {
      var withoutC, withoutA := b - {c}, b - {a};
      assert withoutC.Keys == b.Keys - {c};
      assert withoutA.Keys == b.Keys - {a};
      SupplySplit(withoutC, a, mint);
      SupplySplit(withoutA, c, mint);
      assert withoutC - {a} == withoutA - {c};
      assert Share(withoutC, a, mint) == Share(b, a, mint);
      assert Share(withoutA, c, mint) == Share(b, c, mint);
    }
  }

  /** Setting one balance changes the supply of that account's mint by the difference, and no other. */
  lemma SupplyUpdate(b: Balances, a: TokenAccount, v: nat, mint: Address)
    requires a in b
    ensures Supply(b[a := v], mint) + Share(b, a, mint) == Supply(b, mint) + (if a.mint == mint then v else 0)
  {
    SupplySplit(b[a := v], a, mint);
    SupplySplit(b, a, mint);
    assert b[a := v] - {a} == b - {a};
  }

  /** Opening an account with balance 0 changes no supply. */
  lemma SupplyOpen(b: Balances, a: TokenAccount, mint: Address)
    requires a !in b
    ensures Supply(b[a := 0], mint) == Supply(b, mint)
  {
    SupplySplit(b[a := 0], a, mint);
    assert b[a := 0] - {a} == b;
  }

  /** `b[a := 0]` when `a` does not exist yet, `b` otherwise: `init_if_needed` on a token account. */
  function OpenIfNeeded(b: Balances, a: TokenAccount): (b': Balances)
    ensures b'.Keys == b.Keys + {a}
    ensures forall x :: Bal(b', x) == Bal(b, x)
    ensures forall mint :: Supply(b', mint) == Supply(b, mint)
  {
    if a in b then b
    else
      assert forall mint :: Supply(b[a := 0], mint) == Supply(b, mint) by {
        forall mint ensures Supply(b[a := 0], mint) == Supply(b, mint) {
          SupplyOpen(b, a, mint);
        }
      }
      b[a := 0]
  }

  /**
    `b'` is `b` with `amount` debited from `from` and credited to `to`; every
    other account keeps its balance. When `from == to` nothing changes.
   */
  ghost predicate Moved(b: Balances, b': Balances, from: TokenAccount, to: TokenAccount, amount: nat)
  {
    && b'.Keys == b.Keys
    && forall x :: Bal(b', x) + (if x == from then amount else 0) == Bal(b, x) + (if x == to then amount else 0)
  }

  /** The debit followed by the credit, as the token program applies them. */
  function Move(b: Balances, from: TokenAccount, to: TokenAccount, amount: nat): Balances
    requires from in b && to in b && b[from] >= amount
  {
    var debited := b[from := b[from] - amount];
    debited[to := debited[to] + amount]
  }

  /** A move is the only ledger that is `Moved` from `b`. */
  lemma MovedIsMove(b: Balances, b': Balances, from: TokenAccount, to: TokenAccount, amount: nat)
    requires from in b && to in b && b[from] >= amount
    ensures Moved(b, b', from, to, amount) <==> b' == Move(b, from, to, amount)
  {
    var m := Move(b, from, to, amount);
    assert Moved(b, m, from, to, amount) by {
      forall x ensures Bal(m, x) + (if x == from then amount else 0) == Bal(b, x) + (if x == to then amount else 0) {
      }
    }
    if Moved(b, b', from, to, amount) {
      forall x | x in b'
        ensures b'[x] == m[x]
      {
        assert Bal(b', x) + (if x == from then amount else 0) == Bal(b, x) + (if x == to then amount else 0);
      }
      assert b'.Keys == m.Keys;
    }
  }

  /** A move within one mint keeps the supply of every mint. */
  lemma MoveConservesSupply(b: Balances, from: TokenAccount, to: TokenAccount, amount: nat, mint: Address)
    requires from in b && to in b && b[from] >= amount
    requires from.mint == to.mint
    ensures Supply(Move(b, from, to, amount), mint) == Supply(b, mint)
  {
    var debited := b[from := b[from] - amount];
    SupplyUpdate(b, from, b[from] - amount, mint);
    SupplyUpdate(debited, to, debited[to] + amount, mint);
  }

  /** Any ledger `Moved` within one mint has the same supply of every mint. */
  lemma MovedConservesSupply(b: Balances, b': Balances, from: TokenAccount, to: TokenAccount, amount: nat)
    requires from in b && to in b && b[from] >= amount
    requires from.mint == to.mint
    requires Moved(b, b', from, to, amount)
    ensures forall mint :: Supply(b', mint) == Supply(b, mint)
  {
    MovedIsMove(b, b', from, to, amount);
    forall mint ensures Supply(b', mint) == Supply(b, mint) {
      MoveConservesSupply(b, from, to, amount, mint);
    }
  }

  /**
    `transfer_checked` of the token program: moves `amount` of `mint` from
    `from` to `to` on the authority of `authority`, which must own `from` and
    be among the `signers` of the call (a derived address signs when the
    program presents its seeds). The decimals argument is always the mint's
    own in the escrow program, so its check is not modelled.
   */
  function TransferChecked(b: Balances, from: TokenAccount, to: TokenAccount, mint: Address,
                           authority: Address, signers: set<Address>, amount: nat): (r: Result<Balances>)
    ensures r.Success? <==>
      && from in b && to in b
      && b[from] >= amount
      && from.mint == mint && to.mint == mint
      && from.authority == authority && authority in signers
    ensures r.Failure? && from in b && to in b && b[from] < amount ==> r.error == InsufficientFunds
    ensures r.Success? ==> Moved(b, r.value, from, to, amount)
    ensures r.Success? ==> forall m :: Supply(r.value, m) == Supply(b, m)
  {
    if from !in b || to !in b then Failure(UninitializedState)
    else if b[from] < amount then Failure(InsufficientFunds)
    else if from.mint != mint || to.mint != mint then Failure(MintMismatch)
    else if from.authority != authority then Failure(OwnerMismatch)
    else if authority !in signers then Failure(MissingRequiredSignature)
    else
      var b' := Move(b, from, to, amount);
      MovedIsMove(b, b', from, to, amount);
      MovedConservesSupply(b, b', from, to, amount);
      Success(b')
  }
}
