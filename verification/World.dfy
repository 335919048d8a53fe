/** Accounts, their balances in 256-bit words, and the sum of all balances. */
module Worlds {
  import opened Words

  type Address = nat

  const TWO_256 := 0x1_0000_0000_0000_0000_0000_0000_0000_0000_0000_0000_0000_0000_0000_0000_0000_0000

  /** Code is only told apart as far as EIP-7702 does: none, a delegation designator, or anything else. */
  datatype Code = NoCode | Delegation(target: Address) | Contract

  datatype Account = Account(balance: nat, nonce: nat, code: Code)

  const EMPTY_ACCOUNT := Account(0, 0, NoCode)

  type World = map<Address, Account>

  /** A missing account reads as empty. */
  function Get(w: World, a: Address): Account {
    if a in w then w[a] else EMPTY_ACCOUNT
  }

  function SetNonce(w: World, a: Address, n: nat): World {
    w[a := Get(w, a).(nonce := n)]
  }

  function SetCode(w: World, a: Address, code: Code): World {
    w[a := Get(w, a).(code := code)]
  }

  /** Wrapping 256-bit arithmetic, as the state database does it. */
  function AddBalance(w: World, a: Address, amount: nat): World {
    w[a := Get(w, a).(balance := (Get(w, a).balance + amount) % TWO_256)]
  }

  function SubBalance(w: World, a: Address, amount: nat): World {
    w[a := Get(w, a).(balance := (Get(w, a).balance - amount) % TWO_256)]
  }

  /** The sum of all balances. */
  ghost function Total(w: World): nat {
    if w == map[] then 0
    else
      var a :| a in w;
      w[a].balance + Total(w - {a})
  }

  lemma {:induction false} TotalWithout(w: World, a: Address)
    requires a in w
    ensures Total(w) == w[a].balance + Total(w - {a})
    decreases |w|
  {
    var b :| b in w && Total(w) == w[b].balance + Total(w - {b});
    if a != b {
      var x, y := w - {a}, w - {b};
      assert |x| == |w| - 1 && |y| == |w| - 1;
      TotalWithout(y, a);
      TotalWithout(x, b);
      assert y - {a} == x - {b};
    }
  }

  /** Changing one account changes the total by the change of its balance. */
  lemma TotalSet(w: World, a: Address, account: Account)
    ensures Total(w[a := account]) == Total(w) - Get(w, a).balance + account.balance
  {
    var w' := w[a := account];
    TotalWithout(w', a);
    assert w' - {a} == w - {a};
    if a in w {
      TotalWithout(w, a);
    } else {
      assert w - {a} == w;
    }
  }

  lemma BalanceBound(w: World, a: Address)
    ensures Get(w, a).balance <= Total(w)
  {
    if a in w {
      TotalWithout(w, a);
    }
  }

  /** A credit that keeps the total below 2^256 does not wrap. */
  lemma CreditIsExact(w: World, a: Address, amount: nat)
    requires Total(w) + amount < TWO_256
    ensures Get(AddBalance(w, a, amount), a).balance == Get(w, a).balance + amount
    ensures Total(AddBalance(w, a, amount)) == Total(w) + amount
    ensures forall b | b != a :: Get(AddBalance(w, a, amount), b) == Get(w, b)
  {
    BalanceBound(w, a);
    TotalSet(w, a, AddBalance(w, a, amount)[a]);
  }

  /** A covered debit does not wrap. */
  lemma DebitIsExact(w: World, a: Address, amount: nat)
    requires Total(w) < TWO_256 && amount <= Get(w, a).balance
    ensures Get(SubBalance(w, a, amount), a).balance == Get(w, a).balance - amount
    ensures Total(SubBalance(w, a, amount)) == Total(w) - amount
    ensures forall b | b != a :: Get(SubBalance(w, a, amount), b) == Get(w, b)
    ensures Get(SubBalance(w, a, amount), a) == Get(w, a).(balance := Get(w, a).balance - amount)
  {
    BalanceBound(w, a);
    TotalSet(w, a, SubBalance(w, a, amount)[a]);
  }

  /** Every nonce fits 64 bits. */
  ghost predicate NoncesFit(w: World) {
    forall a | a in w :: w[a].nonce < TWO_64
  }

  /** No account has a lower nonce afterwards. */
  ghost predicate NoncesGrow(w: World, w': World) {
    forall a :: Get(w, a).nonce <= Get(w', a).nonce
  }
}
