/** Balances of one denomination, and moving tokens between accounts. */
module Bank {
  import opened Bytes

  type Address = Bytes
  type Balances = map<Address, nat>

  function BalanceOf(b: Balances, a: Address): nat {
    if a in b then b[a] else 0
  }

  /** The balances after moving `amount`, which the sender must have. */
  function Moved(b: Balances, from: Address, to: Address, amount: nat): Balances
    requires amount <= BalanceOf(b, from)
  {
    var less := b[from := BalanceOf(b, from) - amount];
    less[to := BalanceOf(less, to) + amount]
  }

  ghost function Total(b: Balances): nat {
    if b == map[] then 0
    else
      var a :| a in b;
      b[a] + Total(b - {a})
  }

  lemma {:induction false} TotalWithout(b: Balances, a: Address)
    requires a in b
    ensures Total(b) == b[a] + Total(b - {a})
    decreases |b|
  {
    var x :| x in b && Total(b) == b[x] + Total(b - {x});
    if x != a {
      TotalWithout(b - {x}, a);
      TotalWithout(b - {a}, x);
      assert b - {x} - {a} == b - {a} - {x};
    }
  }

  lemma TotalUpdated(b: Balances, a: Address, n: nat)
    ensures Total(b[a := n]) == Total(b) - BalanceOf(b, a) + n
  {
    TotalWithout(b[a := n], a);
    assert b[a := n] - {a} == b - {a};
    if a in b {
      TotalWithout(b, a);
    } else {
      assert b - {a} == b;
    }
  }

  /** Moving tokens conserves the total and touches the two accounts only. */
  lemma MovedConserves(b: Balances, from: Address, to: Address, amount: nat)
    requires amount <= BalanceOf(b, from)
    ensures var b' := Moved(b, from, to, amount);
            && Total(b') == Total(b)
            && (from != to ==>
                  && BalanceOf(b', from) == BalanceOf(b, from) - amount
                  && BalanceOf(b', to) == BalanceOf(b, to) + amount)
            && (from == to ==> BalanceOf(b', to) == BalanceOf(b, to))
            && forall a :: a != from && a != to ==> BalanceOf(b', a) == BalanceOf(b, a)
  {
    var less := b[from := BalanceOf(b, from) - amount];
    TotalUpdated(b, from, BalanceOf(b, from) - amount);
    TotalUpdated(less, to, BalanceOf(less, to) + amount);
  }
}
