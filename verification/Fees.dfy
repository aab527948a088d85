/** The size-based fee of the ante handler, and its deduction. */
module Fees {
  import opened Bytes
  import opened Options
  import opened Bank

  datatype Calculator = Calculator(baseRate: int, threshold: int64, multiplier: int)

  /** calculateRequiredFee, as an amount of the bond denomination. */
  function RequiredFee(c: Calculator, size: int64): int {
    if size <= c.threshold then c.baseRate * size
    else c.baseRate * c.threshold + c.baseRate * c.multiplier * (size - c.threshold)
  }

  predicate Sensible(c: Calculator) {
    c.baseRate >= 0 && c.threshold >= 0 && c.multiplier >= 1
  }

  /** The size as it is charged for: bytes above the threshold count `multiplier` times. */
  function Charged(c: Calculator, size: int): int {
    if size <= c.threshold then size else c.threshold + c.multiplier * (size - c.threshold)
  }

  lemma FeeIsCharged(c: Calculator, size: int64)
    ensures RequiredFee(c, size) == c.baseRate * Charged(c, size)
  {
    var r, t, m, d := c.baseRate, c.threshold, c.multiplier, size - c.threshold;
    Distribute(r, t, m, d);
  }

  lemma Distribute(r: int, t: int, m: int, d: int)
    ensures r * t + r * m * d == r * (t + m * d)
  {
    assert r * m * d == r * (m * d);
  }

  lemma Scale(r: int, a: int, b: int)
    requires r >= 0 && a <= b
    ensures r * a <= r * b
  {
  }

  lemma ChargedShape(c: Calculator, a: nat, b: nat)
    requires Sensible(c)
    ensures 0 <= Charged(c, a) <= Charged(c, a + b)
    ensures Charged(c, a) + Charged(c, b) <= Charged(c, a + b)
  {
    var t, m := c.threshold, c.multiplier;
    if a + b > t {
      Excess(m, a + b - t);
      if a > t {
        Excess(m, a - t);
        assert m * (a + b - t) == m * (a - t) + m * b;
        Excess(m, b);
        if b > t { Excess(m, b - t); assert m * b == m * (b - t) + m * t; Excess(m, t); }
      } else if b > t {
        Excess(m, b - t);
        assert m * (a + b - t) == m * (b - t) + m * a;
        Excess(m, a);
      }
    }
  }

  lemma Excess(m: int, x: nat)
    requires m >= 1
    ensures m * x >= x
  {
    assert m * x == x + (m - 1) * x;
    assert (m - 1) * x >= 0;
  }

  /** A larger transaction never costs less, and splitting one never costs more in total. */
  lemma FeeShape(c: Calculator, a: int64, b: int64)
    requires Sensible(c) && a >= 0 && b >= 0 && a + b <= MAX_INT64
    ensures 0 <= RequiredFee(c, a) <= RequiredFee(c, a + b)
    ensures RequiredFee(c, a) + RequiredFee(c, b) <= RequiredFee(c, a + b)
  {
    hide RequiredFee, Charged;
    FeeIsCharged(c, a);
    FeeIsCharged(c, b);
    FeeIsCharged(c, a + b);
    ChargedShape(c, a, b);
    var r, x, y, z := c.baseRate, Charged(c, a), Charged(c, b), Charged(c, a + b);
    Scale(r, 0, x);
    Scale(r, x, z);
    Scale(r, x + y, z);
    assert r * (x + y) == r * x + r * y;
  }

  // ---------- deduction ----------

  /** A fee transaction: what it carries, and whether a granter's allowance covers the fee. */
  datatype FeeTx = FeeTx(
    size: int64, gas: uint64, provided: nat, payer: Address, granter: Option<Address>, granted: bool)

  /** What a decorator is built over. */
  datatype Setup = Setup(
    calculator: Calculator, collector: Option<Address>, grantsEnabled: bool, accounts: set<Address>)

  datatype Refusal = NoCollector | GrantsDisabled | GrantRefused | UnknownAddress | InvalidFee | InsufficientFunds

  /** NegativeFee and DivisionByZero are panics. */
  datatype Reply =
    | Passed(priority: int64) | NoGas | NegativeFee | InsufficientFee | Refused(why: Refusal) | DivisionByZero

  /** Who pays. */
  function Source(tx: FeeTx): Address {
    if tx.granter.Some? then tx.granter.value else tx.payer
  }

  predicate GrantCovers(tx: FeeTx) {
    tx.granter.Some? ==> tx.granter.value == tx.payer || tx.granted
  }

  /** deductFees and DeductFees: None when the fee is taken, else why not. */
  function WhyRefused(s: Setup, b: Balances, tx: FeeTx, fee: int): Option<Refusal> {
    if s.collector.None? then Some(NoCollector)
    else if tx.granter.Some? && !s.grantsEnabled then Some(GrantsDisabled)
    else if !GrantCovers(tx) then Some(GrantRefused)
    else if Source(tx) !in s.accounts then Some(UnknownAddress)
    else if fee < 0 then Some(InvalidFee)
    else if BalanceOf(b, Source(tx)) < fee then Some(InsufficientFunds)
    else None
  }

  function Charge(s: Setup, b: Balances, tx: FeeTx, fee: int): Balances
    requires WhyRefused(s, b, tx, fee).None?
  {
    if fee == 0 then b else Moved(b, Source(tx), s.collector.value, fee)
  }

  /** getTxPriority for a fee of one denomination. */
  function Priority(fee: nat, gas: uint64): int64
    requires ToInt64(gas) != 0
  {
    var price := TruncDiv(fee, ToInt64(gas));
    if -TWO_63 <= price < TWO_63 then price else MAX_INT64
  }

  /** What AnteHandle comes to, up to the call of the next handler. */
  function Verdict(s: Setup, b: Balances, tx: FeeTx, simulate: bool, height: int64): Reply {
    var fee := RequiredFee(s.calculator, tx.size);
    if !simulate && height > 0 && tx.gas == 0 then NoGas
    else if fee < 0 then NegativeFee
    else if tx.provided < fee then InsufficientFee
    else if WhyRefused(s, b, tx, fee).Some? then Refused(WhyRefused(s, b, tx, fee).value)
    else if fee == 0 then Passed(0)
    else if tx.gas == 0 then DivisionByZero
    else Passed(Priority(fee, tx.gas))
  }

  class FeeDecorator {
    const setup: Setup
    var balances: Balances

    constructor (s: Setup, b: Balances)
      ensures setup == s && balances == b
    {
      setup, balances := s, b;
    }

    method Deduct(tx: FeeTx, fee: int) returns (refusal: Option<Refusal>)
      modifies this
      ensures refusal == WhyRefused(setup, old(balances), tx, fee)
      ensures balances == if refusal.None? then Charge(setup, old(balances), tx, fee) else old(balances)
    {
      if setup.collector.None? { return Some(NoCollector); }
      var from := tx.payer;
      if tx.granter.Some? {
        if !setup.grantsEnabled { return Some(GrantsDisabled); }
        if tx.granter.value != tx.payer && !tx.granted { return Some(GrantRefused); }
        from := tx.granter.value;
      }
      if from !in setup.accounts { return Some(UnknownAddress); }
      if fee != 0 {
        if fee < 0 { return Some(InvalidFee); }
        if BalanceOf(balances, from) < fee { return Some(InsufficientFunds); }
        balances := Moved(balances, from, setup.collector.value, fee);
      }
      refusal := None;
    }

    /** AnteHandle up to the call of the next handler. A panic comes after the fee has been taken. */
    method AnteHandle(tx: FeeTx, simulate: bool, height: int64) returns (reply: Reply)
      modifies this
      ensures reply == Verdict(setup, old(balances), tx, simulate, height)
      ensures if reply.Passed? || reply == DivisionByZero then
                var fee := RequiredFee(setup.calculator, tx.size);
                WhyRefused(setup, old(balances), tx, fee).None? && balances == Charge(setup, old(balances), tx, fee)
              else balances == old(balances)
    {
      if !simulate && height > 0 && tx.gas == 0 { return NoGas; }
      var fee := RequiredFee(setup.calculator, tx.size);
      if fee < 0 { return NegativeFee; }
      if tx.provided < fee { return InsufficientFee; }
      var refusal := Deduct(tx, fee);
      if refusal.Some? { return Refused(refusal.value); }
      var priority := 0;
      if fee != 0 {
        if ToInt64(tx.gas) == 0 { return DivisionByZero; }
        var price := TruncDiv(fee, ToInt64(tx.gas));
        priority := if -TWO_63 <= price < TWO_63 then price else MAX_INT64;
      }
      reply := Passed(priority);
    }
  }

  /** The fee is refused exactly when something is missing, in this order: a collector, the grants' being
      enabled, a covering grant, the account of the granter or else of the payer, a fee that is not negative,
      and the money. An empty balance is no obstacle to a zero fee. */
  lemma RefusalMeaning(s: Setup, b: Balances, tx: FeeTx, fee: int)
    ensures var r, from := WhyRefused(s, b, tx, fee), if tx.granter.Some? then tx.granter.value else tx.payer;
            var disabled := tx.granter.Some? && !s.grantsEnabled;
            var refused := tx.granter.Some? && tx.granter.value != tx.payer && !tx.granted;
            var unknown, poor := from !in s.accounts, fee > 0 && BalanceOf(b, from) < fee;
            && (r.Some? <==> s.collector.None? || disabled || refused || unknown || fee < 0 || poor)
            && (r == Some(NoCollector) <==> s.collector.None?)
            && (r == Some(GrantsDisabled) <==> s.collector.Some? && disabled)
            && (r == Some(GrantRefused) <==> s.collector.Some? && !disabled && refused)
            && (r == Some(UnknownAddress) <==> s.collector.Some? && !disabled && !refused && unknown)
            && (r == Some(InvalidFee) <==> s.collector.Some? && !disabled && !refused && !unknown && fee < 0)
            && (r == Some(InsufficientFunds) <==> s.collector.Some? && !disabled && !refused && !unknown && poor)
  {
  }

  /** Which transactions pass, and what becomes of each of the others. */
  lemma VerdictMeaning(s: Setup, b: Balances, tx: FeeTx, simulate: bool, height: int64)
    ensures var r, fee := Verdict(s, b, tx, simulate, height), RequiredFee(s.calculator, tx.size);
            var gasGiven := simulate || height <= 0 || tx.gas > 0;
            var payable := WhyRefused(s, b, tx, fee).None?;
            && (r == NoGas <==> !gasGiven)
            && (r == NegativeFee <==> gasGiven && fee < 0)
            && (r == InsufficientFee <==> gasGiven && 0 <= tx.provided < fee)
            && (r.Refused? <==> gasGiven && 0 <= fee <= tx.provided && !payable)
            && (r.Refused? ==> Some(r.why) == WhyRefused(s, b, tx, fee))
            && (r == DivisionByZero <==> gasGiven && 0 < fee <= tx.provided && payable && tx.gas == 0)
            && (r == DivisionByZero ==> simulate || height <= 0)
            && (r.Passed? <==> gasGiven && 0 <= fee <= tx.provided && payable && (fee == 0 || tx.gas > 0))
            && (r.Passed? ==> r.priority == if fee == 0 then 0 else Priority(fee, tx.gas))
  {
  }

  /** The priority is the gas price rounded down, capped at the largest int64. A gas limit of 2^63 or more is
      read as a negative number: such a transaction gets no positive priority, unless its price is so far
      below zero that it counts as out of range. */
  lemma PriorityMeaning(fee: nat, gas: uint64)
    requires gas > 0
    ensures gas < TWO_63 ==> Priority(fee, gas) == if fee / gas < TWO_63 then fee / gas else MAX_INT64
    ensures gas >= TWO_63 ==> (Priority(fee, gas) > 0 <==> fee / (TWO_64 - gas) > TWO_63)
  {
    hide TruncDiv;
    if gas < TWO_63 {
      Truncating(fee, gas);
      QuotientBelow(fee, gas);
    } else {
      TruncatingBelow(fee, TWO_64 - gas);
      QuotientBelow(fee, TWO_64 - gas);
    }
  }

  lemma TruncatingBelow(y: nat, t: nat)
    requires t > 0
    ensures TruncDiv(y, 0 - t) == -(y / t)
  {
  }

  /** A simulated transaction without gas does reach the division: its fee is taken first. */
  lemma SimulationCanDivideByZero(collector: Address, payer: Address)
    ensures var s := Setup(Calculator(1000, 1000, 2), Some(collector), true, {payer});
            var tx := FeeTx(1, 0, 1000, payer, None, false);
            Verdict(s, map[payer := 1000], tx, true, 1) == DivisionByZero
            && Verdict(s, map[payer := 1000], tx, false, 1) == NoGas
            && Verdict(s, map[payer := 1000], tx.(gas := 1), true, 1) == Passed(1000)
  {
    assert TruncDiv(1000, 1) == 1000;
  }

  /** What a passed transaction did: exactly the required fee went from the source to the collector. */
  lemma FeeMoves(s: Setup, b: Balances, tx: FeeTx, fee: int)
    requires WhyRefused(s, b, tx, fee).None?
    ensures var b', to := Charge(s, b, tx, fee), s.collector.value;
            && Total(b') == Total(b)
            && (Source(tx) != to ==> BalanceOf(b', Source(tx)) == BalanceOf(b, Source(tx)) - fee
                                     && BalanceOf(b', to) == BalanceOf(b, to) + fee)
            && (Source(tx) == to ==> BalanceOf(b', to) == BalanceOf(b, to))
            && forall a :: a != Source(tx) && a != to ==> BalanceOf(b', a) == BalanceOf(b, a)
  {
    MovedConserves(b, Source(tx), s.collector.value, fee);
  }

  /** Who pays, in the fields of the transaction. With a granter it is the granter: his balance falls by the fee,
      and the payer's stays. Without one it is the payer. The collector gets the fee. */
  lemma GranterPays(s: Setup, b: Balances, tx: FeeTx, fee: int, collector: Address)
    requires WhyRefused(s, b, tx, fee).None? && s.collector == Some(collector)
    ensures var b' := Charge(s, b, tx, fee);
            match tx.granter
            case Some(g) =>
              && (g != collector ==> BalanceOf(b', g) == BalanceOf(b, g) - fee
                                     && BalanceOf(b', collector) == BalanceOf(b, collector) + fee)
              && (tx.payer != g && tx.payer != collector ==> BalanceOf(b', tx.payer) == BalanceOf(b, tx.payer))
            case None =>
              tx.payer != collector ==>
                && BalanceOf(b', tx.payer) == BalanceOf(b, tx.payer) - fee
                && BalanceOf(b', collector) == BalanceOf(b, collector) + fee
  {
    FeeMoves(s, b, tx, fee);
  }

  /** The fee byte by byte: nothing for nothing, the base rate for each byte up to the threshold, and the
      multiple of it for each byte beyond. */
  lemma FeePerByte(c: Calculator, size: int64)
    requires c.threshold >= 0 && 0 <= size < MAX_INT64
    ensures RequiredFee(c, 0) == 0
    ensures RequiredFee(c, size + 1) - RequiredFee(c, size)
         == if size < c.threshold then c.baseRate else c.baseRate * c.multiplier
  {
    var r, t, m := c.baseRate, c.threshold, c.multiplier;
    if size < t {
      assert r * (size + 1) == r * size + r;
    } else {
      OneByteMore(r * m, size - t);
      assert r * m * 0 == 0;
    }
  }

  lemma OneByteMore(rate: int, n: int)
    ensures rate * (n + 1) == rate * n + rate
  {
  }

  /** The rates the chain is built with: 1000 a byte, and 2000 beyond a thousand bytes. */
  lemma ChainRates()
    ensures var c := Calculator(1000, 1000, 2);
            && RequiredFee(c, 1000) == 1_000_000 && RequiredFee(c, 1001) == 1_002_000
            && RequiredFee(c, 1500) == 2_000_000
  {
  }
}
