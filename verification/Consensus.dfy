/** The two-thirds test of types/state.go, in int32 arithmetic. */
module Consensus {
  import opened Bytes
  import opened Wire

  const THRESHOLD := 66

  /** The product wraps at 32 bits, as Go's does; the quotient truncates toward zero. */
  predicate HasConsensus(c: Info) {
    c.totalValidators != 0 &&
    ToInt32(TruncDiv(ToInt32(c.votedYes * 100), c.totalValidators)) >= THRESHOLD
  }

  /** What the threshold is meant to say: at least 66% of the validators voted yes. */
  predicate Enough(yes: int, total: int) {
    100 * yes >= 66 * total
  }

  /** While 100 * yes fits an int32 the test is exact: truncation never turns the answer. */
  lemma ExactWithinRange(c: Info)
    requires 0 <= c.votedYes <= c.totalValidators && c.totalValidators > 0
    requires 100 * c.votedYes <= MAX_INT32
    ensures HasConsensus(c) <==> Enough(c.votedYes, c.totalValidators)
  {
    hide ToInt32, TruncDiv;
    FitsInt32(c.votedYes * 100);
    Percentage(c.votedYes * 100, c.totalValidators);
    QuotientAtLeast(c.votedYes * 100, c.totalValidators, THRESHOLD);
  }

  lemma FitsInt32(x: int)
    requires -0x8000_0000 <= x <= MAX_INT32
    ensures ToInt32(x) == x
  {
  }

  lemma Percentage(y: nat, t: nat)
    requires t > 0 && y <= MAX_INT32
    ensures ToInt32(TruncDiv(y, t)) == y / t
  {
    hide ToInt32;
    QuotientBelow(y, t);
    FitsInt32(y / t);
  }

  /** Beyond that range the wrapped product always hides a majority. */
  lemma WrapHidesMajority(c: Info)
    requires 0 <= c.votedYes <= c.totalValidators && 100 * c.votedYes > MAX_INT32
    ensures !HasConsensus(c)
  {
    hide ToInt32, TruncDiv;
    var yes: int, total: int := c.votedYes, c.totalValidators;
    var w, n := ToInt32(yes * 100), WrapCount(yes * 100);
    Wraps(yes * 100);
    // w >= 66 * yes would leave n * 2^32 <= 34 * yes, which makes w too large for an int32
    assert w < THRESHOLD * yes <= THRESHOLD * total;
    if w >= 0 {
      Percentage(w, total);
      QuotientAtLeast(w, total, THRESHOLD);
    } else {
      NegativeQuotient(w, total);
    }
  }

  /** A tally passes exactly when at least 66% voted yes and 100 times their number fits an int32. */
  lemma TallyPasses(c: Info)
    requires 0 <= c.votedYes <= c.totalValidators && c.totalValidators > 0
    ensures HasConsensus(c) <==> 100 * c.votedYes >= 66 * c.totalValidators && 100 * c.votedYes <= 0x7FFF_FFFF
  {
    hide HasConsensus;
    if 100 * c.votedYes <= MAX_INT32 {
      ExactWithinRange(c);
    } else {
      WrapHidesMajority(c);
    }
  }

  function WrapCount(x: nat): nat {
    x / TWO_32 + (if x % TWO_32 < 0x8000_0000 then 0 else 1)
  }

  lemma Wraps(x: nat)
    requires x > MAX_INT32
    ensures x == ToInt32(x) + WrapCount(x) * TWO_32 && WrapCount(x) >= 1
  {
  }

  lemma NegativeQuotient(w: int, t: int)
    requires -0x8000_0000 <= w < 0 < t
    ensures ToInt32(TruncDiv(w, t)) <= 0
  {
    hide ToInt32;
    QuotientBelow(-w, t);
    FitsInt32(-(-w / t));
  }

  /** The test is right for every number of validators exactly when 100 * yes fits an int32. */
  lemma ExactIffNoWrap(yes: int32)
    requires yes >= 0
    ensures (forall total: int32 | 0 < total && yes <= total ::
               HasConsensus(Info(total, yes, 0)) <==> Enough(yes, total))
       <==> 100 * yes <= MAX_INT32
  {
    if 100 * yes <= MAX_INT32 {
      forall total: int32 | 0 < total && yes <= total
        ensures HasConsensus(Info(total, yes, 0)) <==> Enough(yes, total)
      {
        ExactWithinRange(Info(total, yes, 0));
      }
    } else {
      WrapHidesMajority(Info(yes, yes, 0));
    }
  }

  /** The test in full, for every tally that can be stored: `w` is the product as an int32. Negative numbers of
      validators turn the comparison round, and one quotient does not fit an int32. */
  lemma TestMeaning(c: Info)
    ensures var w, total := ToInt32(c.votedYes * 100), c.totalValidators;
            HasConsensus(c) <==>
              || (total > 0 && w >= 66 * total)
              || (total < 0 && w <= 66 * total && !(total == -1 && w == -0x8000_0000))
  {
    hide ToInt32, TruncDiv;
    var w, total := ToInt32(c.votedYes * 100), c.totalValidators;
    if total > 0 && w >= 0 {
      Percentage(w, total);
      QuotientAtLeast(w, total, THRESHOLD);
    } else if total > 0 {
      NegativeQuotient(w, total);
    } else if total < 0 {
      NegativeTotal(w, total);
    }
  }

  lemma NegativeTotal(w: int32, total: int32)
    requires total < 0
    ensures ToInt32(TruncDiv(w, total)) >= THRESHOLD <==> w <= THRESHOLD * total && !(total == -1 && w == -0x8000_0000)
  {
    BothSigns(w, total);
    hide TruncDiv;
    if w >= 0 {
      QuotientBelow(w, 0 - total);
      FitsInt32(0 - w / (0 - total));
    } else {
      NegativeBoth(0 - w, 0 - total);
    }
  }

  /** Two negative numbers, given by their sizes. */
  lemma NegativeBoth(y: nat, t: nat)
    requires 0 < y <= 0x8000_0000 && 0 < t
    ensures ToInt32(y / t) >= THRESHOLD <==> y >= THRESHOLD * t && !(t == 1 && y == 0x8000_0000)
  {
    QuotientBelow(y, t);
    QuotientAtLeast(y, t, THRESHOLD);
    QuotientAtLeast(y, t, 0x8000_0000);
    var q := y / t;
    assert t >= 2 ==> q < 0x8000_0000;
    assert t == 1 ==> q == y;
    Int32Range(q);
  }

  lemma Int32Range(q: nat)
    requires q <= 0x8000_0000
    ensures ToInt32(q) == if q == 0x8000_0000 then -0x8000_0000 else q
  {
  }

  lemma BothSigns(w: int, t: int)
    requires t < 0
    ensures TruncDiv(w, t) == if w < 0 then (0 - w) / (0 - t) else 0 - w / (0 - t)
  {
    if w == 0 {
      QuotientBelow(0, 0 - t);
    }
  }

  /** For tallies that are not negative the test never passes wrongly: wrap-around only lowers the product, so
      that it can hide a majority and never feign one. */
  lemma PassingIsEnough(c: Info)
    requires c.votedYes >= 0 && c.totalValidators > 0 && HasConsensus(c)
    ensures Enough(c.votedYes, c.totalValidators)
  {
    hide ToInt32, TruncDiv;
    var w := ToInt32(c.votedYes * 100);
    WrapLowers(c.votedYes * 100);
    if w < 0 {
      NegativeQuotient(w, c.totalValidators);
    } else {
      Percentage(w, c.totalValidators);
      QuotientAtLeast(w, c.totalValidators, THRESHOLD);
    }
  }

  /** For negative ones it can: -1 yes of -1 validators pass, and so does a negative number of votes. */
  lemma NegativeTalliesPass()
    ensures HasConsensus(Info(-1, -1, 0)) && !Enough(-1, -1)
    ensures HasConsensus(Info(1, -42_949_672, 0)) && !Enough(-42_949_672, 1)
  {
    TestMeaning(Info(-1, -1, 0));
    TestMeaning(Info(1, -42_949_672, 0));
  }

  lemma WrapLowers(x: nat)
    ensures ToInt32(x) <= x
  {
  }

  /** Two yes-sets that both pass share at least 32% of the validators, whatever their sizes. */
  lemma QuorumsIntersect<V>(validators: set<V>, a: set<V>, b: set<V>)
    requires a <= validators && b <= validators && 0 < |validators| <= MAX_INT32
    ensures |a| <= MAX_INT32 && |b| <= MAX_INT32
    ensures HasConsensus(Info(|validators|, |a|, 0)) && HasConsensus(Info(|validators|, |b|, 0)) ==>
              100 * |a * b| >= 32 * |validators|
  {
    SubsetSize(a, validators);
    SubsetSize(b, validators);
    if HasConsensus(Info(|validators|, |a|, 0)) && HasConsensus(Info(|validators|, |b|, 0)) {
      PassingIsEnough(Info(|validators|, |a|, 0));
      PassingIsEnough(Info(|validators|, |b|, 0));
      assert |a + b| == |a| + |b| - |a * b|;
      SubsetSize(a + b, validators);
    }
  }

  lemma {:induction false} SubsetSize<T>(a: set<T>, b: set<T>)
    requires a <= b
    ensures |a| <= |b|
    decreases a
  {
    if a != {} {
      var x :| x in a;
      SubsetSize(a - {x}, b - {x});
    }
  }

  /** The record a block begins with never reaches consensus: nothing has voted yet. */
  lemma NoVotesNoConsensus(total: int32, height: int64)
    ensures !HasConsensus(Info(total, 0, height))
  {
    hide ToInt32;
    FitsInt32(0);
    if total != 0 {
      ZeroQuotient(total);
    }
  }

  lemma ZeroQuotient(t: int)
    requires t != 0
    ensures TruncDiv(0, t) == 0
  {
    QuotientBelow(0, Abs(t));
  }
}
