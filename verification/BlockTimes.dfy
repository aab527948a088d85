/** The block-time monitor of the relay: a sliding window per chain, its average gap, and the timeout
    built from two averages. Times and durations are nanoseconds. */
module BlockTimes {
  import opened Bytes

  const WINDOW := 100

  /** The window after one more block time. */
  function Pushed(times: seq<int>, t: int): seq<int> {
    (if |times| >= WINDOW then times[1..] else times) + [t]
  }

  function PushedAll(ts: seq<int>): seq<int> {
    if ts == [] then [] else Pushed(PushedAll(ts[..|ts| - 1]), ts[|ts| - 1])
  }

  /** time.Time.Sub, which saturates. */
  function Sub(t: int, u: int): int64 {
    if t - u > MAX_INT64 then MAX_INT64 else if t - u < -TWO_63 then -TWO_63 else t - u
  }

  /** The gaps summed up in an int64, which wraps. */
  function SumOfGaps(times: seq<int>): int64 {
    if |times| <= 1 then 0
    else ToInt64(SumOfGaps(times[..|times| - 1]) + Sub(times[|times| - 1], times[|times| - 2]))
  }

  function Average(times: seq<int>): int
    requires |times| > 1
  {
    TruncDiv(SumOfGaps(times), |times| - 1)
  }

  function Span(times: seq<int>): int
    requires times != []
  {
    times[|times| - 1] - times[0]
  }

  class BlockTimeMonitor {
    var blockTimes: map<string, seq<int>>
    var avgBlockTimes: map<string, int>

    constructor ()
      ensures blockTimes == map[] && avgBlockTimes == map[]
    {
      blockTimes, avgBlockTimes := map[], map[];
    }

    method AddBlockTime(chainID: string, blockTime: int)
      modifies this
      ensures var window := Pushed(if chainID in old(blockTimes) then old(blockTimes)[chainID] else [], blockTime);
              && blockTimes == old(blockTimes)[chainID := window]
              && avgBlockTimes == if |window| > 1 then old(avgBlockTimes)[chainID := Average(window)]
                                  else old(avgBlockTimes)
    {
      hide ToInt64, Sub;
      var times := if chainID in blockTimes then blockTimes[chainID] else [];
      if |times| >= 100 {
        times := times[1..];
      }
      times := times + [blockTime];
      blockTimes := blockTimes[chainID := times];
      if |times| > 1 {
        var total: int64 := 0;
        for i := 1 to |times|
          invariant total == SumOfGaps(times[..i])
        {
          assert times[..i + 1][..i] == times[..i];
          total := ToInt64(total + Sub(times[i], times[i - 1]));
        }
        assert times[..|times|] == times;
        avgBlockTimes := avgBlockTimes[chainID := TruncDiv(total, |times| - 1)];
      }
    }
  }

  ghost predicate Ascending(times: seq<int>) {
    forall i :: 0 < i < |times| ==> times[i - 1] <= times[i]
  }

  /** While every single gap fits an int64, the sum is the newest time minus the oldest, modulo 2^64. */
  lemma {:induction false} GapsTelescope(times: seq<int>)
    requires times != []
    requires forall i :: 0 < i < |times| ==> -TWO_63 <= times[i] - times[i - 1] <= MAX_INT64
    ensures SumOfGaps(times) == ToInt64(Span(times))
    decreases |times|
  {
    hide ToInt64;
    var n := |times| - 1;
    if n > 0 {
      GapsTelescope(times[..n]);
      WrapAdd(Span(times[..n]), times[n] - times[n - 1]);
    } else {
      assert ToInt64(0) == 0 by { WrapNothing(); }
    }
  }

  lemma WrapAdd(a: int, b: int)
    ensures ToInt64(ToInt64(a) + b) == ToInt64(a + b)
  {
  }

  lemma WrapNothing()
    ensures ToInt64(0) == 0
  {
  }

  lemma WrapExactly(a: int)
    ensures ToInt64(a) == a <==> -TWO_63 <= a <= MAX_INT64
  {
  }

  /** A single gap is cut to the range of a duration. */
  lemma GapOfTwo(t: int, u: int)
    ensures var gap := SumOfGaps([t, u]);
            && (gap == u - t <==> -0x8000_0000_0000_0000 <= u - t <= 0x7FFF_FFFF_FFFF_FFFF)
            && (u - t > 0x7FFF_FFFF_FFFF_FFFF ==> gap == 0x7FFF_FFFF_FFFF_FFFF)
            && (u - t < -0x8000_0000_0000_0000 ==> gap == -0x8000_0000_0000_0000)
  {
    assert [t, u][..1] == [t];
    assert SumOfGaps([t, u]) == ToInt64(0 + Sub(u, t));
  }

  /** For times that never go back the sum is exact if and only if the whole window spans no more than the
      largest duration, some 292 years. */
  lemma SumIsSpan(times: seq<int>)
    requires times != [] && Ascending(times)
    ensures SumOfGaps(times) == Span(times) <==> Span(times) <= MAX_INT64
  {
    if Span(times) <= MAX_INT64 {
      SpanCoversGaps(times);
      GapsTelescope(times);
      WrapExactly(Span(times));
    }
  }

  lemma {:induction false} SpanCoversGaps(times: seq<int>)
    requires times != [] && Ascending(times)
    ensures 0 <= Span(times)
    ensures forall i :: 0 < i < |times| ==> 0 <= times[i] - times[i - 1] <= Span(times)
    decreases |times|
  {
    var n := |times| - 1;
    if n > 0 {
      SpanCoversGaps(times[..n]);
      forall i | 0 < i < |times|
        ensures 0 <= times[i] - times[i - 1] <= Span(times)
      {
        assert i < n ==> times[..n][i] == times[i] && times[..n][i - 1] == times[i - 1];
      }
    }
  }

  /** So the average is the newest time minus the oldest, divided by the number of gaps and rounded down. */
  lemma AverageIsSpan(times: seq<int>)
    requires |times| > 1 && Ascending(times) && times[|times| - 1] - times[0] <= MAX_INT64
    ensures Average(times) == (times[|times| - 1] - times[0]) / (|times| - 1)
  {
    SumIsSpan(times);
    SpanCoversGaps(times);
    Truncating(Span(times), |times| - 1);
  }

  lemma WindowHoldsHundred(ts: seq<int>)
    ensures |PushedAll(ts)| <= 100 && (|ts| >= 100 ==> PushedAll(ts) == ts[|ts| - 100..])
    ensures |ts| <= 100 ==> PushedAll(ts) == ts
  {
    WindowIsLatest(ts);
  }

  /** After any additions the window is exactly the last 100 of them, or all if there are fewer. */
  lemma {:induction false} WindowIsLatest(ts: seq<int>)
    ensures PushedAll(ts) == if |ts| <= WINDOW then ts else ts[|ts| - WINDOW..]
    decreases |ts|
  {
    if ts != [] {
      var n := |ts| - 1;
      WindowIsLatest(ts[..n]);
      assert ts == ts[..n] + [ts[n]];
      if n >= WINDOW {
        assert ts[..n][n - WINDOW..][1..] + [ts[n]] == ts[n + 1 - WINDOW..];
      }
    }
  }

  /** For times that never go back, within such a span, the average lies between any bounds of the gaps. */
  lemma AverageWithinGaps(times: seq<int>, low: nat, high: nat)
    requires |times| > 1 && Span(times) <= MAX_INT64
    requires forall i :: 0 < i < |times| ==> low <= times[i] - times[i - 1] <= high
    ensures low <= Average(times) <= high
  {
    hide SumOfGaps;
    var n := |times| - 1;
    SpanWithinGaps(times, low, high);
    SumIsSpan(times);
    MulMono(0, low, n);
    QuotientWithin(Span(times), n, low, high);
  }

  lemma {:induction false} SpanWithinGaps(times: seq<int>, low: nat, high: nat)
    requires times != []
    requires forall i :: 0 < i < |times| ==> low <= times[i] - times[i - 1] <= high
    ensures low * (|times| - 1) <= times[|times| - 1] - times[0] <= high * (|times| - 1)
    decreases |times|
  {
    var n := |times| - 1;
    if n > 0 {
      SpanWithinGaps(times[..n], low, high);
      assert low * n == low * (n - 1) + low && high * n == high * (n - 1) + high;
    }
  }

  lemma QuotientWithin(x: nat, n: nat, low: nat, high: nat)
    requires n > 0 && low * n <= x <= high * n
    ensures low <= TruncDiv(x, n) <= high
  {
    Truncating(x, n);
    QuotientAtLeast(x, n, low);
    QuotientAtLeast(x, n, high + 1);
    assert (high + 1) * n == high * n + n;
  }

  // ---------- the adaptive timeout ----------

  /** The distance of neighbouring float64 values at n: 1 up to 2^53, and twice as much with every further
      doubling. */
  function Ulp(n: nat): (u: nat)
    ensures u >= 1
  {
    if n < 0x20_0000_0000_0000 then 1 else 2 * Ulp(n / 2)
  }

  /** The float64 nearest to n; of two that are equally near, the one with an even significand. */
  function RoundFloat(n: nat): nat {
    Nearest(n, Ulp(n)) * Ulp(n)
  }

  /** How often u goes into n, rounded to the nearest, and to the even of two equally near. */
  function Nearest(n: nat, u: nat): (k: nat)
    requires u > 0
    ensures n / u <= k <= n / u + 1 && (n % u == 0 ==> k == n / u)
  {
    QuotientOf(n, u);
    var q, r := n / u, n % u;
    if 2 * r < u || (2 * r == u && q % 2 == 0) then q else q + 1
  }

  /** Go's conversion of that float64 back to an int64. What comes of 2^63 is up to the platform. */
  function FromFloat(n: nat, platform: int64): int64 {
    if n < TWO_63 then n else platform
  }

  function Slower(source: int64, dest: int64): int64 {
    if dest > source then dest else source
  }

  /** calculateAdaptiveTimeout: the distance goes through a float64, and everything wraps. */
  function AdaptiveTimeout(source: int64, dest: int64, minTimeout: int64, platform: int64): int64 {
    var distance := RoundFloat(Abs(ToInt64(source - dest)));
    var buffer := ToInt64(FromFloat(distance, platform) * 3);
    ToInt64(ToInt64(Slower(source, dest) + buffer) + minTimeout)
  }

  /** The same without the limits of an int64. */
  function IdealTimeout(source: int, dest: int, minTimeout: int): int {
    (if dest > source then dest else source) + RoundFloat(Abs(source - dest)) * 3 + minTimeout
  }

  lemma {:induction false} UlpScale(n: nat)
    ensures n < 0x20_0000_0000_0000 * Ulp(n)
    ensures n >= 0x20_0000_0000_0000 ==> 0x10_0000_0000_0000 * Ulp(n) <= n
    decreases n
  {
    if n >= 0x20_0000_0000_0000 {
      UlpScale(n / 2);
      assert Ulp(n) == 2 * Ulp(n / 2);
    }
  }

  /** Along the numbers the distance stays or at least doubles. */
  lemma {:induction false} UlpSteps(n: nat, m: nat)
    requires n <= m
    ensures Ulp(n) == Ulp(m) || 2 * Ulp(n) <= Ulp(m)
    decreases m
  {
    if n >= 0x20_0000_0000_0000 {
      UlpSteps(n / 2, m / 2);
    } else if m >= 0x20_0000_0000_0000 {
      assert Ulp(m / 2) >= 1;
    }
  }

  lemma MulMono(a: nat, b: nat, u: nat)
    requires a <= b
    ensures a * u <= b * u
  {
  }

  lemma QuotientOf(n: nat, u: nat)
    requires u > 0
    ensures n == n / u * u + n % u && 0 <= n % u < u && 0 <= n / u
  {
  }

  /** Rounding does not cross a number that a float64 of the same scale can hold. */
  lemma RoundBounds(n: nat, k: nat)
    ensures k * Ulp(n) <= n ==> k * Ulp(n) <= RoundFloat(n)
    ensures n <= k * Ulp(n) ==> RoundFloat(n) <= k * Ulp(n)
  {
    var u := Ulp(n);
    var q, r := n / u, n % u;
    QuotientOf(n, u);
    QuotientAtLeast(n, u, k);
    hide Ulp;
    if k * u <= n {
      MulMono(k, Nearest(n, u), u);
    }
    if n <= k * u {
      if k <= q {
        MulMono(k, q, u);
        assert r == 0;
        MulMono(q, k, u) by { NoLarger(q, k, u); }
      } else {
        MulMono(Nearest(n, u), k, u);
      }
    }
  }

  lemma NoLarger(q: nat, k: nat, u: nat)
    requires u > 0 && q * u <= k * u
    ensures q <= k
  {
    if q > k {
      MulMono(k + 1, q, u);
    }
  }

  /** Rounding keeps order, and keeps what fits 53 bits. */
  lemma RoundFloatShape(n: nat, m: nat)
    requires n <= m
    ensures RoundFloat(n) <= RoundFloat(m)
    ensures n < 0x20_0000_0000_0000 ==> RoundFloat(n) == n
    ensures n > 0 ==> RoundFloat(n) > 0
  {
    UlpSteps(n, m);
    UlpScale(n);
    UlpScale(m);
    if Ulp(n) == Ulp(m) {
      SameScale(n, m);
    } else {
      var k := 0x20_0000_0000_0000;
      RoundBounds(n, k);
      RoundBounds(m, k / 2);
    }
    if n < 0x20_0000_0000_0000 {
      RoundBounds(n, n);
    } else {
      RoundBounds(n, 0x10_0000_0000_0000);
    }
  }

  lemma SameScale(n: nat, m: nat)
    requires n <= m && Ulp(n) == Ulp(m)
    ensures RoundFloat(n) <= RoundFloat(m)
  {
    var u := Ulp(n);
    QuotientOf(n, u);
    QuotientOf(m, u);
    QuotientAtLeast(m, u, n / u);
    MulMono(Nearest(n, u), Nearest(m, u), u);
  }

  /** The timeout is symmetric on every input, and for averages and a minimum that are not negative it is
      the ideal one if and only if that fits a duration. */
  lemma TimeoutIsIdeal(s: int64, d: int64, min: int64, platform: int64)
    ensures AdaptiveTimeout(s, d, min, platform) == AdaptiveTimeout(d, s, min, platform)
    ensures s >= 0 && d >= 0 && min >= 0 ==>
              (AdaptiveTimeout(s, d, min, platform) == IdealTimeout(s, d, min)
               <==> IdealTimeout(s, d, min) <= MAX_INT64)
  {
    hide RoundFloat, ToInt64;
    SymmetricDistance(s, d);
    var x := RoundFloat(Abs(s - d));
    if s >= 0 && d >= 0 && min >= 0 && IdealTimeout(s, d, min) <= MAX_INT64 {
      WrapExactly(s - d);
      WrapExactly(x * 3);
      WrapExactly(Slower(s, d) + x * 3);
      WrapExactly(Slower(s, d) + x * 3 + min);
    }
  }

  lemma SymmetricDistance(s: int64, d: int64)
    ensures Abs(ToInt64(s - d)) == Abs(ToInt64(d - s))
  {
  }

  /** It is at least the slower average plus the minimum, equal to that exactly when the chains keep pace, no
      shorter for a chain that gets slower still, and free of rounding up to 2^53 nanoseconds, 104 days. */
  lemma TimeoutShape(s: int, d: int, d': int, min: int)
    ensures IdealTimeout(s, d, min) >= s + min && IdealTimeout(s, d, min) >= d + min
    ensures IdealTimeout(s, d, min) == (if d > s then d else s) + min <==> s == d
    ensures s <= d <= d' ==> IdealTimeout(s, d, min) <= IdealTimeout(s, d', min)
    ensures Abs(s - d) < 0x20_0000_0000_0000 ==>
              IdealTimeout(s, d, min) == (if d > s then d else s) + 3 * Abs(s - d) + min
  {
    hide RoundFloat;
    RoundFloatShape(Abs(s - d), Abs(s - d));
    RoundFloatShape(0, 0);
    if s <= d <= d' {
      RoundFloatShape(Abs(s - d), Abs(s - d'));
    }
  }
}
