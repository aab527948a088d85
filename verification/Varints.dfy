/** Base-128 varints: the writer, its size function and the reading loop of state.pb.go. */
module Varints {
  import opened Bytes

  datatype Error =
    | IntOverflow
    | UnexpectedEOF
    | InvalidLength
    | UnexpectedEndOfGroup
    | EndGroupForNonGroup
    | IllegalTag
    | WrongWireType
    | IllegalWireType

  /** What a read at some index yields: a value and the index after it. */
  datatype Read = Got(value: nat, next: nat) | Bad(error: Error)

  // ---------- the format ----------

  /** The varint form of v: seven bits a byte, low bits first, top bit set on all but the last. */
  function Varint(v: nat): (r: Bytes)
    ensures r != []
    decreases v
  {
    if v < 128 then [v] else [v % 128 + 128] + Varint(v / 128)
  }

  /** The number that the digits from s[i] on denote, up to the last one or to where reading fails;
      `k` digits have been read already. */
  function Digits(s: Bytes, i: nat, k: nat): nat
    decreases 10 - k
  {
    if k >= 10 || i >= |s| then 0
    else if s[i] < 128 then s[i]
    else s[i] - 128 + 128 * Digits(s, i + 1, k + 1)
  }

  /** The number a varint at s[i..] denotes and where it ends, or why it does not. */
  function ReadDigits(s: Bytes, i: nat, k: nat): (r: Read)
    ensures r.Got? ==> i < r.next <= |s| && r.next - i + k <= 10 && r.value == Digits(s, i, k)
    decreases 10 - k
  {
    if k >= 10 then Bad(IntOverflow)
    else if i >= |s| then Bad(UnexpectedEOF)
    else if s[i] < 128 then Got(s[i], i + 1)
    else
      match ReadDigits(s, i + 1, k + 1)
      case Bad(e) => Bad(e)
      case Got(v, next) => Got(s[i] - 128 + 128 * v, next)
  }

  /** The 64-bit word that the reading loop leaves, whether it gets to the last digit or not. */
  function Word(s: Bytes, i: nat): uint64 {
    Digits(s, i, 0) % TWO_64
  }

  /** A varint read into a word of 64 bits: what does not fit is dropped. */
  function ReadVarint(s: Bytes, i: nat): (r: Read)
    ensures r.Got? ==> i < r.next <= |s| && r.next - i <= 10 && r.value == Word(s, i)
  {
    match ReadDigits(s, i, 0)
    case Bad(e) => Bad(e)
    case Got(v, next) => Got(v % TWO_64, next)
  }

  // ---------- bits ----------

  /** Go's `|` on unsigned words, bit by bit. */
  function Or(a: nat, b: nat): nat
    decreases a + b
  {
    if a == 0 then b
    else if b == 0 then a
    else 2 * Or(a / 2, b / 2) + if a % 2 == 1 || b % 2 == 1 then 1 else 0
  }

  function Pow2(n: nat): (p: nat)
    ensures p >= 1
  {
    if n == 0 then 1 else 2 * Pow2(n - 1)
  }

  /** Joining a number to the bits below it is adding it. */
  lemma {:induction false} OrAddsDisjointBits(a: nat, c: nat, n: nat)
    requires a < Pow2(n)
    ensures Or(a, c * Pow2(n)) == a + c * Pow2(n)
    decreases n
  {
    if n > 0 && a > 0 && c > 0 {
      var b := c * Pow2(n);
      assert b == 2 * (c * Pow2(n - 1));
      assert b > 0;
      OrAddsDisjointBits(a / 2, c, n - 1);
    } else if a == 0 || c == 0 {
      assert c == 0 ==> c * Pow2(n) == 0;
    }
  }

  // ---------- size ----------

  /** math/bits.Len64: the number of bits of x, 0 for 0. */
  function Len64(x: nat): nat {
    if x == 0 then 0 else 1 + Len64(x / 2)
  }

  /** sovState. */
  function Sov(x: nat): nat {
    (Len64(Or(x, 1)) + 6) / 7
  }

  lemma Len64Shift7(x: nat)
    requires x >= 128
    ensures Len64(x) == 7 + Len64(x / 128)
  {
    var a, b, c, d := x / 2, x / 4, x / 8, x / 16;
    var e, f := x / 32, x / 64;
    assert a / 2 == b && b / 2 == c && c / 2 == d && d / 2 == e && e / 2 == f && f / 2 == x / 128;
    assert Len64(x) == 2 + Len64(b);
    assert Len64(b) == 2 + Len64(d);
    assert Len64(d) == 2 + Len64(f);
  }

  lemma Len64SetLowBit(x: nat)
    ensures Len64(Or(x, 1)) == if x == 0 then 1 else Len64(x)
    ensures x < 128 ==> 1 <= Or(x, 1) < 128
    ensures Or(x, 1) / 128 == x / 128
  {
    assert Or(x / 2, 0) == x / 2;
    assert Or(x, 1) == 2 * (x / 2) + 1;
  }

  lemma {:induction false} VarintLength(v: nat)
    ensures |Varint(v)| == Sov(v) >= 1
    decreases v
  {
    Len64SetLowBit(v);
    if v < 128 {
      Len64Small(Or(v, 1));
    } else {
      VarintLength(v / 128);
      Len64Shift7(v);
      Len64SetLowBit(v / 128);
    }
  }

  lemma Len64Small(w: nat)
    requires 1 <= w < 128
    ensures 1 <= Len64(w) <= 7
  {
    assert Len64(w) == 1 + Len64(w / 2);
    var a, b, c := w / 2, w / 4, w / 8;
    var d, e, f := w / 16, w / 32, w / 64;
    assert a / 2 == b && b / 2 == c && c / 2 == d && d / 2 == e && e / 2 == f && f / 2 == 0;
    assert Len64(f) <= 1 && Len64(e) <= 2 && Len64(d) <= 3;
    assert Len64(c) <= 4 && Len64(b) <= 5 && Len64(a) <= 6;
  }

  // ---------- writing and reading back ----------

  function Pow128(k: nat): (p: nat)
    ensures p >= 1
  {
    if k == 0 then 1 else 128 * Pow128(k - 1)
  }

  lemma Pow128Values()
    ensures Pow128(9) == TWO_63 && Pow128(10) == 128 * TWO_63
  {
    assert Pow128(3) == 128 * (128 * (128 * Pow128(0)));
    assert Pow128(6) == 128 * (128 * (128 * Pow128(3)));
    assert Pow128(9) == 128 * (128 * (128 * Pow128(6)));
  }

  lemma {:induction false} VarintLengthBound(v: nat, n: nat)
    requires n >= 1 && v < Pow128(n)
    ensures |Varint(v)| <= n
    decreases n
  {
    assert Pow128(n) == 128 * Pow128(n - 1);
    if v >= 128 {
      VarintLengthBound(v / 128, n - 1);
    }
  }

  /** Every uint64 takes at most ten bytes. */
  lemma Uint64Fits(v: uint64)
    ensures 1 <= |Varint(v)| <= 10
  {
    Pow128Values();
    VarintLengthBound(v, 10);
  }

  lemma {:induction false} DigitsReadBack(a: Bytes, v: nat, b: Bytes, k: nat)
    requires |Varint(v)| + k <= 10
    ensures ReadDigits(a + Varint(v) + b, |a|, k) == Got(v, |a| + |Varint(v)|)
    decreases v
  {
    var s := a + Varint(v) + b;
    if v >= 128 {
      var a' := a + [v % 128 + 128];
      assert s == a' + Varint(v / 128) + b;
      DigitsReadBack(a', v / 128, b, k + 1);
    }
  }

  /** The decoding loop reads back every uint64 the encoder wrote, in any surroundings. */
  lemma VarintReadBack(a: Bytes, v: uint64, b: Bytes)
    ensures ReadVarint(a + Varint(v) + b, |a|) == Got(v, |a| + |Varint(v)|)
  {
    Uint64Fits(v);
    DigitsReadBack(a, v, b, 0);
  }

  /** v in n bytes, however few it needs: the digits that are missing are zeros. */
  function Padded(v: nat, n: nat): (r: Bytes)
    requires n >= 1 && v < Pow128(n)
    ensures |r| == n
    decreases n
  {
    if n == 1 then [v] else [v % 128 + 128] + Padded(v / 128, n - 1)
  }

  /** The low k digits of v, each of them announcing another. */
  function Broken(v: nat, k: nat): (r: Bytes)
    ensures |r| == k
  {
    if k == 0 then [] else [v % 128 + 128] + Broken(v / 128, k - 1)
  }

  lemma {:induction false} PaddedDigits(a: Bytes, v: nat, n: nat, b: Bytes, k: nat)
    requires n >= 1 && v < Pow128(n) && n + k <= 10
    ensures ReadDigits(a + Padded(v, n) + b, |a|, k) == Got(v, |a| + n)
    decreases n
  {
    if n > 1 {
      var a' := a + [v % 128 + 128];
      assert a + Padded(v, n) + b == a' + Padded(v / 128, n - 1) + b;
      PaddedDigits(a', v / 128, n - 1, b, k + 1);
    }
  }

  /** Any number of up to ten digits is read, padded or not, and cut to 64 bits. */
  lemma PaddedReadBack(a: Bytes, v: nat, n: nat, b: Bytes)
    requires 1 <= n <= 10 && v < Pow128(n)
    ensures ReadVarint(a + Padded(v, n) + b, |a|) == Got(v % TWO_64, |a| + n)
  {
    PaddedDigits(a, v, n, b, 0);
  }

  /** And nothing else is: the bytes read are a number in digits. */
  lemma {:induction false} ReadIsPadded(s: Bytes, i: nat, k: nat)
    requires ReadDigits(s, i, k).Got?
    ensures var r := ReadDigits(s, i, k);
            r.value < Pow128(r.next - i) && s[i..r.next] == Padded(r.value, r.next - i)
    decreases 10 - k
  {
    var r := ReadDigits(s, i, k);
    if s[i] >= 128 {
      ReadIsPadded(s, i + 1, k + 1);
      var v := ReadDigits(s, i + 1, k + 1).value;
      assert s[i..r.next] == [s[i]] + s[i + 1..r.next];
      assert r.value / 128 == v && r.value % 128 == s[i] - 128;
    } else {
      assert Pow128(1) == 128;
    }
  }

  lemma {:induction false} VarintIsPadded(v: nat)
    ensures v < Pow128(|Varint(v)|) && Varint(v) == Padded(v, |Varint(v)|)
    decreases v
  {
    if v < 128 {
      assert Pow128(1) == 128;
    } else {
      VarintIsPadded(v / 128);
    }
  }

  lemma QuotientFits(v: nat, n: nat)
    requires n > 0 && v < Pow128(n)
    ensures v / 128 < Pow128(n - 1)
  {
  }

  lemma NoneFit(v: nat)
    requires v < Pow128(0)
    ensures v == 0
  {
  }

  /** A number that breaks off is refused for want of bytes, or as an overflow once ten digits have been read;
      the digits before are kept. */
  lemma {:induction false} BrokenDigits(a: Bytes, v: nat, n: nat, b: Bytes, k: nat)
    requires v < Pow128(n) && n + k <= 10 && (b == [] || n + k == 10)
    ensures ReadDigits(a + Broken(v, n) + b, |a|, k) == Bad(if n + k == 10 then IntOverflow else UnexpectedEOF)
    ensures Digits(a + Broken(v, n) + b, |a|, k) == v
    decreases n
  {
    hide Pow128;
    if n == 0 {
      NoneFit(v);
    } else {
      var d, rest := v % 128 + 128, Broken(v / 128, n - 1);
      QuotientFits(v, n);
      assert a + Broken(v, n) + b == a + [d] + rest + b;
      BrokenDigits(a + [d], v / 128, n - 1, b, k + 1);
      assert (a + [d] + rest + b)[|a|] == d;
    }
  }

  lemma {:induction false} VarintLengthMonotone(a: nat, b: nat)
    requires a <= b
    ensures |Varint(a)| <= |Varint(b)|
    decreases b
  {
    if a >= 128 {
      VarintLengthMonotone(a / 128, b / 128);
    }
  }

  lemma {:induction false} DigitsNoShorter(s: Bytes, i: nat, k: nat)
    requires ReadDigits(s, i, k).Got?
    ensures var r := ReadDigits(s, i, k); |Varint(r.value)| <= r.next - i
    decreases 10 - k
  {
    if s[i] >= 128 {
      DigitsNoShorter(s, i + 1, k + 1);
      var v := ReadDigits(s, i + 1, k + 1).value;
      assert (s[i] - 128 + 128 * v) / 128 == v;
    }
  }

  /** The encoder's form is the shortest: whatever bytes are read as v, they are at least Sov(v) many. */
  lemma VarintIsShortest(s: Bytes, i: nat)
    requires ReadVarint(s, i).Got?
    ensures var r := ReadVarint(s, i); r.next - i >= Sov(r.value)
  {
    DigitsNoShorter(s, i, 0);
    var v := ReadDigits(s, i, 0).value;
    VarintLengthMonotone(v % TWO_64, v);
    VarintLength(v % TWO_64);
  }

  /** Signed fields survive: a negative one is sign-extended to ten bytes and cut back by the reader. */
  lemma SignedFieldsReadBack(h: int64, n: int32)
    ensures ToInt64(ToUint64(h)) == h
    ensures ToInt32(ToUint64(n)) == n
    ensures h < 0 ==> |Varint(ToUint64(h))| == 10
  {
    Low32(n);
    if h < 0 {
      Pow128Values();
      Uint64Fits(ToUint64(h));
      VarintAtLeast(ToUint64(h), 9);
    }
  }

  lemma Low32(n: int)
    ensures n % TWO_64 % TWO_32 == n % TWO_32
  {
    assert n == n / TWO_64 * TWO_32 * TWO_32 + n % TWO_64;
  }

  lemma {:induction false} VarintAtLeast(v: nat, n: nat)
    requires v >= Pow128(n)
    ensures |Varint(v)| > n
    decreases n
  {
    if n > 0 {
      assert v >= 128;
      VarintAtLeast(v / 128, n - 1);
    }
  }

  // ---------- reading inside a longer input ----------

  function Shifted(r: Read, n: nat): Read {
    match r
    case Got(v, next) => Got(v, n + next)
    case Bad(e) => Bad(e)
  }

  lemma {:induction false} DigitsOfPrefix(x: Bytes, y: Bytes, i: nat, k: nat)
    requires ReadDigits(x, i, k).Got?
    ensures ReadDigits(x + y, i, k) == ReadDigits(x, i, k)
    decreases 10 - k
  {
    if x[i] >= 128 {
      DigitsOfPrefix(x, y, i + 1, k + 1);
    }
  }

  lemma {:induction false} DigitsOfSuffix(x: Bytes, y: Bytes, i: nat, k: nat)
    ensures ReadDigits(x + y, |x| + i, k) == Shifted(ReadDigits(y, i, k), |x|)
    ensures Digits(x + y, |x| + i, k) == Digits(y, i, k)
    decreases 10 - k
  {
    if k < 10 && i < |y| && y[i] >= 128 {
      DigitsOfSuffix(x, y, i + 1, k + 1);
    }
  }

  // ---------- the loops ----------

  /** done, plus a number c that starts at digit k. */
  function AddDigit(done: nat, c: nat, k: nat): nat {
    done + c * Pow128(k)
  }

  /** Two readings that end alike. */
  predicate SameEnd(r: Read, r': Read) {
    match r
    case Got(_, next) => r'.Got? && r'.next == next
    case Bad(e) => r' == Bad(e)
  }

  /** The low bits of x that a Go word keeps: 64 of them, or 32 for the int32 fields. */
  function Low(x: nat, wide: bool): nat {
    if wide then x % TWO_64 else x % TWO_32
  }

  function Width(wide: bool): nat {
    if wide then 64 else 32
  }

  lemma {:induction false} Widths()
    ensures Pow2(64) == TWO_64 && Pow2(32) == TWO_32
  {
    var p8, p16, p32 := Pow2(8), Pow2(16), Pow2(32);
    assert p8 == 256 by { assert Pow2(4) == 16; }
    hide Pow2;
    assert p16 == p8 * p8 by { Pow2Adds(8, 8); }
    assert p32 == p16 * p16 by { Pow2Adds(16, 16); }
    assert Pow2(64) == p32 * p32 by { Pow2Adds(32, 32); }
  }

  lemma LowIsRemainder(x: nat, wide: bool)
    ensures Low(x, wide) == x % Pow2(Width(wide))
  {
    hide Pow2;
    Widths();
  }

  function Cut(r: Read, wide: bool): Read {
    match r
    case Got(v, next) => Got(Low(v, wide), next)
    case Bad(e) => Bad(e)
  }

  lemma DigitsStep(done: nat, s: Bytes, i: nat, k: nat)
    requires k < 10 && i < |s|
    ensures AddDigit(done, Digits(s, i, k), k)
         == if s[i] < 128 then AddDigit(done, s[i] % 128, k)
            else AddDigit(AddDigit(done, s[i] % 128, k), Digits(s, i + 1, k + 1), k + 1)
  {
    if s[i] >= 128 {
      var scale := Pow128(k);
      assert Pow128(k + 1) == 128 * scale;
      hide Pow128;
      Distribute(scale, s[i] - 128, Digits(s, i + 1, k + 1));
    }
  }

  lemma Distribute(scale: nat, c: nat, v: nat)
    ensures (c + 128 * v) * scale == c * scale + v * (128 * scale)
  {
  }

  /** The loop that reads a varint into a word of 64 or 32 bits, one byte a turn. When it fails, the word
      is left with the digits read so far. */
  method DecodeVarint(data: Bytes, start: nat, wide: bool) returns (r: Read, word: nat)
    ensures r == Cut(ReadDigits(data, start, 0), wide)
    ensures word == Low(Digits(data, start, 0), wide)
  {
    hide AddDigit, ShiftLeft, Or, Low;
    var index: nat, shift: nat := start, 0;
    ghost var k: nat, done: nat := 0, 0;
    word := 0;
    assert AddDigit(0, Digits(data, start, 0), 0) == Digits(data, start, 0) && Low(0, wide) == 0 by {
      NoDigits(data, start, wide);
    }
    while true
      invariant shift == 7 * k && k <= 10
      invariant done < Pow128(k) && word == Low(done, wide)
      invariant AddDigit(done, Digits(data, index, k), k) == Digits(data, start, 0)
      invariant SameEnd(ReadDigits(data, start, 0), ReadDigits(data, index, k))
      decreases 10 - k
    {
      if shift >= 64 || index >= |data| {
        assert AddDigit(done, 0, k) == done by { AddNothing(done, k); }
      }
      if shift >= 64 { return Bad(IntOverflow), word; }
      if index >= |data| { return Bad(UnexpectedEOF), word; }
      var b := data[index];
      index := index + 1;
      OrAdds(done, b % 128, k, wide);
      DigitsStep(done, data, index - 1, k);
      word := Or(word, ShiftLeft(b % 128, shift, wide));
      if b < 0x80 {
        return Got(word, index), word;
      }
      done := AddDigit(done, b % 128, k);
      k, shift := k + 1, shift + 7;
    }
  }

  lemma NoDigits(s: Bytes, i: nat, wide: bool)
    ensures AddDigit(0, Digits(s, i, 0), 0) == Digits(s, i, 0) && Low(0, wide) == 0
  {
  }

  lemma AddNothing(done: nat, k: nat)
    ensures AddDigit(done, 0, k) == done
  {
  }

  /** c << shift in such a word. */
  function ShiftLeft(c: nat, shift: nat, wide: bool): nat {
    Low(c * Pow2(shift), wide)
  }

  lemma {:induction false} Pow2Adds(a: nat, b: nat)
    ensures Pow2(a + b) == Pow2(a) * Pow2(b)
    decreases a
  {
    if a > 0 {
      Pow2Adds(a - 1, b);
    }
  }

  lemma {:induction false} Pow2OfSevens(k: nat)
    ensures Pow2(7 * k) == Pow128(k)
  {
    if k > 0 {
      Pow2OfSevens(k - 1);
      var n := 7 * (k - 1);
      assert Pow2(n + 2) == 4 * Pow2(n);
      assert Pow2(n + 4) == 4 * Pow2(n + 2);
      assert Pow2(n + 6) == 4 * Pow2(n + 4);
    }
  }

  /** The bits that a digit is joined to lie below it, so that `|=` adds. Where the digit sticks out of the
      word, only its bits inside are joined. */
  lemma OrAdds(done: nat, c: nat, k: nat, wide: bool)
    requires c < 128 && done < Pow128(k)
    ensures Or(Low(done, wide), ShiftLeft(c, 7 * k, wide)) == Low(AddDigit(done, c, k), wide)
    ensures AddDigit(done, c, k) < Pow128(k + 1)
  {
    hide Or, Low;
    var n := 7 * k;
    Pow2OfSevens(k);
    DigitFits(done, c, Pow128(k));
    ShiftedWord(done, c, n, wide);
    if n >= Width(wide) {
      OrNothing(Low(done, wide));
    } else {
      OrAddsDisjointBits(done, c % Pow2(Width(wide) - n), n);
    }
  }

  /** What shifting leaves of a digit: nothing beyond the width, else its low bits. */
  lemma ShiftedWord(done: nat, c: nat, n: nat, wide: bool)
    requires done < Pow2(n)
    ensures n >= Width(wide) ==> ShiftLeft(c, n, wide) == 0 && Low(done + c * Pow2(n), wide) == Low(done, wide)
    ensures n < Width(wide) ==>
              var c' := c % Pow2(Width(wide) - n);
              && Low(done, wide) == done
              && ShiftLeft(c, n, wide) == c' * Pow2(n)
              && Low(done + c * Pow2(n), wide) == done + c' * Pow2(n)
  {
    hide Pow2, Low;
    LowIsRemainder(done, wide);
    LowIsRemainder(c * Pow2(n), wide);
    LowIsRemainder(done + c * Pow2(n), wide);
    var w := Width(wide);
    if n >= w {
      assert Pow2(n) == Pow2(n - w) * Pow2(w) by { Pow2Adds(n - w, w); }
      ShiftedOut(done, c, Pow2(n - w), Pow2(w));
    } else {
      assert Pow2(w) == Pow2(w - n) * Pow2(n) by { Pow2Adds(w - n, n); }
      ShiftedIn(done, c, Pow2(w - n), Pow2(n));
    }
  }

  lemma ShiftedIn(done: nat, c: nat, m: nat, scale: nat)
    requires m > 0 && done < scale
    ensures (done + c * scale) % (m * scale) == done + c % m * scale
    ensures c * scale % (m * scale) == c % m * scale && done % (m * scale) == done
  {
    ScaledRemainder(done, c, m, scale);
    ScaledRemainder(0, c, m, scale);
    ScaledRemainder(done, 0, m, scale);
  }

  lemma ShiftedOut(done: nat, c: nat, scale: nat, m: nat)
    requires m > 0
    ensures (done + c * (scale * m)) % m == done % m && c * (scale * m) % m == 0
  {
    assert c * (scale * m) == c * scale * m;
    Multiple(done, c * scale, m);
    Multiple(0, c * scale, m);
  }

  lemma Multiple(a: nat, q: nat, m: nat)
    requires m > 0
    ensures (a + q * m) % m == a % m
    decreases q
  {
    if q > 0 {
      Multiple(a, q - 1, m);
      assert a + q * m == (a + (q - 1) * m) + m;
      OneMore(a + (q - 1) * m, m);
    }
  }

  lemma OneMore(x: nat, m: nat)
    requires m > 0
    ensures (x + m) % m == x % m
  {
    var q, r := x / m, x % m;
    assert x + m == (q + 1) * m + r;
    QuotientIs(x + m, q + 1, r, m);
  }

  lemma QuotientIs(x: nat, q: nat, r: nat, m: nat)
    requires r < m && x == q * m + r
    ensures x / m == q && x % m == r
  {
    var q', r' := x / m, x % m;
    assert (q' - q) * m == r - r' by { Subtract(q', q, m); }
    if q' != q {
      FarApart(q' - q, m);
    }
  }

  lemma Subtract(a: int, b: int, m: int)
    ensures (a - b) * m == a * m - b * m
  {
  }

  lemma FarApart(d: int, m: int)
    requires d != 0 && m > 0
    ensures d * m >= m || d * m <= -m
  {
    if d > 0 {
      assert (d - 1) * m >= 0;
    } else {
      assert (-d - 1) * m >= 0;
    }
  }

  lemma ScaledRemainder(a: nat, c: nat, m: nat, scale: nat)
    requires m > 0 && a < scale
    ensures (a + c * scale) % (m * scale) == a + c % m * scale
  {
    var q, r := c / m, c % m;
    assert c == q * m + r;
    assert r * scale + scale <= m * scale by { assert (r + 1) * scale <= m * scale; }
    assert c * scale == q * (m * scale) + r * scale;
    QuotientIs(a + c * scale, q, a + r * scale, m * scale);
  }

  lemma OrNothing(a: nat)
    ensures Or(a, 0) == a
  {
  }

  lemma DigitFits(done: nat, c: nat, scale: nat)
    requires c < 128 && done < scale
    ensures done + c * scale < 128 * scale
  {
    assert c * scale <= 127 * scale;
  }

  lemma {:induction false} VarintUnfold(w: nat)
    ensures w < 128 ==> Varint(w) == [w]
    ensures w >= 128 ==> Varint(w) == [w % 128 + 128] + Varint(w / 128)
  {
  }

  lemma TopBitSet(w: nat)
    ensures Or(w % 128, 0x80) == w % 128 + 128
  {
    OrAddsDisjointBits(w % 128, 1, 7);
  }

  /** uint8(v&0x7f | 0x80). */
  function LowDigit(w: nat): (b: byte)
    ensures b == w % 128 + 128
  {
    TopBitSet(w);
    Or(w % 128, 0x80)
  }

  lemma OneByteWritten(done: Bytes, w: nat)
    requires w >= 128
    ensures done + Varint(w) == done + [LowDigit(w)] + Varint(w / 128)
    ensures |Varint(w)| == 1 + |Varint(w / 128)| && w / 128 < w
  {
    VarintUnfold(w);
  }

  /** encodeVarintState: writes v just below `offset`, leaving the rest of the buffer alone. */
  method EncodeVarint(data: array<byte>, offset: nat, v: uint64) returns (base: nat)
    requires Sov(v) <= offset <= data.Length
    modifies data
    ensures base == offset - Sov(v)
    ensures data[base..] == Varint(v) + old(data[offset..])
    ensures data[..base] == old(data[..base])
  {
    VarintLength(v);
    hide Sov, Varint, LowDigit;
    var o := offset - Sov(v);
    base := o;
    var w: nat := v;
    ghost var done: Bytes := [];
    ghost var low, high := data[..base], data[offset..];
    while w >= 0x80
      invariant o == base + |done| && |done| < |Varint(v)|
      invariant done + Varint(w) == Varint(v)
      invariant data[..o] == low + done && data[offset..] == high
      decreases w
    {
      var b := LowDigit(w);
      OneByteWritten(done, w);
      data[o] := b;
      assert data[..o + 1] == data[..o] + [b];
      done, w, o := done + [b], w / 128, o + 1;
    }
    assert done + [w] == Varint(v) by { VarintUnfold(w); }
    data[o] := w;
    assert data[..offset] == data[..o] + [w];
    Halves(data[..], low, done + [w], high);
  }

  lemma Halves(s: Bytes, low: Bytes, mid: Bytes, high: Bytes)
    requires |s| == |low| + |mid| + |high|
    requires s[..|low| + |mid|] == low + mid && s[|low| + |mid|..] == high
    ensures s[..|low|] == low && s[|low|..] == mid + high
  {
    assert s == low + mid + high;
  }
}
