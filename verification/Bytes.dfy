/** Fixed-width integers of the 64-bit Go platform, written out as ranges of `int`. */
module Bytes {

  type byte = x: int | 0 <= x < 0x100
  type Bytes = seq<byte>

  const TWO_32 := 0x1_0000_0000
  const TWO_63 := 0x8000_0000_0000_0000
  const TWO_64 := 0x1_0000_0000_0000_0000

  const MAX_INT64 := TWO_63 - 1
  const MAX_INT32 := 0x7FFF_FFFF

  type uint64 = x: int | 0 <= x < TWO_64
  type int64 = x: int | -TWO_63 <= x < TWO_63
  type int32 = x: int | -0x8000_0000 <= x < 0x8000_0000

  /** Go's conversion to int64: the low 64 bits read as two's complement. */
  function ToInt64(x: int): int64 {
    var u := x % TWO_64;
    if u < TWO_63 then u else u - TWO_64
  }

  /** Go's conversion to int32: the low 32 bits read as two's complement. */
  function ToInt32(x: int): int32 {
    var u := x % TWO_32;
    if u < 0x8000_0000 then u else u - TWO_32
  }

  /** Go's conversion of a signed value to uint64 (a narrower one is sign-extended first). */
  function ToUint64(x: int): uint64 {
    x % TWO_64
  }

  /** Go's integer division, which truncates toward zero (Dafny's is Euclidean). */
  function TruncDiv(a: int, b: int): int
    requires b != 0
  {
    if (a >= 0) == (b > 0) then Abs(a) / Abs(b) else -(Abs(a) / Abs(b))
  }

  function Abs(x: int): nat {
    if x < 0 then -x else x
  }

  lemma HasMember<T>(s: seq<T>)
    requires s != []
    ensures exists x :: x in s
  {
    assert s[0] in s;
  }

  // ---------- quotients ----------

  lemma QuotientAtLeast(y: nat, t: nat, n: nat)
    requires t > 0
    ensures y / t >= n <==> y >= n * t
  {
    var q := y / t;
    assert q * t <= y < (q + 1) * t;
    if q >= n {
      assert q * t >= n * t;
    } else {
      assert (q + 1) * t <= n * t;
    }
  }

  lemma QuotientBelow(y: nat, t: nat)
    requires t > 0
    ensures 0 <= y / t <= y
  {
    var q := y / t;
    assert q * t <= y;
    assert q <= q * t by { NoSmaller(q, t); }
  }

  lemma NoSmaller(q: nat, t: nat)
    requires t > 0
    ensures q <= q * t
  {
    assert q * t == q + q * (t - 1);
  }

  lemma Truncating(y: nat, t: nat)
    requires t > 0
    ensures TruncDiv(y, t) == y / t
  {
  }
}
