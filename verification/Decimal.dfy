/** Decimal strings: strconv.Itoa and strconv.Atoi on ASCII bytes. */
module Decimal {
  import opened Bytes

  datatype Parsed = Number(value: int64) | NotANumber

  const ZERO := 48
  const PLUS := 43
  const MINUS := 45

  function Digits(n: nat): (r: Bytes)
    ensures r != []
  {
    if n < 10 then [ZERO + n] else Digits(n / 10) + [ZERO + n % 10]
  }

  function Itoa(n: int): Bytes {
    if n < 0 then [MINUS] + Digits(0 - n) else Digits(n)
  }

  predicate AllDigits(s: Bytes) {
    forall i :: 0 <= i < |s| ==> ZERO <= s[i] <= ZERO + 9
  }

  function Value(s: Bytes): nat
    requires AllDigits(s)
  {
    if s == [] then 0 else 10 * Value(s[..|s| - 1]) + (s[|s| - 1] - ZERO)
  }

  /** An optional sign, at least one digit, nothing else, and in the range of an int. */
  function Atoi(s: Bytes): Parsed {
    var signed := s != [] && (s[0] == PLUS || s[0] == MINUS);
    var digits := if signed then s[1..] else s;
    if digits == [] || !AllDigits(digits) then NotANumber
    else
      var v: int := if signed && s[0] == MINUS then 0 - Value(digits) else Value(digits);
      if -TWO_63 <= v < TWO_63 then Number(v) else NotANumber
  }

  lemma {:induction false} DigitsReadBack(n: nat)
    ensures AllDigits(Digits(n)) && Value(Digits(n)) == n
  {
    if n >= 10 {
      DigitsReadBack(n / 10);
      var s := Digits(n);
      assert s[..|s| - 1] == Digits(n / 10);
    }
  }

  lemma ItoaReadBack(n: int64)
    ensures Atoi(Itoa(n)) == Number(n)
  {
    if n < 0 {
      DigitsReadBack(0 - n);
      assert Itoa(n)[1..] == Digits(0 - n);
    } else {
      DigitsReadBack(n);
      assert ZERO <= Digits(n)[0] <= ZERO + 9;
    }
  }

  /** The digits as they are printed, most significant first: '0' is byte 48. */
  lemma ItoaDigits(n: nat, d: nat)
    requires d < 10
    ensures Itoa(d) == [48 + d] && (n > 0 ==> Itoa(10 * n + d) == Itoa(n) + [48 + d])
  {
    assert (10 * n + d) / 10 == n && (10 * n + d) % 10 == d;
  }
}
