/** Go's reading of a string as runes, and which runes are letters. */
module Runes {
  import opened Bytes

  /** What stands for a byte that is not part of well-formed UTF-8. */
  const RUNE_ERROR := 0xFFFD

  datatype Rune = Rune(value: nat, width: nat)

  /** n continuation bytes after index i. */
  predicate Continues(s: Bytes, i: nat, n: nat) {
    i + n < |s| && forall k :: i < k <= i + n ==> 0x80 <= s[k] < 0xC0
  }

  /** The low six bits of each of them, joined. */
  function Tail(s: Bytes, i: nat, n: nat): nat
    requires i + n < |s|
  {
    if n == 0 then 0 else Tail(s, i, n - 1) * 0x40 + s[i + n] % 0x40
  }

  /** The rune at index i: overlong forms, surrogates, numbers above U+10FFFF and stray or missing bytes
      yield RUNE_ERROR for one byte. */
  function DecodeRune(s: Bytes, i: nat): (r: Rune)
    requires i < |s|
    ensures 1 <= r.width <= 4 && i + r.width <= |s|
    ensures r.width == 1 ==> r.value == if s[i] < 0x80 then s[i] else RUNE_ERROR
    ensures s[i] < 0x80 ==> r.width == 1
  {
    var b: int := s[i];
    if b < 0x80 then Rune(b, 1)
    else if 0xC0 <= b < 0xE0 && Continues(s, i, 1) then
      var v := b % 0x20 * 0x40 + Tail(s, i, 1);
      if v > 0x7F then Rune(v, 2) else Rune(RUNE_ERROR, 1)
    else if 0xE0 <= b < 0xF0 && Continues(s, i, 2) then
      var v := b % 0x10 * 0x1000 + Tail(s, i, 2);
      if v > 0x7FF && !(0xD800 <= v <= 0xDFFF) then Rune(v, 3) else Rune(RUNE_ERROR, 1)
    else if 0xF0 <= b < 0xF8 && Continues(s, i, 3) then
      var v := b % 8 * 0x4_0000 + Tail(s, i, 3);
      if 0xFFFF < v <= 0x10_FFFF then Rune(v, 4) else Rune(RUNE_ERROR, 1)
    else Rune(RUNE_ERROR, 1)
  }

  /** The runes that a range loop over s yields from index i on. */
  function RunesFrom(s: Bytes, i: nat): seq<nat>
    decreases |s| - i
  {
    if i >= |s| then [] else [DecodeRune(s, i).value] + RunesFrom(s, i + DecodeRune(s, i).width)
  }

  predicate AsciiLetter(v: nat) {
    'A' as int <= v <= 'Z' as int || 'a' as int <= v <= 'z' as int
  }

  /** unicode.IsLetter. Latin-1 is spelled out; the tables for the runes beyond it are given by `beyond`,
      and U+FFFD is a symbol. */
  predicate Letter(beyond: nat -> bool, v: nat) {
    if v <= 0xFF then
      || AsciiLetter(v) || v == 0xAA || v == 0xB5 || v == 0xBA
      || (0xC0 <= v <= 0xFF && v != 0xD7 && v != 0xF7)
    else v != RUNE_ERROR && beyond(v)
  }

  predicate OnlyLettersFrom(beyond: nat -> bool, s: Bytes, i: nat) {
    forall k :: 0 <= k < |RunesFrom(s, i)| ==> Letter(beyond, RunesFrom(s, i)[k])
  }

  predicate IsAscii(s: Bytes) {
    forall k :: 0 <= k < |s| ==> s[k] < 0x80
  }

  lemma OneRune(beyond: nat -> bool, s: Bytes, i: nat)
    requires i < |s|
    ensures var r := DecodeRune(s, i);
            OnlyLettersFrom(beyond, s, i) <==> Letter(beyond, r.value) && OnlyLettersFrom(beyond, s, i + r.width)
  {
    hide DecodeRune, Letter;
    var r := DecodeRune(s, i);
    var all, rest := RunesFrom(s, i), RunesFrom(s, i + r.width);
    assert all == [r.value] + rest;
    if OnlyLettersFrom(beyond, s, i) {
      assert Letter(beyond, all[0]);
      forall k | 0 <= k < |rest|
        ensures Letter(beyond, rest[k])
      {
        assert all[k + 1] == rest[k];
      }
    }
  }

  /** A string has at most as many runes as bytes and at least a quarter as many. A string of letters has
      as many exactly when every byte of it is below 0x80. */
  lemma {:induction false} LettersAndBytes(beyond: nat -> bool, s: Bytes, i: nat)
    requires i <= |s| && OnlyLettersFrom(beyond, s, i)
    ensures |RunesFrom(s, i)| <= |s| - i <= 4 * |RunesFrom(s, i)|
    ensures |RunesFrom(s, i)| == |s| - i <==> forall k :: i <= k < |s| ==> s[k] < 0x80
    decreases |s| - i
  {
    if i < |s| {
      var r := DecodeRune(s, i);
      OneRune(beyond, s, i);
      LettersAndBytes(beyond, s, i + r.width);
    }
  }

  /** Among the strings of bytes below 0x80 the test is the one the alphabet suggests. */
  lemma {:induction false} AsciiWords(beyond: nat -> bool, s: Bytes, i: nat)
    requires i <= |s| && IsAscii(s)
    ensures RunesFrom(s, i) == s[i..]
    ensures OnlyLettersFrom(beyond, s, i) <==> forall k :: i <= k < |s| ==> AsciiLetter(s[k])
    decreases |s| - i
  {
    if i < |s| {
      AsciiWords(beyond, s, i + 1);
      assert s[i..] == [s[i]] + s[i + 1..];
    }
    assert forall k :: i <= k < |s| ==> s[i..][k - i] == s[k];
  }

  // ---------- the encoding ----------

  /** The numbers that UTF-8 encodes (RFC 3629, section 3): up to U+10FFFF without the surrogates. */
  predicate IsScalar(v: nat) {
    v <= 0x10_FFFF && !(0xD800 <= v <= 0xDFFF)
  }

  /** A number in one to four bytes. */
  function Utf8(v: nat): (r: Bytes)
    requires IsScalar(v)
    ensures 1 <= |r| <= 4
  {
    if v < 0x80 then [v]
    else if v < 0x800 then [0xC0 + v / 0x40, 0x80 + v % 0x40]
    else if v < 0x1_0000 then [0xE0 + v / 0x1000, 0x80 + v / 0x40 % 0x40, 0x80 + v % 0x40]
    else [0xF0 + v / 0x4_0000, 0x80 + v / 0x1000 % 0x40, 0x80 + v / 0x40 % 0x40, 0x80 + v % 0x40]
  }

  function LowSix(b: byte): nat {
    b % 0x40
  }

  lemma TailOf(s: Bytes, i: nat)
    ensures i + 1 < |s| ==> Tail(s, i, 1) == LowSix(s[i + 1])
    ensures i + 2 < |s| ==> Tail(s, i, 2) == LowSix(s[i + 1]) * 0x40 + LowSix(s[i + 2])
    ensures i + 3 < |s| ==> Tail(s, i, 3) == LowSix(s[i + 1]) * 0x1000 + LowSix(s[i + 2]) * 0x40 + LowSix(s[i + 3])
  {
    if i + 1 < |s| {
      assert Tail(s, i, 1) == Tail(s, i, 0) * 0x40 + LowSix(s[i + 1]);
    }
    if i + 2 < |s| {
      assert Tail(s, i, 2) == Tail(s, i, 1) * 0x40 + LowSix(s[i + 2]);
    }
    if i + 3 < |s| {
      assert Tail(s, i, 3) == Tail(s, i, 2) * 0x40 + LowSix(s[i + 3]);
    }
  }

  /** The bytes of a rune that begins with b and goes on with c, and perhaps d and e, and its number. */
  lemma TwoBytes(b: byte, c: byte, v: nat)
    requires 0xC0 <= b < 0xE0 && 0x80 <= c < 0xC0
    ensures v == b % 0x20 * 0x40 + LowSix(c) <==> v < 0x800 && b == 0xC0 + v / 0x40 && c == 0x80 + v % 0x40
  {
  }

  lemma ThreeBytes(b: byte, c: byte, d: byte, v: nat)
    requires 0xE0 <= b < 0xF0 && 0x80 <= c < 0xC0 && 0x80 <= d < 0xC0
    ensures var top: int := b % 0x10;
            v == top * 0x1000 + (LowSix(c) * 0x40 + LowSix(d)) <==>
              v < 0x1_0000 && b == 0xE0 + v / 0x1000 && c == 0x80 + v / 0x40 % 0x40 && d == 0x80 + v % 0x40
  {
    var w := v / 0x40;
    assert v / 0x1000 == w / 0x40;
    var top: int, c', d' := b % 0x10, LowSix(c), LowSix(d);
    SixBits(v, top * 0x40 + c', d');
    SixBits(w, top, c');
  }

  lemma SixBits(v: nat, x: nat, r: nat)
    requires r < 0x40
    ensures v == x * 0x40 + r <==> x == v / 0x40 && r == v % 0x40
  {
  }

  lemma FourBytes(b: byte, c: byte, d: byte, e: byte, v: nat)
    requires 0xF0 <= b < 0xF8 && 0x80 <= c < 0xC0 && 0x80 <= d < 0xC0 && 0x80 <= e < 0xC0
    ensures var top: int := b % 8;
            v == top * 0x4_0000 + (LowSix(c) * 0x1000 + LowSix(d) * 0x40 + LowSix(e)) <==>
              && v < 0x20_0000 && b == 0xF0 + v / 0x4_0000 && c == 0x80 + v / 0x1000 % 0x40
              && d == 0x80 + v / 0x40 % 0x40 && e == 0x80 + v % 0x40
  {
    var w := v / 0x40;
    var x := w / 0x40;
    assert v / 0x1000 == x && v / 0x4_0000 == x / 0x40;
    var top: int, c', d', e' := b % 8, LowSix(c), LowSix(d), LowSix(e);
    SixBits(v, top * 0x1000 + c' * 0x40 + d', e');
    SixBits(w, top * 0x40 + c', d');
    SixBits(x, top, c');
  }

  /** A rune is read back in any surroundings. */
  lemma RuneReadBack(a: Bytes, v: nat, b: Bytes)
    requires IsScalar(v)
    ensures DecodeRune(a + Utf8(v) + b, |a|) == Rune(v, |Utf8(v)|)
  {
    var s, i, u := a + Utf8(v) + b, |a|, Utf8(v);
    assert s[i..i + |u|] == u;
    ReadBackAt(s, i, v);
  }

  lemma ReadBackAt(s: Bytes, i: nat, v: nat)
    requires IsScalar(v) && i + |Utf8(v)| <= |s| && s[i..i + |Utf8(v)|] == Utf8(v)
    ensures DecodeRune(s, i) == Rune(v, |Utf8(v)|)
  {
    TailOf(s, i);
    hide Tail, LowSix;
    var u := Utf8(v);
    var t := s[i..i + |u|];
    assert forall k :: 0 <= k < |u| ==> t[k] == s[i + k];
    if 0x80 <= v < 0x800 {
      TwoBytes(s[i], s[i + 1], v);
      assert Continues(s, i, 1);
    } else if 0x800 <= v < 0x1_0000 {
      ThreeBytes(s[i], s[i + 1], s[i + 2], v);
      assert Continues(s, i, 2);
    } else if v >= 0x1_0000 {
      FourBytes(s[i], s[i + 1], s[i + 2], s[i + 3], v);
      assert Continues(s, i, 3);
    }
  }

  /** A rune of more than one byte, by its bytes. */
  lemma LongRune(s: Bytes, i: nat)
    requires i < |s|
    ensures var r, b: int := DecodeRune(s, i), s[i];
            && (r.width == 1 ==> r.value == b < 0x80 || r.value == RUNE_ERROR)
            && (r.width == 2 ==> 0xC0 <= b < 0xE0 && Continues(s, i, 1)
                                 && r.value == b % 0x20 * 0x40 + Tail(s, i, 1) > 0x7F)
            && (r.width == 3 ==> 0xE0 <= b < 0xF0 && Continues(s, i, 2) && IsScalar(r.value)
                                 && r.value == b % 0x10 * 0x1000 + Tail(s, i, 2) > 0x7FF)
            && (r.width == 4 ==> 0xF0 <= b < 0xF8 && Continues(s, i, 3) && IsScalar(r.value)
                                 && r.value == b % 8 * 0x4_0000 + Tail(s, i, 3) > 0xFFFF)
  {
    hide Tail;
    TailIsSmall(s, i);
  }

  lemma TailIsSmall(s: Bytes, i: nat)
    ensures i + 2 < |s| ==> Tail(s, i, 2) < 0x1000
  {
    TailOf(s, i);
  }

  /** And nothing else is read as a rune: what is not the encoding of one is an error of one byte. */
  lemma OnlyRunesAreRead(s: Bytes, i: nat)
    requires i < |s|
    ensures var r := DecodeRune(s, i);
            r == Rune(RUNE_ERROR, 1) || (IsScalar(r.value) && s[i..i + r.width] == Utf8(r.value))
  {
    LongRune(s, i);
    TailOf(s, i);
    hide DecodeRune, Tail, LowSix;
    var r := DecodeRune(s, i);
    if r.width == 2 {
      TwoBytes(s[i], s[i + 1], r.value);
      assert s[i..i + 2] == [s[i], s[i + 1]];
    } else if r.width == 3 {
      ThreeBytes(s[i], s[i + 1], s[i + 2], r.value);
      assert s[i..i + 3] == [s[i], s[i + 1], s[i + 2]];
    } else if r.width == 4 {
      FourBytes(s[i], s[i + 1], s[i + 2], s[i + 3], r.value);
      assert s[i..i + 4] == [s[i], s[i + 1], s[i + 2], s[i + 3]];
    }
  }
}
