/** The keys of the module's byte store. */
module Keys {
  import opened Bytes

  type Store = map<Bytes, Bytes>

  function Ascii(s: string): Bytes
    requires forall c :: c in s ==> c as int < 0x80
  {
    seq(|s|, i requires 0 <= i < |s| => assert s[i] in s; Code(s[i]))
  }

  function Code(c: char): byte
    requires c as int < 0x80
  {
    c as int
  }

  /** The n low bytes of u, most significant first. */
  function BigEndian(u: nat, n: nat): (r: Bytes)
    ensures |r| == n
  {
    if n == 0 then [] else BigEndian(u / 256, n - 1) + [u % 256]
  }

  function FromBigEndian(b: Bytes): nat {
    if b == [] then 0 else 256 * FromBigEndian(b[..|b| - 1]) + b[|b| - 1]
  }

  lemma {:induction false} BigEndianReadBack(u: nat, n: nat)
    requires u < Pow256(n)
    ensures FromBigEndian(BigEndian(u, n)) == u
  {
    if n > 0 {
      BigEndianReadBack(u / 256, n - 1);
      assert BigEndian(u, n)[..n - 1] == BigEndian(u / 256, n - 1);
    }
  }

  function Pow256(n: nat): nat {
    if n == 0 then 1 else 256 * Pow256(n - 1)
  }

  function BlockStateKey(height: int64): Bytes {
    Ascii("block_state") + BigEndian(ToUint64(height), 8)
  }

  function ConsensusInfoKey(height: int64): Bytes {
    Ascii("consensus_info") + BigEndian(ToUint64(height), 8)
  }

  const PARAMS_KEY := Ascii("p_wordle")

  /** The key inside a prefix store: the index and a slash. */
  function IndexKey(index: Bytes): Bytes {
    index + Ascii("/")
  }

  const WORDLE_PREFIX := Ascii("Wordle/value/")
  const GUESS_PREFIX := Ascii("Guess/value/")

  function WordleKey(index: Bytes): Bytes {
    WORDLE_PREFIX + IndexKey(index)
  }

  function GuessKey(index: Bytes): Bytes {
    GUESS_PREFIX + IndexKey(index)
  }

  lemma HeightsReadBack(h: int64)
    ensures ToInt64(FromBigEndian(BigEndian(ToUint64(h), 8))) == h
  {
    EightBytes();
    hide Pow256;
    BigEndianReadBack(ToUint64(h), 8);
  }

  lemma EightBytes()
    ensures Pow256(8) == TWO_64
  {
    assert Pow256(4) == 256 * (256 * (256 * (256 * Pow256(0))));
    assert Pow256(8) == 256 * (256 * (256 * (256 * Pow256(4))));
  }

  lemma DropPrefix(p: Bytes, a: Bytes, b: Bytes)
    requires p + a == p + b
    ensures a == b
  {
    assert a == (p + a)[|p|..] && b == (p + b)[|p|..];
  }

  lemma DropSuffix(a: Bytes, b: Bytes, p: Bytes)
    requires a + p == b + p
    ensures a == b
  {
    assert |a| == |b|;
    assert a == (a + p)[..|a|] && b == (b + p)[..|b|];
  }

  /** Each kind of key is injective: two heights, or two indices, never share one. */
  lemma KeysInjective(h: int64, h': int64, index: Bytes, index': Bytes)
    ensures BlockStateKey(h) == BlockStateKey(h') ==> h == h'
    ensures ConsensusInfoKey(h) == ConsensusInfoKey(h') ==> h == h'
    ensures WordleKey(index) == WordleKey(index') ==> index == index'
    ensures GuessKey(index) == GuessKey(index') ==> index == index'
  {
    HeightsReadBack(h);
    HeightsReadBack(h');
    if BlockStateKey(h) == BlockStateKey(h') {
      DropPrefix(Ascii("block_state"), BigEndian(ToUint64(h), 8), BigEndian(ToUint64(h'), 8));
    }
    if ConsensusInfoKey(h) == ConsensusInfoKey(h') {
      DropPrefix(Ascii("consensus_info"), BigEndian(ToUint64(h), 8), BigEndian(ToUint64(h'), 8));
    }
    if WordleKey(index) == WordleKey(index') {
      DropPrefix(WORDLE_PREFIX, IndexKey(index), IndexKey(index'));
      DropSuffix(index, index', Ascii("/"));
    }
    if GuessKey(index) == GuessKey(index') {
      DropPrefix(GUESS_PREFIX, IndexKey(index), IndexKey(index'));
      DropSuffix(index, index', Ascii("/"));
    }
  }

  /** The first byte tells the kinds apart. */
  lemma KindsDisjoint(h: int64, h': int64, index: Bytes, index': Bytes)
    ensures BlockStateKey(h)[0] == 'b' as int && ConsensusInfoKey(h')[0] == 'c' as int
    ensures WordleKey(index)[0] == 'W' as int && GuessKey(index')[0] == 'G' as int
    ensures PARAMS_KEY[0] == 'p' as int
    ensures var keys := [BlockStateKey(h), ConsensusInfoKey(h'), WordleKey(index), GuessKey(index'), PARAMS_KEY];
            forall i, j :: 0 <= i < j < |keys| ==> keys[i] != keys[j]
  {
    assert "block_state"[0] == 'b' && "consensus_info"[0] == 'c' && "p_wordle"[0] == 'p';
    assert "Wordle/value/"[0] == 'W' && "Guess/value/"[0] == 'G';
  }

  /** The keys byte by byte: "block_state" and "consensus_info" before a height, "Wordle/value/" and
      "Guess/value/" before an index with a slash behind it, and "p_wordle". */
  lemma KeyBytes(height: int64, index: Bytes)
    ensures BlockStateKey(height)[..11] == [98, 108, 111, 99, 107, 95, 115, 116, 97, 116, 101]
    ensures ConsensusInfoKey(height)[..14] == [99, 111, 110, 115, 101, 110, 115, 117, 115, 95, 105, 110, 102, 111]
    ensures |BlockStateKey(height)| == 19 && |ConsensusInfoKey(height)| == 22
    ensures BlockStateKey(height)[11..] == ConsensusInfoKey(height)[14..]
    ensures WordleKey(index) == [87, 111, 114, 100, 108, 101, 47, 118, 97, 108, 117, 101, 47] + index + [47]
    ensures GuessKey(index) == [71, 117, 101, 115, 115, 47, 118, 97, 108, 117, 101, 47] + index + [47]
    ensures PARAMS_KEY == [112, 95, 119, 111, 114, 100, 108, 101]
  {
    hide BigEndian;
    assert Ascii("block_state") == [98, 108, 111, 99, 107, 95, 115, 116, 97, 116, 101];
    assert Ascii("consensus_info") == [99, 111, 110, 115, 101, 110, 115, 117, 115, 95, 105, 110, 102, 111];
    assert Ascii("/") == [47];
    assert WORDLE_PREFIX == [87, 111, 114, 100, 108, 101, 47, 118, 97, 108, 117, 101, 47];
    assert GUESS_PREFIX == [71, 117, 101, 115, 115, 47, 118, 97, 108, 117, 101, 47];
    assert GuessKey(index) == GUESS_PREFIX + index + [47];
    assert WordleKey(index) == WORDLE_PREFIX + index + [47];
  }

  /** The heights in the keys stand most significant byte first. */
  lemma HeightBytes(height: int64)
    requires 0 <= height < 0x100_0000
    ensures BlockStateKey(height)[11..] == [0, 0, 0, 0, 0, height / 0x1_0000, height / 0x100 % 0x100, height % 0x100]
  {
    var u: nat := height;
    var v, w := u / 256, u / 256 / 256;
    assert ToUint64(height) == u && w / 256 == 0 && w == height / 0x1_0000;
    assert Ascii("block_state") + BigEndian(u, 8) == BlockStateKey(height);
    Zeros(5);
    assert BigEndian(w, 6) == BigEndian(0, 5) + [w];
    assert BigEndian(v, 7) == BigEndian(w, 6) + [v % 256];
    assert BigEndian(u, 8) == BigEndian(v, 7) + [u % 256];
  }

  lemma Zeros(n: nat)
    requires n == 5
    ensures BigEndian(0, n) == [0, 0, 0, 0, 0]
  {
    assert BigEndian(0, 1) == [0];
    assert BigEndian(0, 2) == [0, 0];
    assert BigEndian(0, 3) == [0, 0, 0];
    assert BigEndian(0, 4) == [0, 0, 0, 0];
  }
}
