/** What a single record does to a message: every field by its tag byte, on top of any message, read whole,
    broken off, or of the wrong type. With concatenation as merge these say what any input does. */
module FieldLaws {
  import opened Bytes
  import opened Varints
  import opened Wire
  import opened WireLaws
  import opened RoundTrip
  import opened UnknownFields

  // ---------- numbers ----------

  lemma ScalarRead(tag: byte, v: nat, n: nat)
    requires 8 <= tag < 128 && tag % 8 == 0 && 1 <= n <= 10 && v < Pow128(n)
    ensures var s := [tag] + Padded(v, n);
            && ReadTag(s, 0) == Tag(tag / 8, 0, 1) && ReadVarint(s, 1) == Got(v % TWO_64, n + 1)
            && Word(s, 1) == v % TWO_64 && |s| == n + 1
  {
    hide ReadVarint;
    TagReadBack(tag, Padded(v, n));
    assert [tag] + Padded(v, n) == [tag] + Padded(v, n) + [];
    PaddedReadBack([tag], v, n, []);
    WordOf([tag] + Padded(v, n), 1);
  }

  lemma WordOf(s: Bytes, i: nat)
    requires ReadVarint(s, i).Got?
    ensures Word(s, i) == ReadVarint(s, i).value
  {
  }

  lemma CutOnce(v: nat)
    ensures ToInt64(v % TWO_64) == ToInt64(v) && ToInt32(v % TWO_64) == ToInt32(v)
  {
    Low32(v);
  }

  /** What the conversions mean: the number is kept modulo 2^64 or 2^32, in the signed range. */
  lemma Conversions(v: int)
    ensures -0x8000_0000_0000_0000 <= ToInt64(v) < 0x8000_0000_0000_0000
    ensures ToInt64(v) % 0x1_0000_0000_0000_0000 == v % 0x1_0000_0000_0000_0000
    ensures -0x8000_0000 <= ToInt32(v) < 0x8000_0000 && ToInt32(v) % 0x1_0000_0000 == v % 0x1_0000_0000
  {
  }

  /** The deletion flag is set by any number but zero, and cleared by zero. Numbers may be padded, here and
      below, and lose what does not fit 64 bits. */
  lemma FlagIsRead(c: Change, v: nat, n: nat)
    requires 1 <= n <= 10 && v < Pow128(n)
    ensures Unmarshal([0x18] + Padded(v, n), ChangeMsg(c))
         == Parsed(ChangeMsg(c.(isDeleted := v % 0x1_0000_0000_0000_0000 != 0)))
  {
    hide ReadVarint, ReadTag, Padded;
    ScalarRead(0x18, v, n);
    OneStep([0x18] + Padded(v, n), ChangeMsg(c), ChangeMsg(c.(isDeleted := v % TWO_64 != 0)));
  }

  lemma HeightIsRead(b: Block, v: nat, n: nat)
    requires 1 <= n <= 10 && v < Pow128(n)
    ensures Unmarshal([0x08] + Padded(v, n), BlockMsg(b)) == Parsed(BlockMsg(b.(height := ToInt64(v))))
  {
    hide ReadVarint, ReadTag, Word, Padded, ToInt64, ToInt32;
    ScalarRead(0x08, v, n);
    CutOnce(v);
    OneStep([0x08] + Padded(v, n), BlockMsg(b), BlockMsg(b.(height := ToInt64(v))));
  }

  lemma InfoIsRead(m: Info, v: nat, n: nat)
    requires 1 <= n <= 10 && v < Pow128(n)
    ensures Unmarshal([0x08] + Padded(v, n), InfoMsg(m)) == Parsed(InfoMsg(m.(totalValidators := ToInt32(v))))
    ensures Unmarshal([0x10] + Padded(v, n), InfoMsg(m)) == Parsed(InfoMsg(m.(votedYes := ToInt32(v))))
    ensures Unmarshal([0x18] + Padded(v, n), InfoMsg(m)) == Parsed(InfoMsg(m.(height := ToInt64(v))))
  {
    hide ReadVarint, ReadTag, Word, Padded, ToInt64, ToInt32;
    CutOnce(v);
    ScalarRead(0x08, v, n);
    OneStep([0x08] + Padded(v, n), InfoMsg(m), InfoMsg(m.(totalValidators := ToInt32(v))));
    ScalarRead(0x10, v, n);
    OneStep([0x10] + Padded(v, n), InfoMsg(m), InfoMsg(m.(votedYes := ToInt32(v))));
    ScalarRead(0x18, v, n);
    OneStep([0x18] + Padded(v, n), InfoMsg(m), InfoMsg(m.(height := ToInt64(v))));
  }

  /** The same for numbers as they are written, zero included. */
  lemma NumbersAreRead(c: Change, b: Block, m: Info, v: uint64)
    ensures Unmarshal([0x18] + Varint(v), ChangeMsg(c)) == Parsed(ChangeMsg(c.(isDeleted := v != 0)))
    ensures Unmarshal([0x08] + Varint(v), BlockMsg(b)) == Parsed(BlockMsg(b.(height := ToInt64(v))))
    ensures Unmarshal([0x08] + Varint(v), InfoMsg(m)) == Parsed(InfoMsg(m.(totalValidators := ToInt32(v))))
    ensures Unmarshal([0x10] + Varint(v), InfoMsg(m)) == Parsed(InfoMsg(m.(votedYes := ToInt32(v))))
    ensures Unmarshal([0x18] + Varint(v), InfoMsg(m)) == Parsed(InfoMsg(m.(height := ToInt64(v))))
  {
    hide Unmarshal, Padded, ToInt64, ToInt32;
    VarintIsPadded(v);
    Uint64Fits(v);
    FlagIsRead(c, v, |Varint(v)|);
    HeightIsRead(b, v, |Varint(v)|);
    InfoIsRead(m, v, |Varint(v)|);
  }

  /** Scalars take the last value present: of two records of one field the second counts, zero or not. */
  lemma LastValueWins(c: Change, b: Block, m: Info, u: uint64, v: uint64)
    ensures Unmarshal([0x18] + Varint(u) + ([0x18] + Varint(v)), ChangeMsg(c))
         == Parsed(ChangeMsg(c.(isDeleted := v != 0)))
    ensures Unmarshal([0x08] + Varint(u) + ([0x08] + Varint(v)), BlockMsg(b))
         == Parsed(BlockMsg(b.(height := ToInt64(v))))
    ensures Unmarshal([0x10] + Varint(u) + ([0x10] + Varint(v)), InfoMsg(m))
         == Parsed(InfoMsg(m.(votedYes := ToInt32(v))))
  {
    hide Unmarshal, Varint, ToInt64, ToInt32;
    Uint64Fits(u);
    Uint64Fits(v);
    var c1, b1, m1 := c.(isDeleted := u != 0), b.(height := ToInt64(u)), m.(votedYes := ToInt32(u));
    NumbersAreRead(c, b, m, u);
    NumbersAreRead(c1, b1, m1, v);
    Then([0x18] + Varint(u), [0x18] + Varint(v), ChangeMsg(c), ChangeMsg(c1), ChangeMsg(c.(isDeleted := v != 0)));
    Then([0x08] + Varint(u), [0x08] + Varint(v), BlockMsg(b), BlockMsg(b1), BlockMsg(b.(height := ToInt64(v))));
    Then([0x10] + Varint(u), [0x10] + Varint(v), InfoMsg(m), InfoMsg(m1), InfoMsg(m.(votedYes := ToInt32(v))));
  }

  // ---------- strings, entries and nested changes ----------

  lemma PayloadRead(tag: byte, body: Bytes)
    requires 8 <= tag < 128 && tag % 8 == 2 && |[tag] + Varint(|body|) + body| <= MAX_INT64
    ensures var s, lo := [tag] + Varint(|body|) + body, 1 + |Varint(|body|)|;
            && ReadTag(s, 0) == Tag(tag / 8, 2, 1) && ReadSpan(s, 1) == Span(lo, |s|) && s[lo..|s|] == body
  {
    assert [tag] + Varint(|body|) + body == Record(tag, body);
    RecordReadBack(tag, body);
  }

  /** Key and value of a change are replaced, an empty payload included. */
  lemma ChangeBytesAreRead(c: Change, body: Bytes)
    requires |[0x0a] + Varint(|body|) + body| <= MAX_INT64
    ensures Unmarshal([0x0a] + Varint(|body|) + body, ChangeMsg(c)) == Parsed(ChangeMsg(c.(key := body)))
    ensures Unmarshal([0x12] + Varint(|body|) + body, ChangeMsg(c)) == Parsed(ChangeMsg(c.(value := body)))
  {
    hide ReadSpan, ReadTag, Varint;
    PayloadRead(0x0a, body);
    OneStep([0x0a] + Varint(|body|) + body, ChangeMsg(c), ChangeMsg(c.(key := body)));
    PayloadRead(0x12, body);
    OneStep([0x12] + Varint(|body|) + body, ChangeMsg(c), ChangeMsg(c.(value := body)));
  }

  /** A validator is appended, an empty one included. */
  lemma ValidatorIsRead(b: Block, body: Bytes)
    requires |[0x12] + Varint(|body|) + body| <= MAX_INT64
    ensures Unmarshal([0x12] + Varint(|body|) + body, BlockMsg(b))
         == Parsed(BlockMsg(b.(validators := b.validators + [body])))
  {
    hide ReadSpan, ReadTag, Varint;
    PayloadRead(0x12, body);
    OneStep([0x12] + Varint(|body|) + body, BlockMsg(b), BlockMsg(b.(validators := b.validators + [body])));
  }

  /** Parsing one record that is refused at once. */
  lemma OneHalt(s: Bytes, m: Message, f: Failure, m': Message)
    requires s != [] && StepFrom(s, 0, m) == Halt(f, m')
    ensures Unmarshal(s, m) == Rejected(f, m')
  {
  }

  /** A nested change is parsed from its own bytes into a new last element. When they are refused, so is the
      block, with what was read of the change in the list. */
  lemma ChangeIsNested(b: Block, body: Bytes)
    requires |[0x22] + Varint(|body|) + body| <= MAX_INT64
    ensures var r := Unmarshal(body, ChangeMsg(Change([], [], false)));
            var m := BlockMsg(b.(changes := b.changes + [r.message.change]));
            Unmarshal([0x22] + Varint(|body|) + body, BlockMsg(b)) ==
            if r.Parsed? then Parsed(m) else Rejected(Because(Kind(r.failure)), m)
  {
    hide ReadSpan, ReadTag, Varint, ParseFrom;
    PayloadRead(0x22, body);
    var s := [0x22] + Varint(|body|) + body;
    var r := Unmarshal(body, ChangeMsg(Change([], [], false)));
    var m := BlockMsg(b.(changes := b.changes + [r.message.change]));
    if r.Parsed? {
      assert StepFrom(s, 0, BlockMsg(b)) == Next(m, |s|);
      OneStep(s, BlockMsg(b), m);
    } else {
      assert StepFrom(s, 0, BlockMsg(b)) == Halt(Because(Kind(r.failure)), m);
      OneHalt(s, BlockMsg(b), Because(Kind(r.failure)), m);
    }
  }

  /** A votes record sets the vote of the key that its entry yields. */
  lemma VoteIsRead(b: Block, body: Bytes)
    requires |[0x1a] + Varint(|body|) + body| <= MAX_INT64
    ensures var r := Unmarshal([0x1a] + Varint(|body|) + body, BlockMsg(b));
            match ReadEntry(body, 0, |body|, [], false)
            case Entry(key, vote) => r == Parsed(BlockMsg(b.(votes := b.votes[key := vote])))
            case NoEntry(f) => r == Rejected(Further(f, 1 + |Varint(|body|)|), BlockMsg(b))
  {
    hide ReadSpan, ReadTag, Varint, ReadEntry, Unmarshal, StepFrom;
    var s, n := [0x1a] + Varint(|body|) + body, 1 + |Varint(|body|)|;
    VoteStep(b, body);
    match ReadEntry(body, 0, |body|, [], false)
    case Entry(key, vote) =>
      OneStep(s, BlockMsg(b), BlockMsg(b.(votes := b.votes[key := vote])));
    case NoEntry(f) =>
      OneHalt(s, BlockMsg(b), Further(f, n), BlockMsg(b));
  }

  lemma VoteStep(b: Block, body: Bytes)
    requires |[0x1a] + Varint(|body|) + body| <= MAX_INT64
    ensures var s := [0x1a] + Varint(|body|) + body;
            match ReadEntry(body, 0, |body|, [], false)
            case Entry(key, vote) =>
              StepFrom(s, 0, BlockMsg(b)) == Next(BlockMsg(b.(votes := b.votes[key := vote])), |s|)
            case NoEntry(f) =>
              StepFrom(s, 0, BlockMsg(b)) == Halt(Further(f, 1 + |Varint(|body|)|), BlockMsg(b))
  {
    hide ReadSpan, ReadTag, Varint, ReadEntry;
    var a := [0x1a] + Varint(|body|);
    PayloadRead(0x1a, body);
    assert a + body == a + body + [];
    EntryWithin(a, body, [], 0, |body|, [], false);
  }

  /** An empty entry stands for the empty key and a vote against. */
  lemma EmptyEntry()
    ensures ReadEntry([], 0, 0, [], false) == Entry([], false)
  {
  }

  // ---------- inside a votes entry ----------

  lemma EntryFieldGrown(x: Bytes, y: Bytes, i: nat, j: nat, field: int, key: Bytes, vote: bool)
    requires |x + y| <= MAX_INT64 && i < j <= |x|
    requires ReadEntryField(x, i, j, field, |x|, key, vote).Part?
    ensures ReadEntryField(x + y, i, j, field, |x + y|, key, vote) == ReadEntryField(x, i, j, field, |x|, key, vote)
  {
    hide ReadVarint, ReadSpan, SkipField;
    assert [] + x + y == x + y;
    if field == 1 {
      SpanWithin([], x, y, j);
    } else if field == 2 {
      VarintWithin([], x, y, j);
    } else {
      SkipWithin([], x, y, i, |x|, |x + y|);
    }
  }

  /** Entries are read field by field: once x is a whole entry, x followed by y is y on top of it. */
  lemma {:induction false} EntryThen(x: Bytes, y: Bytes, i: nat, key: Bytes, vote: bool)
    requires |x + y| <= MAX_INT64 && i <= |x| && ReadEntry(x, i, |x|, key, vote).Entry?
    ensures var first := ReadEntry(x, i, |x|, key, vote);
            ReadEntry(x + y, i, |x + y|, key, vote) ==
            EntryMoved(ReadEntry(y, 0, |y|, first.key, first.vote), |x|)
    decreases |x| - i
  {
    hide ReadEntryField, ReadVarint, FieldNumber;
    if i == |x| {
      assert x + y + [] == x + y;
      EntryWithin(x, y, [], 0, |y|, key, vote);
    } else {
      assert [] + x + y == x + y;
      VarintWithin([], x, y, i);
      var Got(wire, j) := ReadVarint(x, i);
      EntryFieldGrown(x, y, i, j, FieldNumber(wire), key, vote);
      var part := ReadEntryField(x, i, j, FieldNumber(wire), |x|, key, vote);
      EntryThen(x, y, part.next, part.key, part.vote);
    }
  }

  lemma EntryStep(s: Bytes, key: Bytes, vote: bool, key': Bytes, vote': bool)
    requires s != [] && ReadVarint(s, 0).Got?
    requires ReadEntryField(s, 0, ReadVarint(s, 0).next, FieldNumber(ReadVarint(s, 0).value), |s|, key, vote)
          == Part(key', vote', |s|)
    ensures ReadEntry(s, 0, |s|, key, vote) == Entry(key', vote')
  {
    assert ReadEntry(s, |s|, |s|, key', vote') == Entry(key', vote');
  }

  lemma SmallFieldNumber(tag: byte)
    requires tag < 128
    ensures FieldNumber(tag) == tag / 8
  {
  }

  /** Field 1 of an entry is its key and field 2 its vote, whatever wire type their tags claim. */
  lemma EntryFields(tag1: byte, body: Bytes, tag2: byte, v: uint64, key: Bytes, vote: bool)
    requires 0x08 <= tag1 < 0x10 && 0x10 <= tag2 < 0x18 && |[tag1] + Varint(|body|) + body| <= MAX_INT64
    ensures var s := [tag1] + Varint(|body|) + body; ReadEntry(s, 0, |s|, key, vote) == Entry(body, vote)
    ensures var s := [tag2] + Varint(v); ReadEntry(s, 0, |s|, key, vote) == Entry(key, v != 0)
  {
    hide ReadVarint, Varint, ReadSpan, FieldNumber;
    SmallFieldNumber(tag1);
    SmallFieldNumber(tag2);
    var s := [tag1] + Varint(|body|) + body;
    OneByteVarint(s, 0);
    assert s == [tag1] + Varint(|body|) + body + [];
    SpanReadBack([tag1], body, []);
    EntryStep(s, key, vote, body, vote);
    var t := [tag2] + Varint(v);
    OneByteVarint(t, 0);
    assert t == [tag2] + Varint(v) + [];
    VarintReadBack([tag2], v, []);
    EntryStep(t, key, vote, key, v != 0);
  }

  /** Any other field of an entry is skipped whole. */
  lemma UnknownInEntry(f: Field, key: Bytes, vote: bool)
    requires Shaped(f) && f.number <= MAX_INT32 && f.number != 1 && f.number != 2 && |EncodeField(f)| <= MAX_INT64
    ensures var s := EncodeField(f); ReadEntry(s, 0, |s|, key, vote) == Entry(key, vote)
  {
    hide ReadVarint, Varint, SkipFrom, EncodeBody, Shaped, FieldNumber;
    var s := EncodeField(f);
    assert s + [] == s && s[0..] == s;
    WholeFieldSkipped(f, []);
    FieldStart(f);
    EntryStep(s, key, vote, key, vote);
  }

  lemma FieldStart(f: Field)
    requires Shaped(f) && f.number <= MAX_INT32
    ensures ReadVarint(EncodeField(f), 0).Got? && FieldNumber(ReadVarint(EncodeField(f), 0).value) == f.number
    ensures ReadVarint(EncodeField(f), 0).next <= |EncodeField(f)| && EncodeField(f) != []
  {
    WireFits(f);
    NumberFits(f);
    hide EncodeBody, ReadVarint, Varint, Shaped, FieldNumber;
    var wire := 8 * f.number + WireType(f.body);
    assert EncodeField(f) == [] + Varint(wire) + EncodeBody(f);
    VarintReadBack([], wire, EncodeBody(f));
  }

  // ---------- refusals ----------

  /** The wire type each known field must have: 0 for numbers, 2 for the rest. */
  function ExpectedType(m: Message, field: nat): byte {
    match m
    case BlockMsg(_) => if field == 1 then 0 else 2
    case ChangeMsg(_) => if field == 3 then 0 else 2
    case InfoMsg(_) => 0
  }

  /** A known field of another wire type is refused, and the message stays; 4 is refused everywhere. */
  lemma WrongTypeRefused(m: Message, field: nat, wireType: nat, rest: Bytes)
    requires 1 <= field && Known(m, field) && wireType < 8 && wireType != ExpectedType(m, field)
    ensures Unmarshal([8 * field + wireType] + rest, m)
         == Rejected(Because(if wireType == 4 then EndGroupForNonGroup else WrongWireType), m)
  {
    hide ReadVarint;
    var s := [8 * field + wireType] + rest;
    OneByteVarint(s, 0);
    SmallFieldNumber(8 * field + wireType);
    hide FieldNumber;
    assert StepFrom(s, 0, m) == Halt(Because(if wireType == 4 then EndGroupForNonGroup else WrongWireType), m);
  }

  /** Wire type 4 is refused whatever the field, then field number 0, and the wire types 6 and 7 of a field that
      is not known. */
  lemma IllegalTagsRefused(m: Message, field: nat, wireType: nat, rest: Bytes)
    requires field < 16 && wireType < 8
    ensures wireType == 4 ==> Unmarshal([8 * field + wireType] + rest, m) == Rejected(Because(EndGroupForNonGroup), m)
    ensures field == 0 && wireType != 4 ==>
              Unmarshal([8 * field + wireType] + rest, m) == Rejected(Because(IllegalTag), m)
    ensures field > 0 && !Known(m, field) && wireType >= 6 ==>
              Unmarshal([8 * field + wireType] + rest, m) == Rejected(Because(IllegalWireType), m)
  {
    hide ReadVarint;
    var s := [8 * field + wireType] + rest;
    OneByteVarint(s, 0);
    SmallFieldNumber(8 * field + wireType);
    hide FieldNumber;
    if wireType == 4 {
      assert StepFrom(s, 0, m) == Halt(Because(EndGroupForNonGroup), m);
    } else if field == 0 {
      assert StepFrom(s, 0, m) == Halt(Because(IllegalTag), m);
    } else if field > 0 && !Known(m, field) && wireType >= 6 {
      assert s[0..] == s;
      assert SkipFrom(s, 0, 0) == NoSkip(Because(IllegalWireType));
      assert StepFrom(s, 0, m) == Halt(Because(IllegalWireType), m);
    }
  }

  /** An unknown field that is cut short is refused, wherever it is cut, and the message stays. */
  lemma CutFieldRefused(f: Field, m: Message, cut: nat)
    requires Shaped(f) && f.number <= MAX_INT32 && !Known(m, f.number) && |EncodeField(f)| <= MAX_INT64
    requires 0 < cut < |EncodeField(f)|
    ensures var r := Unmarshal(EncodeField(f)[..cut], m); r.Rejected? && r.message == m
  {
    hide SkipFrom, EncodeBody, ReadVarint, Shaped, EncodeField;
    var s := EncodeField(f);
    var x, y := s[..cut], s[cut..];
    assert x + y == s && s + [] == s && x[0..] == x;
    WholeFieldSkipped(f, []);
    if SkipFrom(x, 0, 0).SkippedTo? {
      SkipOfPrefix(x, y, 0, 0);
    }
    CutTag(f, x, y);
    var t := ReadTag(x, 0);
    assert t.Tag? ==> t.field == f.number;
    assert SkipField(x, 0, |x|).NoSkip?;
    assert StepFrom(x, 0, m).Halt? && StepFrom(x, 0, m).message == m;
  }

  lemma CutTag(f: Field, x: Bytes, y: Bytes)
    requires Shaped(f) && f.number <= MAX_INT32 && EncodeField(f) == x + y
    ensures ReadTag(x, 0).Tag? ==> ReadTag(x, 0).field == f.number
  {
    hide EncodeField;
    FieldStart(f);
    if ReadVarint(x, 0).Got? {
      DigitsOfPrefix(x, y, 0, 0);
    }
  }

  // ---------- records that break off ----------

  lemma BrokenRead(tag: byte, v: nat, k: nat, b: Bytes)
    requires 8 <= tag < 128 && tag % 8 == 0 && v < Pow128(k) && k <= 10 && (b == [] || k == 10)
    ensures var s := [tag] + Broken(v, k) + b;
            && ReadTag(s, 0) == Tag(tag / 8, 0, 1)
            && ReadVarint(s, 1) == Bad(if k == 10 then IntOverflow else UnexpectedEOF) && Word(s, 1) == v % TWO_64
  {
    var s := [tag] + Broken(v, k) + b;
    assert s == [tag] + (Broken(v, k) + b);
    TagReadBack(tag, Broken(v, k) + b);
    BrokenDigits([tag], v, k, b, 0);
  }

  /** A number that breaks off after k digits leaves these in the field, but for the deletion flag, which stays. */
  lemma BrokenNumbers(c: Change, bl: Block, m: Info, v: nat, k: nat, b: Bytes)
    requires v < Pow128(k) && k <= 10 && (b == [] || k == 10)
    ensures var f := Because(if k == 10 then IntOverflow else UnexpectedEOF);
            && Unmarshal([0x18] + Broken(v, k) + b, ChangeMsg(c)) == Rejected(f, ChangeMsg(c))
            && Unmarshal([0x08] + Broken(v, k) + b, BlockMsg(bl)) == Rejected(f, BlockMsg(bl.(height := ToInt64(v))))
            && Unmarshal([0x08] + Broken(v, k) + b, InfoMsg(m)) ==
               Rejected(f, InfoMsg(m.(totalValidators := ToInt32(v))))
            && Unmarshal([0x10] + Broken(v, k) + b, InfoMsg(m)) == Rejected(f, InfoMsg(m.(votedYes := ToInt32(v))))
            && Unmarshal([0x18] + Broken(v, k) + b, InfoMsg(m)) == Rejected(f, InfoMsg(m.(height := ToInt64(v))))
  {
    hide ReadVarint, ReadTag, Word, Broken, ToInt64, ToInt32;
    var f := Because(if k == 10 then IntOverflow else UnexpectedEOF);
    CutOnce(v);
    BrokenRead(0x18, v, k, b);
    OneHalt([0x18] + Broken(v, k) + b, ChangeMsg(c), f, ChangeMsg(c));
    OneHalt([0x18] + Broken(v, k) + b, InfoMsg(m), f, InfoMsg(m.(height := ToInt64(v))));
    BrokenRead(0x08, v, k, b);
    OneHalt([0x08] + Broken(v, k) + b, BlockMsg(bl), f, BlockMsg(bl.(height := ToInt64(v))));
    OneHalt([0x08] + Broken(v, k) + b, InfoMsg(m), f, InfoMsg(m.(totalValidators := ToInt32(v))));
    BrokenRead(0x10, v, k, b);
    OneHalt([0x10] + Broken(v, k) + b, InfoMsg(m), f, InfoMsg(m.(votedYes := ToInt32(v))));
  }

  /** A record that announces more bytes than there are is refused, and the message stays. */
  lemma ShortRecords(m: Message, field: nat, n: uint64, body: Bytes)
    requires 1 <= field && Known(m, field) && ExpectedType(m, field) == 2 && |body| < n
    ensures Unmarshal([8 * field + 2] + Varint(n) + body, m)
         == Rejected(if n >= 0x8000_0000_0000_0000 then Because(InvalidLength) else PastEnd(1 + |Varint(n)| + n), m)
  {
    hide ReadVarint, Varint, ReadTag;
    var tag: byte := 8 * field + 2;
    var s := [tag] + Varint(n) + body;
    assert s == [tag] + (Varint(n) + body);
    TagReadBack(tag, Varint(n) + body);
    VarintReadBack([tag], n, body);
    var f := if n >= TWO_63 then Because(InvalidLength) else PastEnd(1 + |Varint(n)| + n);
    assert ReadSpan(s, 1) == NoSpan(f);
    hide ReadSpan;
    assert StepFrom(s, 0, m) == Halt(f, m);
  }

  /** So is one of an unknown field. There the end is looked at before it is compared with the input. */
  lemma ShortUnknownRecords(m: Message, field: nat, n: uint64, body: Bytes)
    requires 1 <= field < 16 && !Known(m, field) && |body| < n
    ensures var end := 1 + |Varint(n)| + n;
            Unmarshal([8 * field + 2] + Varint(n) + body, m) ==
            Rejected(if end >= 0x8000_0000_0000_0000 then Because(InvalidLength) else PastEnd(end), m)
  {
    hide ReadVarint, Varint, SkipFrom;
    var tag: byte := 8 * field + 2;
    var s := [tag] + Varint(n) + body;
    assert s == [tag] + (Varint(n) + body) && s[0..] == s;
    ShortSkipped(tag, n, body);
    TagReadBack(tag, Varint(n) + body);
    hide ReadTag;
    var end := 1 + |Varint(n)| + n;
    assert StepFrom(s, 0, m) == Halt(if end >= TWO_63 then Because(InvalidLength) else PastEnd(end), m);
  }

  /** skipState takes the announced length for granted. */
  lemma ShortSkipped(tag: byte, n: uint64, body: Bytes)
    requires tag < 128 && tag % 8 == 2
    ensures var end := 1 + |Varint(n)| + n;
            SkipFrom([tag] + Varint(n) + body, 0, 0) ==
            if end >= 0x8000_0000_0000_0000 then NoSkip(Because(InvalidLength)) else SkippedTo(end)
  {
    hide ReadVarint, Varint;
    OneByteVarint([tag] + Varint(n) + body, 0);
    VarintReadBack([tag], n, body);
  }

  // ---------- tags ----------

  /** A tag in any form, padded or with more bits than a field number has: the wire type is its low three bits, the
      field number the 32 bits above them as a signed number. */
  lemma TagIsRead(a: Bytes, wire: uint64, n: nat, b: Bytes)
    requires 1 <= n <= 10 && wire < Pow128(n)
    ensures var t, field := ReadTag(a + Padded(wire, n) + b, |a|), ToInt32(wire / 8);
            if wire % 8 == 4 then t == NoTag(EndGroupForNonGroup)
            else if field <= 0 then t == NoTag(IllegalTag)
            else t == Tag(field, wire % 8, |a| + n)
  {
    hide ReadVarint, Padded, ToInt32;
    PaddedReadBack(a, wire, n, b);
    assert ReadVarint(a + Padded(wire, n) + b, |a|) == Got(wire, |a| + n);
  }
}
