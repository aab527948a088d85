/** What Marshal writes, Unmarshal reads back. */
module RoundTrip {
  import opened Bytes
  import opened Varints
  import opened Wire
  import opened WireLaws

  // ---------- single records ----------

  lemma OneByteVarint(s: Bytes, i: nat)
    requires i < |s| && s[i] < 128
    ensures ReadVarint(s, i) == Got(s[i], i + 1)
  {
  }

  lemma SpanReadBack(a: Bytes, body: Bytes, b: Bytes)
    requires |a + Varint(|body|) + body + b| <= MAX_INT64
    ensures var s := a + Varint(|body|) + body + b;
            var lo := |a| + |Varint(|body|)|;
            ReadSpan(s, |a|) == Span(lo, lo + |body|) && s[lo..lo + |body|] == body
  {
    assert a + Varint(|body|) + body + b == a + Varint(|body|) + (body + b);
    VarintReadBack(a, |body|, body + b);
  }

  lemma TagReadBack(tag: byte, rest: Bytes)
    requires 8 <= tag < 128 && tag % 8 != 4
    ensures ReadTag([tag] + rest, 0) == Tag(tag / 8, tag % 8, 1)
  {
    OneByteVarint([tag] + rest, 0);
  }

  lemma RecordReadBack(tag: byte, body: Bytes)
    requires 8 <= tag < 128 && tag % 8 == 2 && |Record(tag, body)| <= MAX_INT64
    ensures ReadTag(Record(tag, body), 0) == Tag(tag / 8, 2, 1)
    ensures ReadSpan(Record(tag, body), 1) == Span(1 + |Varint(|body|)|, |Record(tag, body)|)
    ensures Record(tag, body)[1 + |Varint(|body|)|..|Record(tag, body)|] == body
  {
    var s := Record(tag, body);
    assert s == [tag] + (Varint(|body|) + body);
    TagReadBack(tag, Varint(|body|) + body);
    assert s == [tag] + Varint(|body|) + body + [];
    SpanReadBack([tag], body, []);
  }

  lemma IntRecordReadBack(tag: byte, v: int)
    requires 8 <= tag < 128 && tag % 8 == 0 && v != 0
    ensures ReadTag(IntRecord(tag, v), 0) == Tag(tag / 8, 0, 1)
    ensures ReadVarint(IntRecord(tag, v), 1) == Got(ToUint64(v), |IntRecord(tag, v)|)
  {
    TagReadBack(tag, Varint(ToUint64(v)));
    assert IntRecord(tag, v) == [tag] + Varint(ToUint64(v)) + [];
    VarintReadBack([tag], ToUint64(v), []);
  }

  // ---------- StateChange and ConsensusInfo ----------

  /** Parsing one record that takes a single step. */
  lemma OneStep(s: Bytes, m: Message, m': Message)
    requires s != [] && StepFrom(s, 0, m) == Next(m', |s|)
    ensures Unmarshal(s, m) == Parsed(m')
  {
    assert ParseFrom(s, |s|, m') == Parsed(m');
    assert ParseFrom(s, 0, m) == ParseFrom(s, |s|, m');
  }

  lemma Then(x: Bytes, y: Bytes, m: Message, m1: Message, m2: Message)
    requires |x + y| <= MAX_INT64
    requires Unmarshal(x, m) == Parsed(m1) && Unmarshal(y, m1) == Parsed(m2)
    ensures Unmarshal(x + y, m) == Parsed(m2)
  {
    hide Unmarshal;
    ConcatenationIsMerge(x, y, m);
  }

  lemma ChangeKeyReadBack(body: Bytes, c: Change)
    requires |BytesRecord(0x0a, body)| <= MAX_INT64
    ensures Unmarshal(BytesRecord(0x0a, body), ChangeMsg(c))
         == Parsed(ChangeMsg(if body == [] then c else c.(key := body)))
  {
    if body != [] {
      RecordReadBack(0x0a, body);
      OneStep(Record(0x0a, body), ChangeMsg(c), ChangeMsg(c.(key := body)));
    }
  }

  lemma ChangeValueReadBack(body: Bytes, c: Change)
    requires |BytesRecord(0x12, body)| <= MAX_INT64
    ensures Unmarshal(BytesRecord(0x12, body), ChangeMsg(c))
         == Parsed(ChangeMsg(if body == [] then c else c.(value := body)))
  {
    if body != [] {
      RecordReadBack(0x12, body);
      OneStep(Record(0x12, body), ChangeMsg(c), ChangeMsg(c.(value := body)));
    }
  }

  lemma ChangeFlagReadBack(c: Change)
    ensures Unmarshal([0x18, 1], ChangeMsg(c)) == Parsed(ChangeMsg(c.(isDeleted := true)))
  {
    TagReadBack(0x18, [1]);
    var s: Bytes := [0x18] + [1];
    assert s == [0x18, 1];
    OneByteVarint([0x18, 1], 1);
    OneStep([0x18, 1], ChangeMsg(c), ChangeMsg(c.(isDeleted := true)));
  }

  lemma ChangeReadBack(c: Change)
    requires |EncodeChange(c)| <= MAX_INT64
    ensures Unmarshal(EncodeChange(c), ChangeMsg(EMPTY_CHANGE)) == Parsed(ChangeMsg(c))
  {
    hide Unmarshal, BytesRecord;
    var k, v := BytesRecord(0x0a, c.key), BytesRecord(0x12, c.value);
    var c1 := Change(c.key, [], false);
    var c2 := Change(c.key, c.value, false);
    ChangeKeyReadBack(c.key, EMPTY_CHANGE);
    ChangeValueReadBack(c.value, c1);
    Then(k, v, ChangeMsg(EMPTY_CHANGE), ChangeMsg(c1), ChangeMsg(c2));
    if c.isDeleted {
      ChangeFlagReadBack(c2);
      Then(k + v, [0x18, 1], ChangeMsg(EMPTY_CHANGE), ChangeMsg(c2), ChangeMsg(c));
    } else {
      assert EncodeChange(c) == k + v;
    }
  }

  lemma InfoReadBack(m: Info)
    ensures Unmarshal(EncodeInfo(m), InfoMsg(EMPTY_INFO)) == Parsed(InfoMsg(m))
  {
    hide Unmarshal, IntRecord;
    var a, b, c := IntRecord(0x08, m.totalValidators), IntRecord(0x10, m.votedYes), IntRecord(0x18, m.height);
    var m1, m2 := Info(m.totalValidators, 0, 0), Info(m.totalValidators, m.votedYes, 0);
    InfoFieldsReadBack(m);
    Then(a, b, InfoMsg(EMPTY_INFO), InfoMsg(m1), InfoMsg(m2));
    Then(a + b, c, InfoMsg(EMPTY_INFO), InfoMsg(m2), InfoMsg(m));
  }

  lemma InfoFieldsReadBack(m: Info)
    ensures var m1, m2 := Info(m.totalValidators, 0, 0), Info(m.totalValidators, m.votedYes, 0);
            && Unmarshal(IntRecord(0x08, m.totalValidators), InfoMsg(EMPTY_INFO)) == Parsed(InfoMsg(m1))
            && Unmarshal(IntRecord(0x10, m.votedYes), InfoMsg(m1)) == Parsed(InfoMsg(m2))
            && Unmarshal(IntRecord(0x18, m.height), InfoMsg(m2)) == Parsed(InfoMsg(m))
    ensures |EncodeInfo(m)| <= 33
  {
    var m1, m2 := Info(m.totalValidators, 0, 0), Info(m.totalValidators, m.votedYes, 0);
    IntRecordFits(0x08, m.totalValidators);
    IntRecordFits(0x10, m.votedYes);
    IntRecordFits(0x18, m.height);
    SignedFieldsReadBack(m.height, m.totalValidators);
    SignedFieldsReadBack(m.height, m.votedYes);
    if m.totalValidators != 0 {
      IntRecordReadBack(0x08, m.totalValidators);
      OneStep(IntRecord(0x08, m.totalValidators), InfoMsg(EMPTY_INFO), InfoMsg(m1));
    }
    if m.votedYes != 0 {
      IntRecordReadBack(0x10, m.votedYes);
      OneStep(IntRecord(0x10, m.votedYes), InfoMsg(m1), InfoMsg(m2));
    }
    if m.height != 0 {
      IntRecordReadBack(0x18, m.height);
      OneStep(IntRecord(0x18, m.height), InfoMsg(m2), InfoMsg(m));
    }
  }

  lemma IntRecordFits(tag: byte, v: int)
    ensures |IntRecord(tag, v)| <= 11
  {
    Uint64Fits(ToUint64(v));
  }

  // ---------- BlockState ----------

  /** What parsing an encoded block b on top of base yields: lists append, votes and a nonzero height win. */
  function Merged(base: Block, b: Block): Block {
    Block(if b.height == 0 then base.height else b.height,
          base.validators + b.validators, base.votes + b.votes, base.changes + b.changes)
  }

  lemma HeightReadBack(h: int64, b: Block)
    ensures Unmarshal(IntRecord(0x08, h), BlockMsg(b)) == Parsed(BlockMsg(if h == 0 then b else b.(height := h)))
  {
    if h != 0 {
      SignedFieldsReadBack(h, 0);
      IntRecordReadBack(0x08, h);
      OneStep(IntRecord(0x08, h), BlockMsg(b), BlockMsg(b.(height := h)));
    }
  }

  lemma ValidatorReadBack(v: Bytes, b: Block)
    requires |Record(0x12, v)| <= MAX_INT64
    ensures Unmarshal(Record(0x12, v), BlockMsg(b)) == Parsed(BlockMsg(b.(validators := b.validators + [v])))
  {
    RecordReadBack(0x12, v);
    OneStep(Record(0x12, v), BlockMsg(b), BlockMsg(b.(validators := b.validators + [v])));
  }

  lemma {:induction false} ValidatorsReadBack(vs: seq<Bytes>, b: Block)
    requires |EncodeValidators(vs)| <= MAX_INT64
    ensures Unmarshal(EncodeValidators(vs), BlockMsg(b)) == Parsed(BlockMsg(b.(validators := b.validators + vs)))
    decreases vs
  {
    hide Unmarshal, Record;
    if vs == [] {
      EmptyInput(BlockMsg(b));
      assert b.validators + vs == b.validators;
    } else {
      var b1 := b.(validators := b.validators + [vs[0]]);
      var b2 := b.(validators := b.validators + vs);
      ValidatorReadBack(vs[0], b);
      ValidatorsReadBack(vs[1..], b1);
      assert b1.validators + vs[1..] == b2.validators;
      Then(Record(0x12, vs[0]), EncodeValidators(vs[1..]), BlockMsg(b), BlockMsg(b1), BlockMsg(b2));
    }
  }

  lemma EmptyInput(m: Message)
    ensures Unmarshal([], m) == Parsed(m)
  {
  }

  lemma EntryReadBack(key: Bytes, vote: bool)
    requires |VoteEntry(key, vote)| <= MAX_INT64
    ensures var e := VoteEntry(key, vote); ReadEntry(e, 0, |e|, [], false) == Entry(key, vote)
  {
    hide ReadVarint, ReadEntryField;
    var e := VoteEntry(key, vote);
    var a := [0x0a] + Varint(|key|) + key;
    assert e == a + [0x10, if vote then 1 else 0];
    OneByteVarint(e, 0);
    EntryKeyReadBack(key, vote);
    EntryVoteReadBack(a, vote, key);
    assert ReadEntry(e, 0, |e|, [], false) == ReadEntry(e, |a|, |e|, key, false);
  }

  lemma EntryKeyReadBack(key: Bytes, vote: bool)
    requires |VoteEntry(key, vote)| <= MAX_INT64
    ensures var e, n := VoteEntry(key, vote), |[0x0a] + Varint(|key|) + key|;
            ReadEntryField(e, 0, 1, 1, |e|, [], false) == Part(key, false, n)
  {
    hide ReadSpan, Varint;
    var flag: Bytes := [0x10, if vote then 1 else 0];
    assert VoteEntry(key, vote) == [0x0a] + Varint(|key|) + key + flag;
    SpanReadBack([0x0a], key, flag);
  }

  lemma EntryVoteReadBack(a: Bytes, vote: bool, key: Bytes)
    ensures var e := a + [0x10, if vote then 1 else 0];
            ReadEntry(e, |a|, |e|, key, false) == Entry(key, vote)
  {
    var e := a + [0x10, if vote then 1 else 0];
    OneByteVarint(e, |a|);
    OneByteVarint(e, |a| + 1);
    assert ReadEntry(e, |a|, |e|, key, false) == ReadEntry(e, |e|, |e|, key, vote);
  }

  lemma VoteReadBack(key: Bytes, vote: bool, b: Block)
    requires |Record(0x1a, VoteEntry(key, vote))| <= MAX_INT64
    ensures Unmarshal(Record(0x1a, VoteEntry(key, vote)), BlockMsg(b))
         == Parsed(BlockMsg(b.(votes := b.votes[key := vote])))
  {
    hide VoteEntry, ReadEntry;
    var e := VoteEntry(key, vote);
    var s := Record(0x1a, e);
    var a := [0x1a] + Varint(|e|);
    RecordReadBack(0x1a, e);
    EntryReadBack(key, vote);
    EntryWithin(a, e, [], 0, |e|, [], false);
    assert a + e + [] == s;
    OneStep(s, BlockMsg(b), BlockMsg(b.(votes := b.votes[key := vote])));
  }

  function Only(votes: map<Bytes, bool>, keys: seq<Bytes>): map<Bytes, bool>
    requires forall k :: k in keys ==> k in votes
  {
    map k | k in keys :: votes[k]
  }

  lemma OnlyNone(base: map<Bytes, bool>, votes: map<Bytes, bool>)
    ensures base + Only(votes, []) == base
  {
  }

  lemma OnlyOneMore(base: map<Bytes, bool>, votes: map<Bytes, bool>, init: seq<Bytes>, k: Bytes)
    requires forall key :: key in init + [k] ==> key in votes
    ensures k in votes && forall key :: key in init ==> key in votes
    ensures base[k := votes[k]] + Only(votes, init) == base + Only(votes, init + [k])
  {
    assert forall key :: key in init + [k] <==> key in init || key == k;
  }

  lemma {:induction false} VotesReadBack(votes: map<Bytes, bool>, order: seq<Bytes>, b: Block)
    requires forall k :: k in order ==> k in votes
    requires |EncodeVotes(votes, order)| <= MAX_INT64
    ensures Unmarshal(EncodeVotes(votes, order), BlockMsg(b))
         == Parsed(BlockMsg(b.(votes := b.votes + Only(votes, order))))
    decreases |order|
  {
    hide Unmarshal, Record, Only;
    if order == [] {
      EmptyInput(BlockMsg(b));
      OnlyNone(b.votes, votes);
    } else {
      var init, k := order[..|order| - 1], order[|order| - 1];
      assert order == init + [k];
      OnlyOneMore(b.votes, votes, init, k);
      var b1 := b.(votes := b.votes[k := votes[k]]);
      var b2 := b.(votes := b.votes + Only(votes, order));
      VoteReadBack(k, votes[k], b);
      VotesReadBack(votes, init, b1);
      Then(Record(0x1a, VoteEntry(k, votes[k])), EncodeVotes(votes, init),
           BlockMsg(b), BlockMsg(b1), BlockMsg(b2));
    }
  }

  lemma ChangeRecordReadBack(c: Change, b: Block)
    requires |Record(0x22, EncodeChange(c))| <= MAX_INT64
    ensures Unmarshal(Record(0x22, EncodeChange(c)), BlockMsg(b))
         == Parsed(BlockMsg(b.(changes := b.changes + [c])))
  {
    hide EncodeChange;
    var e := EncodeChange(c);
    RecordReadBack(0x22, e);
    ChangeReadBack(c);
    OneStep(Record(0x22, e), BlockMsg(b), BlockMsg(b.(changes := b.changes + [c])));
  }

  lemma {:induction false} ChangesReadBack(cs: seq<Change>, b: Block)
    requires |EncodeChanges(cs)| <= MAX_INT64
    ensures Unmarshal(EncodeChanges(cs), BlockMsg(b)) == Parsed(BlockMsg(b.(changes := b.changes + cs)))
    decreases |cs|
  {
    hide Unmarshal, Record;
    if cs == [] {
      EmptyInput(BlockMsg(b));
      assert b.changes + cs == b.changes;
    } else {
      var b1 := b.(changes := b.changes + [cs[0]]);
      var b2 := b.(changes := b.changes + cs);
      ChangeRecordReadBack(cs[0], b);
      ChangesReadBack(cs[1..], b1);
      assert b1.changes + cs[1..] == b2.changes;
      Then(Record(0x22, EncodeChange(cs[0])), EncodeChanges(cs[1..]), BlockMsg(b), BlockMsg(b1), BlockMsg(b2));
    }
  }

  /** Parsing an encoded block on top of any block merges the two, whatever the iteration order was. */
  lemma BlockMerges(b: Block, order: seq<Bytes>, base: Block)
    requires IsOrder(order, b.votes) && |EncodeBlock(b, order)| <= MAX_INT64
    ensures Unmarshal(EncodeBlock(b, order), BlockMsg(base)) == Parsed(BlockMsg(Merged(base, b)))
  {
    hide Unmarshal, IntRecord, EncodeValidators, EncodeVotes, EncodeChanges;
    var h, v := IntRecord(0x08, b.height), EncodeValidators(b.validators);
    var w, c := EncodeVotes(b.votes, order), EncodeChanges(b.changes);
    var m1 := if b.height == 0 then base else base.(height := b.height);
    var m2 := m1.(validators := m1.validators + b.validators);
    var m3 := m2.(votes := m2.votes + b.votes);
    var m4 := m3.(changes := m3.changes + b.changes);
    HeightReadBack(b.height, base);
    ValidatorsReadBack(b.validators, m1);
    VotesReadBack(b.votes, order, m2);
    assert Only(b.votes, order) == b.votes;
    ChangesReadBack(b.changes, m3);
    Then(h, v, BlockMsg(base), BlockMsg(m1), BlockMsg(m2));
    Then(h + v, w, BlockMsg(base), BlockMsg(m2), BlockMsg(m3));
    Then(h + v + w, c, BlockMsg(base), BlockMsg(m3), BlockMsg(m4));
  }

  /** The round trip: a fresh BlockState reads back exactly what was written. */
  lemma BlockRoundTrip(b: Block, order: seq<Bytes>)
    requires IsOrder(order, b.votes) && |EncodeBlock(b, order)| <= MAX_INT64
    ensures Unmarshal(EncodeBlock(b, order), BlockMsg(EMPTY_BLOCK)) == Parsed(BlockMsg(b))
  {
    BlockMerges(b, order, EMPTY_BLOCK);
    assert map[] + b.votes == b.votes;
    assert [] + b.validators == b.validators && [] + b.changes == b.changes;
  }

  // ---------- two limits, reached ----------

  /** A votes entry whose key runs past its end is refused as the last field, and accepted when more bytes
      follow, which are then read twice. */
  lemma EntryCanOverrun()
    ensures Unmarshal([0x1a, 2, 0x0a, 3], BlockMsg(EMPTY_BLOCK)) == Rejected(PastEnd(7), BlockMsg(EMPTY_BLOCK))
    ensures Unmarshal([0x1a, 2, 0x0a, 3, 0x12, 1, 0x41], BlockMsg(EMPTY_BLOCK))
         == Parsed(BlockMsg(Block(0, [[0x41]], map[[0x12, 1, 0x41] := false], [])))
  {
    var x: Bytes, s: Bytes := [0x1a, 2, 0x0a, 3], [0x1a, 2, 0x0a, 3, 0x12, 1, 0x41];
    OverrunHead(x);
    assert ReadSpan(x, 3) == NoSpan(PastEnd(7)) by { OneByteVarint(x, 3); }
    assert ReadEntry(x, 2, 4, [], false) == NoEntry(PastEnd(7));
    OverrunTogether(s);
  }

  /** The first three bytes: a votes record of two bytes, which begins with a key. */
  lemma OverrunHead(s: Bytes)
    requires |s| >= 4 && s[..4] == [0x1a, 2, 0x0a, 3]
    ensures ReadTag(s, 0) == Tag(3, 2, 1) && ReadSpan(s, 1) == Span(2, 4) && ReadVarint(s, 2) == Got(0x0a, 3)
  {
    assert s[0] == s[..4][0] && s[1] == s[..4][1] && s[2] == s[..4][2];
    OneByteVarint(s, 0);
    OneByteVarint(s, 1);
    OneByteVarint(s, 2);
  }

  lemma OverrunEntry(s: Bytes)
    requires s == [0x1a, 2, 0x0a, 3, 0x12, 1, 0x41]
    ensures ReadEntry(s, 2, 4, [], false) == Entry([0x12, 1, 0x41], false)
  {
    OverrunHead(s);
    OneByteVarint(s, 3);
    hide ReadVarint;
    var key: Bytes := [0x12, 1, 0x41];
    assert s[4..7] == key;
    assert ReadEntryField(s, 2, 3, 1, 4, [], false) == Part(key, false, 7);
    assert ReadEntry(s, 7, 4, key, false) == Entry(key, false);
  }

  lemma OverrunTogether(s: Bytes)
    requires s == [0x1a, 2, 0x0a, 3, 0x12, 1, 0x41]
    ensures Unmarshal(s, BlockMsg(EMPTY_BLOCK))
         == Parsed(BlockMsg(Block(0, [[0x41]], map[[0x12, 1, 0x41] := false], [])))
  {
    var key: Bytes, b1 := [0x12, 1, 0x41], Block(0, [], map[[0x12, 1, 0x41] := false], []);
    assert StepFrom(s, 0, BlockMsg(EMPTY_BLOCK)) == Next(BlockMsg(b1), 4) by {
      OverrunHead(s);
      OverrunEntry(s);
    }
    assert ParseFrom(s, 4, BlockMsg(b1)) == Parsed(BlockMsg(b1.(validators := [[0x41]]))) by {
      ValidatorReadBack([0x41], b1);
      assert Record(0x12, [0x41]) == key;
      var head: Bytes := [0x1a, 2, 0x0a, 3];
      assert s == head + key;
      ParseOfSuffix(head, key, 0, BlockMsg(b1));
    }
  }

  /** The kind of an error does depend on what came before for some inputs: here a record that would end
      at 2^63 - 1 comes after two more bytes. */
  lemma FailureKindCanMove()
    ensures exists x, y, m, m' ::
              && Unmarshal(x, m) == Parsed(m') && Unmarshal(y, m').Rejected? && Unmarshal(x + y, m).Rejected?
              && Kind(Unmarshal(y, m').failure) == UnexpectedEOF
              && Kind(Unmarshal(x + y, m).failure) == InvalidLength
  {
    var x: Bytes, y: Bytes := [0x08, 0], [0x12] + Varint(MAX_INT64 - 10);
    var m := BlockMsg(EMPTY_BLOCK);
    assert Unmarshal(x, m) == Parsed(m) by {
      OneByteVarint(x, 0);
      OneByteVarint(x, 1);
      OneStep(x, m, m);
    }
    assert |y| == 10 && Unmarshal(y, m) == Rejected(PastEnd(MAX_INT64), m) by {
      HugeValidator(y, m);
    }
    FailureKindMoves(x, y, m);
    hide Unmarshal;
  }

  lemma HugeLength()
    ensures |Varint(MAX_INT64 - 10)| == 9
  {
    Pow128Values();
    VarintLengthBound(MAX_INT64 - 10, 9);
    assert Pow128(9) == 128 * Pow128(8);
    VarintAtLeast(MAX_INT64 - 10, 8);
  }

  /** A validator's record, cut off after its length. */
  lemma HugeValidator(s: Bytes, m: Message)
    requires m.BlockMsg? && s == [0x12] + Varint(MAX_INT64 - 10)
    ensures |s| == 10 && Unmarshal(s, m) == Rejected(PastEnd(MAX_INT64), m)
  {
    hide ReadVarint, Varint;
    HugeLength();
    assert s == [0x12] + Varint(MAX_INT64 - 10) + [];
    VarintReadBack([0x12], MAX_INT64 - 10, []);
    TagReadBack(0x12, Varint(MAX_INT64 - 10));
    assert StepFrom(s, 0, m) == Halt(PastEnd(MAX_INT64), m);
  }
}
