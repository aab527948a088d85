/** The form of what is written: which records, in which order, and what is left out. */
module WireForm {
  import opened Bytes
  import opened Varints
  import opened Wire
  import opened WireLaws
  import opened RoundTrip

  /** The field numbers of the records that Unmarshal meets from i on, up to one that it refuses. */
  function FieldsFrom(s: Bytes, i: nat, m: Message): seq<int>
    requires i <= |s|
    decreases |s| - i
  {
    if i == |s| then []
    else
      match StepFrom(s, i, m)
      case Halt(_, _) => []
      case Next(m', next) => [ReadTag(s, i).field] + FieldsFrom(s, next, m')
  }

  lemma {:induction false} FieldsOfSuffix(x: Bytes, y: Bytes, i: nat, m: Message)
    requires |x + y| <= MAX_INT64 && i <= |y|
    ensures FieldsFrom(x + y, |x| + i, m) == FieldsFrom(y, i, m)
    decreases |y| - i
  {
    hide StepFrom, ReadTag;
    if i < |y| {
      assert x + y + [] == x + y;
      StepWithin(x, y, [], i, m);
      match StepFrom(y, i, m)
      case Halt(_, _) =>
      case Next(m', next) =>
        TagRead(y, i, m);
        TagWithin(x, y, [], i);
        FieldsOfSuffix(x, y, next, m');
    }
  }

  lemma TagRead(s: Bytes, i: nat, m: Message)
    requires i < |s| && StepFrom(s, i, m).Next?
    ensures ReadTag(s, i).Tag?
  {
  }

  lemma {:induction false} FieldsOfPrefix(x: Bytes, y: Bytes, i: nat, m: Message)
    requires |x + y| <= MAX_INT64 && i <= |x| && ParseFrom(x, i, m).Parsed?
    ensures FieldsFrom(x + y, i, m) == FieldsFrom(x, i, m) + FieldsFrom(y, 0, ParseFrom(x, i, m).message)
    decreases |x| - i
  {
    hide StepFrom, ReadTag;
    if i == |x| {
      FieldsOfSuffix(x, y, 0, m);
    } else {
      assert [] + x + y == x + y;
      StepWithin([], x, y, i, m);
      TagRead(x, i, m);
      TagWithin([], x, y, i);
      var Next(m', next) := StepFrom(x, i, m);
      FieldsOfPrefix(x, y, next, m');
    }
  }

  /** The records of x + y are those of x and then those of y. */
  lemma FieldsJoin(x: Bytes, y: Bytes, m: Message, m': Message)
    requires |x + y| <= MAX_INT64 && Unmarshal(x, m) == Parsed(m')
    ensures FieldsFrom(x + y, 0, m) == FieldsFrom(x, 0, m) + FieldsFrom(y, 0, m')
  {
    FieldsOfPrefix(x, y, 0, m);
  }

  lemma RecordField(tag: byte, body: Bytes, m: Message)
    requires 8 <= tag < 128 && tag % 8 == 2 && |Record(tag, body)| <= MAX_INT64
    requires tag / 8 <= (if m.BlockMsg? then 4 else 2) && Unmarshal(Record(tag, body), m).Parsed?
    ensures FieldsFrom(Record(tag, body), 0, m) == [tag / 8]
  {
    hide ReadSpan, ReadTag, ParseFrom, ReadEntry;
    var s := Record(tag, body);
    RecordReadBack(tag, body);
    FirstStep(s, m);
    assert StepFrom(s, 0, m).next == |s|;
    NoFields(s, StepFrom(s, 0, m).message);
  }

  lemma FirstStep(s: Bytes, m: Message)
    requires s != [] && Unmarshal(s, m).Parsed?
    ensures StepFrom(s, 0, m).Next?
  {
  }

  lemma NoFields(s: Bytes, m: Message)
    ensures FieldsFrom(s, |s|, m) == []
  {
  }

  lemma NumberField(tag: byte, v: int, m: Message)
    requires 8 <= tag < 128 && tag % 8 == 0 && v != 0
    requires (m.InfoMsg? && tag / 8 <= 3) || (m.BlockMsg? && tag / 8 == 1)
    ensures FieldsFrom(IntRecord(tag, v), 0, m) == [tag / 8]
  {
    hide ReadVarint, ReadTag, ToInt32, ToInt64;
    var s := IntRecord(tag, v);
    IntRecordReadBack(tag, v);
    assert StepFrom(s, 0, m).Next? && StepFrom(s, 0, m).next == |s|;
    NoFields(s, StepFrom(s, 0, m).message);
  }

  function Times(field: int, n: nat): (r: seq<int>)
    ensures |r| == n && forall i :: 0 <= i < n ==> r[i] == field
  {
    if n == 0 then [] else [field] + Times(field, n - 1)
  }

  function If(present: bool, field: int): seq<int> {
    if present then [field] else []
  }

  lemma {:induction false} ValidatorFields(vs: seq<Bytes>, b: Block)
    requires |EncodeValidators(vs)| <= MAX_INT64
    ensures FieldsFrom(EncodeValidators(vs), 0, BlockMsg(b)) == Times(2, |vs|)
    decreases |vs|
  {
    hide Record, FieldsFrom, Unmarshal;
    if vs == [] {
      NoFields([], BlockMsg(b));
    } else {
      var b1 := b.(validators := b.validators + [vs[0]]);
      ValidatorReadBack(vs[0], b);
      RecordField(0x12, vs[0], BlockMsg(b));
      FieldsJoin(Record(0x12, vs[0]), EncodeValidators(vs[1..]), BlockMsg(b), BlockMsg(b1));
      ValidatorFields(vs[1..], b1);
    }
  }

  lemma {:induction false} VoteFields(votes: map<Bytes, bool>, order: seq<Bytes>, b: Block)
    requires forall k :: k in order ==> k in votes
    requires |EncodeVotes(votes, order)| <= MAX_INT64
    ensures FieldsFrom(EncodeVotes(votes, order), 0, BlockMsg(b)) == Times(3, |order|)
    decreases |order|
  {
    hide Record, FieldsFrom, Unmarshal, VoteEntry;
    if order == [] {
      NoFields([], BlockMsg(b));
    } else {
      var init, k := order[..|order| - 1], order[|order| - 1];
      var b1 := b.(votes := b.votes[k := votes[k]]);
      VoteReadBack(k, votes[k], b);
      RecordField(0x1a, VoteEntry(k, votes[k]), BlockMsg(b));
      FieldsJoin(Record(0x1a, VoteEntry(k, votes[k])), EncodeVotes(votes, init), BlockMsg(b), BlockMsg(b1));
      VoteFields(votes, init, b1);
    }
  }

  lemma {:induction false} ChangeRecordFields(cs: seq<Change>, b: Block)
    requires |EncodeChanges(cs)| <= MAX_INT64
    ensures FieldsFrom(EncodeChanges(cs), 0, BlockMsg(b)) == Times(4, |cs|)
    decreases |cs|
  {
    hide Record, FieldsFrom, Unmarshal, EncodeChange;
    if cs == [] {
      NoFields([], BlockMsg(b));
    } else {
      var b1 := b.(changes := b.changes + [cs[0]]);
      ChangeRecordReadBack(cs[0], b);
      RecordField(0x22, EncodeChange(cs[0]), BlockMsg(b));
      FieldsJoin(Record(0x22, EncodeChange(cs[0])), EncodeChanges(cs[1..]), BlockMsg(b), BlockMsg(b1));
      ChangeRecordFields(cs[1..], b1);
    }
  }

  /** A block is written with its fields in ascending order: the height unless it is zero, then one record for
      each validator, each vote and each change. */
  lemma BlockFields(b: Block, order: seq<Bytes>, base: Block)
    requires IsOrder(order, b.votes) && |EncodeBlock(b, order)| <= MAX_INT64
    ensures FieldsFrom(EncodeBlock(b, order), 0, BlockMsg(base))
         == If(b.height != 0, 1) + Times(2, |b.validators|) + Times(3, |order|) + Times(4, |b.changes|)
  {
    hide Unmarshal, FieldsFrom, IntRecord, EncodeValidators, EncodeVotes, EncodeChanges;
    var h, v := IntRecord(0x08, b.height), EncodeValidators(b.validators);
    var w, c := EncodeVotes(b.votes, order), EncodeChanges(b.changes);
    var m1 := if b.height == 0 then base else base.(height := b.height);
    var m2 := m1.(validators := m1.validators + b.validators);
    var m3 := m2.(votes := m2.votes + Only(b.votes, order));
    HeightReadBack(b.height, base);
    ValidatorsReadBack(b.validators, m1);
    VotesReadBack(b.votes, order, m2);
    HeightField(b.height, base);
    ValidatorFields(b.validators, m1);
    VoteFields(b.votes, order, m2);
    ChangeRecordFields(b.changes, m3);
    Then(h, v, BlockMsg(base), BlockMsg(m1), BlockMsg(m2));
    Then(h + v, w, BlockMsg(base), BlockMsg(m2), BlockMsg(m3));
    FieldsJoin(h, v, BlockMsg(base), BlockMsg(m1));
    FieldsJoin(h + v, w, BlockMsg(base), BlockMsg(m2));
    FieldsJoin(h + v + w, c, BlockMsg(base), BlockMsg(m3));
  }

  lemma HeightField(h: int64, b: Block)
    ensures FieldsFrom(IntRecord(0x08, h), 0, BlockMsg(b)) == If(h != 0, 1)
  {
    if h != 0 {
      NumberField(0x08, h, BlockMsg(b));
    }
  }

  /** A change is written as its key and its value, unless they are empty, and its flag, if it is set. */
  lemma ChangeFields(c: Change, base: Change)
    requires |EncodeChange(c)| <= MAX_INT64
    ensures FieldsFrom(EncodeChange(c), 0, ChangeMsg(base))
         == If(c.key != [], 1) + If(c.value != [], 2) + If(c.isDeleted, 3)
  {
    hide Unmarshal, FieldsFrom, BytesRecord;
    var k, v, d: Bytes := BytesRecord(0x0a, c.key), BytesRecord(0x12, c.value), if c.isDeleted then [0x18, 1] else [];
    var c1 := if c.key == [] then base else base.(key := c.key);
    var c2 := if c.value == [] then c1 else c1.(value := c.value);
    ChangeKeyReadBack(c.key, base);
    ChangeValueReadBack(c.value, c1);
    ChangePartFields(c, base, c1, c2);
    Then(k, v, ChangeMsg(base), ChangeMsg(c1), ChangeMsg(c2));
    FieldsJoin(k, v, ChangeMsg(base), ChangeMsg(c1));
    FieldsJoin(k + v, d, ChangeMsg(base), ChangeMsg(c2));
  }

  lemma ChangePartFields(c: Change, base: Change, c1: Change, c2: Change)
    requires |EncodeChange(c)| <= MAX_INT64
    ensures FieldsFrom(BytesRecord(0x0a, c.key), 0, ChangeMsg(base)) == If(c.key != [], 1)
    ensures FieldsFrom(BytesRecord(0x12, c.value), 0, ChangeMsg(c1)) == If(c.value != [], 2)
    ensures FieldsFrom(if c.isDeleted then [0x18, 1] else [], 0, ChangeMsg(c2)) == If(c.isDeleted, 3)
  {
    ChangeKeyReadBack(c.key, base);
    ChangeValueReadBack(c.value, c1);
    hide Unmarshal, Record;
    NoFields([], ChangeMsg(base));
    NoFields([], ChangeMsg(c1));
    NoFields([], ChangeMsg(c2));
    FlagField(c2);
    hide FieldsFrom;
    if c.key != [] { RecordField(0x0a, c.key, ChangeMsg(base)); }
    if c.value != [] { RecordField(0x12, c.value, ChangeMsg(c1)); }
  }

  lemma FlagField(c: Change)
    ensures FieldsFrom([0x18, 1], 0, ChangeMsg(c)) == [3]
  {
    hide ReadVarint;
    var s: Bytes := [0x18] + [1];
    assert s == [0x18, 1];
    TagReadBack(0x18, [1]);
    OneByteVarint([0x18, 1], 1);
    hide ReadTag;
    assert StepFrom(s, 0, ChangeMsg(c)) == Next(ChangeMsg(c.(isDeleted := true)), 2);
    NoFields(s, ChangeMsg(c.(isDeleted := true)));
  }

  /** A tally is written as its three numbers in order, zeros left out. */
  lemma InfoFields(m: Info, base: Info)
    ensures FieldsFrom(EncodeInfo(m), 0, InfoMsg(base))
         == If(m.totalValidators != 0, 1) + If(m.votedYes != 0, 2) + If(m.height != 0, 3)
  {
    hide Unmarshal, FieldsFrom, IntRecord;
    var a, b, c := IntRecord(0x08, m.totalValidators), IntRecord(0x10, m.votedYes), IntRecord(0x18, m.height);
    IntRecordFits(0x08, m.totalValidators);
    IntRecordFits(0x10, m.votedYes);
    IntRecordFits(0x18, m.height);
    var m1 := InfoPart(0x08, m.totalValidators, base);
    var m2 := InfoPart(0x10, m.votedYes, m1);
    InfoPartRead(0x08, m.totalValidators, base);
    InfoPartRead(0x10, m.votedYes, m1);
    InfoPartRead(0x18, m.height, m2);
    Then(a, b, InfoMsg(base), InfoMsg(m1), InfoMsg(m2));
    FieldsJoin(a, b, InfoMsg(base), InfoMsg(m1));
    FieldsJoin(a + b, c, InfoMsg(base), InfoMsg(m2));
  }

  /** The tally after one of its numbers has been read. */
  function InfoPart(tag: byte, v: int, m: Info): Info {
    if v == 0 then m
    else if tag == 0x08 then m.(totalValidators := ToInt32(ToUint64(v)))
    else if tag == 0x10 then m.(votedYes := ToInt32(ToUint64(v)))
    else m.(height := ToInt64(ToUint64(v)))
  }

  lemma InfoPartRead(tag: byte, v: int, m: Info)
    requires tag == 0x08 || tag == 0x10 || tag == 0x18
    ensures Unmarshal(IntRecord(tag, v), InfoMsg(m)) == Parsed(InfoMsg(InfoPart(tag, v, m)))
    ensures FieldsFrom(IntRecord(tag, v), 0, InfoMsg(m)) == If(v != 0, tag / 8)
  {
    if v == 0 {
      EmptyInput(InfoMsg(m));
    } else {
      hide ReadVarint, ReadTag, ToInt32, ToInt64, ToUint64;
      IntRecordReadBack(tag, v);
      NumberField(tag, v, InfoMsg(m));
      OneStep(IntRecord(tag, v), InfoMsg(m), InfoMsg(InfoPart(tag, v, m)));
    }
  }

  /** A votes entry always holds both its fields: the key, an empty one too, and a vote of one byte. */
  lemma EntryForm(key: Bytes, vote: bool)
    ensures var e, n := VoteEntry(key, vote), |Varint(|key|)|;
            && |e| == 3 + n + |key| && e[0] == 0x0a && e[1..1 + n] == Varint(|key|) && e[1 + n..1 + n + |key|] == key
            && e[1 + n + |key|] == 0x10 && e[2 + n + |key|] == if vote then 1 else 0
  {
    var l := Varint(|key|);
    assert VoteEntry(key, vote) == [0x0a] + (l + key) + [0x10, if vote then 1 else 0];
    assert VoteEntry(key, vote)[1..1 + |l| + |key|] == l + key;
  }
}
