/** The messages of state.pb.go as objects, with the writer that fills a buffer from right to left
    and the reader that walks a cursor over the input. */
module StateCodec {
  import opened Bytes
  import opened Varints
  import opened Wire
  import opened WireLengths
  import RoundTrip

  /** The buffer `now` is `was` with `written` put over its end, from index i on. */
  ghost predicate Filled(now: Bytes, was: Bytes, i: nat, written: Bytes) {
    i <= |was| && now == was[..i] + written
  }

  /** Writing a chunk just below what is written already. */
  lemma FillMore(was: Bytes, i: nat, written: Bytes, mid: Bytes, j: nat, chunk: Bytes, now: Bytes)
    requires Filled(mid, was, i, written) && j <= i && Filled(now, mid, j, chunk + mid[i..])
    ensures Filled(now, was, j, chunk + written)
  {
    assert mid[i..] == written && mid[..j] == was[..j];
  }

  /** What the writers start from: nothing written yet. */
  lemma FillNothing(now: Bytes, i: nat)
    requires i <= |now|
    ensures Filled(now, now, i, [] + now[i..])
  {
  }

  /** data[i-1] = b, after moving i down. */
  method PutByte(data: array<byte>, i: nat, b: byte) returns (j: nat)
    requires 0 < i <= data.Length
    modifies data
    ensures j == i - 1 && Filled(data[..], old(data[..]), j, [b] + old(data[..])[i..])
  {
    j := i - 1;
    data[j] := b;
    assert data[..] == data[..j] + [b] + data[i..];
  }

  /** copy(data[i-len(body):], body). */
  method PutBytes(data: array<byte>, i: nat, body: Bytes) returns (j: nat)
    requires |body| <= i <= data.Length
    modifies data
    ensures j == i - |body| && Filled(data[..], old(data[..]), j, body + old(data[..])[i..])
  {
    j := i - |body|;
    forall k | 0 <= k < |body| {
      data[j + k] := body[k];
    }
    assert data[j..i] == body;
    assert data[..] == data[..j] + data[j..i] + data[i..];
  }

  method PutVarint(data: array<byte>, i: nat, v: uint64) returns (j: nat)
    requires |Varint(v)| <= i <= data.Length
    modifies data
    ensures j == i - |Varint(v)| && Filled(data[..], old(data[..]), j, Varint(v) + old(data[..])[i..])
  {
    VarintLength(v);
    j := EncodeVarint(data, i, v);
    assert data[..] == data[..j] + data[j..];
  }

  /** A tag before a varint. */
  method PutTagged(data: array<byte>, i: nat, tag: byte, v: uint64) returns (j: nat)
    requires 1 + |Varint(v)| <= i <= data.Length
    modifies data
    ensures j == i - 1 - |Varint(v)|
    ensures Filled(data[..], old(data[..]), j, [tag] + Varint(v) + old(data[..])[i..])
  {
    ghost var was := data[..];
    var k := PutVarint(data, i, v);
    ghost var mid := data[..];
    j := PutByte(data, k, tag);
    FillMore(was, k, Varint(v) + was[i..], mid, j, [tag], data[..]);
    assert [tag] + (Varint(v) + was[i..]) == [tag] + Varint(v) + was[i..];
  }

  /** A varint field, left out when zero. */
  method PutInt(data: array<byte>, i: nat, tag: byte, v: int) returns (j: nat)
    requires |IntRecord(tag, v)| <= i <= data.Length
    modifies data
    ensures j == i - |IntRecord(tag, v)|
    ensures Filled(data[..], old(data[..]), j, IntRecord(tag, v) + old(data[..])[i..])
  {
    j := i;
    if v != 0 {
      j := PutTagged(data, i, tag, ToUint64(v));
    } else {
      assert data[..] == data[..i] + ([] + data[..][i..]);
    }
  }

  /** A length-delimited record: payload, length, tag. */
  method PutRecord(data: array<byte>, i: nat, tag: byte, body: Bytes) returns (j: nat)
    requires |Record(tag, body)| <= i <= data.Length && |body| < TWO_63
    modifies data
    ensures j == i - |Record(tag, body)|
    ensures Filled(data[..], old(data[..]), j, Record(tag, body) + old(data[..])[i..])
  {
    ghost var was := data[..];
    var k := PutBytes(data, i, body);
    j := CloseRecord(data, k, i, tag, was, body, was[i..]);
  }

  /** The length and the tag of a record whose payload fills [k, i) already. */
  method CloseRecord(data: array<byte>, k: nat, i: nat, tag: byte,
                     ghost was: Bytes, ghost body: Bytes, ghost rest: Bytes)
    returns (j: nat)
    requires k + |body| == i <= data.Length && |body| < TWO_63
    requires Filled(data[..], was, k, body + rest) && |Record(tag, body)| <= i
    modifies data
    ensures j == i - |Record(tag, body)|
    ensures Filled(data[..], was, j, Record(tag, body) + rest)
  {
    ghost var mid := data[..];
    j := PutTagged(data, k, tag, i - k);
    FillMore(was, k, body + rest, mid, j, [tag] + Varint(i - k), data[..]);
    assert [tag] + Varint(i - k) + (body + rest) == Record(tag, body) + rest;
  }

  /** A bytes field, left out when empty. */
  method PutBytesField(data: array<byte>, i: nat, tag: byte, body: Bytes) returns (j: nat)
    requires |BytesRecord(tag, body)| <= i <= data.Length && |body| < TWO_63
    modifies data
    ensures j == i - |BytesRecord(tag, body)|
    ensures Filled(data[..], old(data[..]), j, BytesRecord(tag, body) + old(data[..])[i..])
  {
    j := i;
    if |body| > 0 {
      j := PutRecord(data, i, tag, body);
    } else {
      assert data[..] == data[..i] + ([] + data[..][i..]);
    }
  }

  // ---------- reading ----------

  datatype Outcome = Ok | Err(error: Error)

  method DecodeTag(data: Bytes, i: nat) returns (t: Tag)
    ensures t == ReadTag(data, i)
  {
    var r, _ := DecodeVarint(data, i, true);
    if r.Bad? { return NoTag(r.error); }
    var field, wireType := FieldNumber(r.value), r.value % 8;
    if wireType == 4 { return NoTag(EndGroupForNonGroup); }
    if field <= 0 { return NoTag(IllegalTag); }
    return Tag(field, wireType, r.next);
  }

  method DecodeSpan(data: Bytes, i: nat) returns (lo: nat, hi: nat, err: Outcome)
    ensures match ReadSpan(data, i)
            case Span(l, h) => err == Ok && lo == l && hi == h
            case NoSpan(f) => err == Err(Kind(f))
  {
    var n := DecodeWord(data, i);
    if n.Bad? { return 0, 0, Err(n.error); }
    if ToInt64(n.value) < 0 { return 0, 0, Err(InvalidLength); }
    var post := n.next + n.value;
    if post >= TWO_63 { return 0, 0, Err(InvalidLength); }
    if post > |data| { return 0, 0, Err(UnexpectedEOF); }
    return n.next, post, Ok;
  }

  method DecodeWord(data: Bytes, i: nat) returns (r: Read)
    ensures r == ReadVarint(data, i)
  {
    var word;
    r, word := DecodeVarint(data, i, true);
  }

  /** skipState: the length of the field at the start of data, groups included. */
  method SkipState(data: Bytes) returns (n: nat, err: Outcome)
    ensures match SkipFrom(data, 0, 0)
            case SkippedTo(next) => err == Ok && n == next
            case NoSkip(f) => err == Err(Kind(f))
  {
    hide ReadVarint, SkipFrom;
    var l, index, depth := |data|, 0, 0;
    while index < l
      invariant 0 <= index && 0 <= depth
      invariant SkipFrom(data, 0, 0) == SkipFrom(data, index, depth)
      decreases l - index
    {
      SkipTurn(data, index, depth);
      var w := DecodeWord(data, index);
      if w.Bad? { return 0, Err(w.error); }
      var wireType := w.value % 8;
      index := w.next;
      if wireType == 0 {
        var v := DecodeWord(data, index);
        if v.Bad? { return 0, Err(v.error); }
        index := v.next;
      } else if wireType == 1 {
        index := index + 8;
      } else if wireType == 2 {
        var length := DecodeWord(data, index);
        if length.Bad? { return 0, Err(length.error); }
        if ToInt64(length.value) < 0 { return 0, Err(InvalidLength); }
        index := length.next + length.value;
      } else if wireType == 3 {
        depth := depth + 1;
      } else if wireType == 4 {
        if depth == 0 { return 0, Err(UnexpectedEndOfGroup); }
        depth := depth - 1;
      } else if wireType == 5 {
        index := index + 4;
      } else {
        return 0, Err(IllegalWireType);
      }
      if index >= TWO_63 { return 0, Err(InvalidLength); }
      if depth == 0 { return index, Ok; }
    }
    SkipEnd(data, index, depth);
    return 0, Err(UnexpectedEOF);
  }

  /** One turn of the loop. */
  lemma SkipTurn(data: Bytes, index: nat, depth: nat)
    requires index < |data|
    ensures var w, r := ReadVarint(data, index), SkipFrom(data, index, depth);
            if w.Bad? then r == NoSkip(Because(w.error))
            else if w.value % 8 == 4 && depth == 0 then r == NoSkip(Because(UnexpectedEndOfGroup))
            else
              var payload, depth' := SkipPayload(data, w.next, w.value % 8), DepthAfter(w.value % 8, depth);
              if payload.NoSkip? then r == payload
              else if payload.next >= TWO_63 then r == NoSkip(Because(InvalidLength))
              else if depth' == 0 then r == payload
              else r == SkipFrom(data, payload.next, depth')
  {
  }

  lemma SkipEnd(data: Bytes, index: nat, depth: nat)
    requires index >= |data|
    ensures SkipFrom(data, index, depth) == NoSkip(Because(UnexpectedEOF))
  {
  }

  method SkipUnknown(data: Bytes, i: nat, limit: nat) returns (next: nat, err: Outcome)
    requires i <= |data|
    ensures match SkipField(data, i, limit)
            case SkippedTo(n) => err == Ok && next == n
            case NoSkip(f) => err == Err(Kind(f))
  {
    var skippy;
    skippy, err := SkipState(data[i..]);
    if err.Err? { return 0, err; }
    if i + skippy >= TWO_63 { return 0, Err(InvalidLength); }
    if i + skippy > limit { return 0, Err(UnexpectedEOF); }
    return i + skippy, Ok;
  }

  /** What an Unmarshal method returns and leaves behind, as a parse. */
  ghost predicate Agrees(p: Parse, err: Outcome, m: Message) {
    m == p.message && err == OutcomeOf(p)
  }

  function OutcomeOf(p: Parse): Outcome {
    match p
    case Parsed(_) => Ok
    case Rejected(f, _) => Err(Kind(f))
  }

  // ---------- StateChange ----------

  class StateChange {
    var key: Bytes
    var value: Bytes
    var isDeleted: bool

    constructor (key: Bytes, value: Bytes, isDeleted: bool)
      ensures Contents() == Change(key, value, isDeleted)
    {
      this.key, this.value, this.isDeleted := key, value, isDeleted;
    }

    function Contents(): Change
      reads this
    {
      Change(key, value, isDeleted)
    }

    method Size() returns (n: nat)
      ensures n == |EncodeChange(Contents())|
    {
      VarintLength(|key|);
      VarintLength(|value|);
      n := 0;
      if |key| > 0 { n := n + 1 + |key| + Sov(|key|); }
      if |value| > 0 { n := n + 1 + |value| + Sov(|value|); }
      if isDeleted { n := n + 2; }
    }

    method MarshalToSizedBuffer(data: array<byte>, len: nat) returns (n: nat)
      requires len <= data.Length
      requires |EncodeChange(Contents())| <= len && |EncodeChange(Contents())| <= MAX_INT64
      modifies data
      ensures n == |EncodeChange(Contents())|
      ensures Filled(data[..], old(data[..]), len - n, EncodeChange(Contents()) + old(data[..])[len..])
    {
      hide BytesRecord, Filled, EncodeChange;
      ghost var c := Contents();
      ghost var was, rest, flag := data[..], data[..][len..], FlagBytes(c);
      ChangeParts(c, rest);
      var i := len;
      FillNothing(was, len);
      if isDeleted {
        i := PutFlagBytes(data, len, 0x18, true);
      }
      ghost var mid, i1 := data[..], i;
      i := PutBytesField(data, i, 0x12, value);
      FillMore(was, i1, flag + rest, mid, i, BytesRecord(0x12, c.value), data[..]);
      ghost var mid', i2 := data[..], i;
      i := PutBytesField(data, i, 0x0a, key);
      FillMore(was, i2, BytesRecord(0x12, c.value) + (flag + rest), mid', i, BytesRecord(0x0a, c.key), data[..]);
      n := len - i;
    }

    method Marshal() returns (bz: Bytes)
      requires |EncodeChange(Contents())| <= MAX_INT64
      ensures bz == EncodeChange(Contents())
    {
      hide EncodeChange;
      var size := Size();
      var data := new byte[size];
      var n := MarshalToSizedBuffer(data, size);
      bz := data[..n];
    }

    method Unmarshal(data: Bytes) returns (err: Outcome)
      modifies this
      ensures Agrees(Wire.Unmarshal(data, ChangeMsg(old(Contents()))), err, ChangeMsg(Contents()))
    {
      hide ReadTag, ReadSpan, ReadVarint, SkipField;
      var l, index := |data|, 0;
      while index < l
        invariant 0 <= index <= l
        invariant Wire.Unmarshal(data, ChangeMsg(old(Contents()))) == ParseFrom(data, index, ChangeMsg(Contents()))
        decreases l - index
      {
        var start := index;
        ghost var before := Contents();
        var t := DecodeTag(data, index);
        if t.NoTag? { return Err(t.error); }
        if t.field == 1 || t.field == 2 {
          if t.wireType != 2 { return Err(WrongWireType); }
          var lo, hi, bad := DecodeSpan(data, t.next);
          if bad.Err? { return bad; }
          if t.field == 1 {
            key := data[lo..hi];
          } else {
            value := data[lo..hi];
          }
          index := hi;
        } else if t.field == 3 {
          if t.wireType != 0 { return Err(WrongWireType); }
          var v := DecodeWord(data, t.next);
          if v.Bad? { return Err(v.error); }
          isDeleted := v.value != 0;
          index := v.next;
        } else {
          var next, bad := SkipUnknown(data, start, l);
          if bad.Err? { return bad; }
          index := next;
        }
        assert StepFrom(data, start, ChangeMsg(before)) == Next(ChangeMsg(Contents()), index);
      }
      return Ok;
    }
  }

  // ---------- ConsensusInfo ----------

  class ConsensusInfo {
    var totalValidators: int32
    var votedYes: int32
    var height: int64

    constructor (m: Info)
      ensures Contents() == m
    {
      totalValidators, votedYes, height := m.totalValidators, m.votedYes, m.height;
    }

    function Contents(): Info
      reads this
    {
      Info(totalValidators, votedYes, height)
    }

    method Size() returns (n: nat)
      ensures n == |EncodeInfo(Contents())|
    {
      VarintLength(ToUint64(totalValidators));
      VarintLength(ToUint64(votedYes));
      VarintLength(ToUint64(height));
      n := 0;
      if totalValidators != 0 { n := n + 1 + Sov(ToUint64(totalValidators)); }
      if votedYes != 0 { n := n + 1 + Sov(ToUint64(votedYes)); }
      if height != 0 { n := n + 1 + Sov(ToUint64(height)); }
    }

    method MarshalToSizedBuffer(data: array<byte>, len: nat) returns (n: nat)
      requires |EncodeInfo(Contents())| <= len <= data.Length
      modifies data
      ensures n == |EncodeInfo(Contents())|
      ensures Filled(data[..], old(data[..]), len - n, EncodeInfo(Contents()) + old(data[..])[len..])
    {
      hide IntRecord, Filled;
      ghost var was, rest := data[..], data[..][len..];
      ghost var a, b, c := IntRecord(0x08, totalValidators), IntRecord(0x10, votedYes), IntRecord(0x18, height);
      assert a + (b + (c + rest)) == EncodeInfo(Contents()) + rest;
      var i := PutInt(data, len, 0x18, height);
      ghost var mid, i1 := data[..], i;
      i := PutInt(data, i, 0x10, votedYes);
      FillMore(was, i1, c + rest, mid, i, b, data[..]);
      ghost var mid', i2 := data[..], i;
      i := PutInt(data, i, 0x08, totalValidators);
      FillMore(was, i2, b + (c + rest), mid', i, a, data[..]);
      n := len - i;
    }

    method Marshal() returns (bz: Bytes)
      ensures bz == EncodeInfo(Contents())
    {
      hide EncodeInfo;
      var size := Size();
      var data := new byte[size];
      var n := MarshalToSizedBuffer(data, size);
      bz := data[..n];
    }

    method Unmarshal(data: Bytes) returns (err: Outcome)
      modifies this
      ensures Agrees(Wire.Unmarshal(data, InfoMsg(old(Contents()))), err, InfoMsg(Contents()))
    {
      hide ReadTag, ReadVarint, SkipField, ToInt32, ToInt64;
      var l, index := |data|, 0;
      while index < l
        invariant 0 <= index <= l
        invariant Wire.Unmarshal(data, InfoMsg(old(Contents()))) == ParseFrom(data, index, InfoMsg(Contents()))
        decreases l - index
      {
        var start := index;
        ghost var before := Contents();
        var t := DecodeTag(data, index);
        if t.NoTag? { return Err(t.error); }
        if t.field == 1 || t.field == 2 {
          if t.wireType != 0 { return Err(WrongWireType); }
          var r, n := DecodeInt32(data, t.next);
          if t.field == 1 {
            totalValidators := n;
          } else {
            votedYes := n;
          }
          if r.Bad? { return Err(r.error); }
          index := r.next;
        } else if t.field == 3 {
          if t.wireType != 0 { return Err(WrongWireType); }
          var r;
          r, height := DecodeInt64(data, t.next);
          if r.Bad? { return Err(r.error); }
          index := r.next;
        } else {
          var next, bad := SkipUnknown(data, start, l);
          if bad.Err? { return bad; }
          index := next;
        }
        assert StepFrom(data, start, InfoMsg(before)) == Next(InfoMsg(Contents()), index);
      }
      return Ok;
    }
  }

  /** A varint gathered in an int32: the same as reading 64 bits and cutting. */
  method DecodeInt32(data: Bytes, i: nat) returns (r: Read, n: int32)
    ensures n == ToInt32(Word(data, i))
    ensures match ReadVarint(data, i)
            case Bad(e) => r == Bad(e)
            case Got(_, next) => r.Got? && r.next == next
  {
    hide ReadDigits, ToInt32;
    var word;
    r, word := DecodeVarint(data, i, false);
    NarrowWord(Digits(data, i, 0));
    n := ToInt32(word);
  }

  lemma NarrowWord(x: nat)
    ensures ToInt32(Low(x, false)) == ToInt32(x % TWO_64)
  {
    Low32(x);
  }

  method DecodeInt64(data: Bytes, i: nat) returns (r: Read, n: int64)
    ensures r == ReadVarint(data, i) && n == ToInt64(Word(data, i))
  {
    var word;
    r, word := DecodeVarint(data, i, true);
    n := ToInt64(word);
  }

  // ---------- BlockState ----------

  /** Go iterates a map in an unspecified order: any order is a possible result. */
  method IterationOrder(votes: map<Bytes, bool>) returns (order: seq<Bytes>)
    ensures IsOrder(order, votes)
  {
    order := [];
    var left := votes.Keys;
    while left != {}
      invariant left <= votes.Keys
      invariant forall i, j :: 0 <= i < j < |order| ==> order[i] != order[j]
      invariant forall k :: k in order <==> k in votes.Keys - left
      decreases |left|
    {
      var k :| k in left;
      assert k !in order;
      left := left - {k};
      order := order + [k];
    }
  }

  class BlockState {
    var height: int64
    var validators: seq<Bytes>
    var votes: map<Bytes, bool>
    var changes: seq<StateChange>

    constructor ()
      ensures Contents() == EMPTY_BLOCK && changes == []
    {
      height, validators, votes, changes := 0, [], map[], [];
    }

    function Contents(): Block
      reads this, changes
    {
      Block(height, validators, votes, ChangeList(changes))
    }

    /** The same for every order in which the votes may be written. */
    method Size() returns (n: nat)
      ensures forall order :: IsOrder(order, votes) ==> n == |EncodeBlock(Contents(), order)|
    {
      hide EncodeValidators, EncodeVotes, EncodeChanges, IntRecord, Sov;
      n := 0;
      if height != 0 { n := n + 1 + Sov(ToUint64(height)); }
      IntRecordLength(0x08, height);
      var ofValidators := SizeOfValidators();
      var ofVotes, order := SizeOfVotes();
      var ofChanges := SizeOfChanges();
      n := n + ofValidators + ofVotes + ofChanges;
      forall o | IsOrder(o, votes)
        ensures n == |EncodeBlock(Contents(), o)|
      {
        BlockParts(Contents(), o, []);
        VotesLength(votes, o);
        VotesSizeOfOrders(order, o);
      }
    }

    method SizeOfValidators() returns (n: nat)
      ensures n == |EncodeValidators(validators)|
    {
      n := 0;
      for j := 0 to |validators|
        invariant n == |EncodeValidators(validators[..j])|
      {
        var l := |validators[j]|;
        VarintLength(l);
        ValidatorsGrow(validators, j);
        n := n + (1 + l + Sov(l));
      }
      assert validators[..|validators|] == validators;
    }

    method SizeOfVotes() returns (n: nat, ghost order: seq<Bytes>)
      ensures IsOrder(order, votes) && n == VotesSize(order)
    {
      n := 0;
      var keys := IterationOrder(votes);
      order := keys;
      for j := 0 to |keys|
        invariant n == VotesSize(keys[..j])
      {
        var l := |keys[j]|;
        VarintLength(l);
        var mapEntrySize := 1 + l + Sov(l) + 1 + 1;
        VarintLength(mapEntrySize);
        assert keys[..j + 1][..j] == keys[..j];
        n := n + (mapEntrySize + 1 + Sov(mapEntrySize));
      }
      assert keys[..|keys|] == keys;
    }

    method SizeOfChanges() returns (n: nat)
      ensures n == |EncodeChanges(ChangeList(changes))|
    {
      n := 0;
      ghost var cs := ChangeList(changes);
      for j := 0 to |changes|
        invariant n == |EncodeChanges(cs[..j])|
      {
        var l := changes[j].Size();
        VarintLength(l);
        ChangesGrow(cs, j);
        n := n + (1 + l + Sov(l));
      }
      assert cs[..|changes|] == cs;
    }

    method MarshalToSizedBuffer(data: array<byte>, len: nat) returns (n: nat, ghost order: seq<Bytes>)
      requires len <= data.Length
      requires forall o :: IsOrder(o, votes) ==>
                 |EncodeBlock(Contents(), o)| <= len && |EncodeBlock(Contents(), o)| <= MAX_INT64
      modifies data
      ensures IsOrder(order, votes) && n == |EncodeBlock(Contents(), order)|
      ensures Filled(data[..], old(data[..]), len - n, EncodeBlock(Contents(), order) + old(data[..])[len..])
    {
      hide EncodeBlock, EncodeValidators, EncodeVotes, EncodeChanges, IntRecord, Filled, ChangeList;
      var iteration := IterationOrder(votes);
      order := iteration;
      ghost var b := Contents();
      ghost var was, rest := data[..], data[..][len..];
      BlockParts(b, order, rest);
      var i := WriteChangesAndVotes(data, len, iteration);
      ghost var written := EncodeVotes(b.votes, order) + (EncodeChanges(b.changes) + rest);
      ghost var mid, i1 := data[..], i;
      i := WriteValidators(data, i);
      FillMore(was, i1, written, mid, i, EncodeValidators(b.validators), data[..]);
      ghost var mid', i2 := data[..], i;
      i := PutInt(data, i, 0x08, height);
      FillMore(was, i2, EncodeValidators(b.validators) + written, mid', i, IntRecord(0x08, b.height), data[..]);
      n := len - i;
    }

    method WriteChangesAndVotes(data: array<byte>, len: nat, order: seq<Bytes>) returns (i: nat)
      requires IsOrder(order, votes) && len <= data.Length
      requires |EncodeVotes(votes, order)| + |EncodeChanges(ChangeList(changes))| <= len
      requires |EncodeVotes(votes, order)| <= MAX_INT64 && |EncodeChanges(ChangeList(changes))| <= MAX_INT64
      modifies data
      ensures i == len - |EncodeVotes(votes, order)| - |EncodeChanges(ChangeList(changes))|
      ensures Filled(data[..], old(data[..]), i,
                     EncodeVotes(votes, order) + (EncodeChanges(ChangeList(changes)) + old(data[..])[len..]))
    {
      hide EncodeVotes, EncodeChanges, Filled;
      ghost var was, rest, cs := data[..], data[..][len..], ChangeList(changes);
      i := WriteChanges(data, len);
      ghost var mid, i1 := data[..], i;
      i := WriteVotes(data, i, order);
      FillMore(was, i1, EncodeChanges(cs) + rest, mid, i, EncodeVotes(votes, order), data[..]);
    }

    method WriteChanges(data: array<byte>, len: nat) returns (i: nat)
      requires |EncodeChanges(ChangeList(changes))| <= len <= data.Length
      requires |EncodeChanges(ChangeList(changes))| <= MAX_INT64
      modifies data
      ensures i == len - |EncodeChanges(ChangeList(changes))|
      ensures Filled(data[..], old(data[..]), i, EncodeChanges(ChangeList(changes)) + old(data[..])[len..])
    {
      hide EncodeChange, EncodeChanges, Filled, Record;
      ghost var was, rest, cs := data[..], data[..][len..], ChangeList(changes);
      FillNothing(was, len);
      ChangesEnds(cs);
      i := len;
      var index := |changes|;
      while index > 0
        invariant 0 <= index <= |changes|
        invariant i == len - |EncodeChanges(cs[index..])|
        invariant Filled(data[..], was, i, EncodeChanges(cs[index..]) + rest)
      {
        index := index - 1;
        ChangesSplit(cs, index, rest);
        assert changes[index].Contents() == cs[index];
        i := WriteChange(data, i, index, was, EncodeChanges(cs[index + 1..]) + rest);
      }
    }

    method WriteChange(data: array<byte>, i: nat, index: nat, ghost was: Bytes, ghost written: Bytes) returns (j: nat)
      requires index < |changes| && i <= data.Length
      requires |Record(0x22, EncodeChange(changes[index].Contents()))| <= i
      requires |EncodeChange(changes[index].Contents())| <= MAX_INT64
      requires Filled(data[..], was, i, written)
      modifies data
      ensures j == i - |Record(0x22, EncodeChange(changes[index].Contents()))|
      ensures Filled(data[..], was, j, Record(0x22, EncodeChange(changes[index].Contents())) + written)
    {
      hide EncodeChange, Filled, Record;
      ghost var mid, body := data[..], EncodeChange(changes[index].Contents());
      BodyFits(0x22, body);
      var size := changes[index].MarshalToSizedBuffer(data, i);
      FillMore(was, i, written, mid, i - size, body, data[..]);
      j := CloseRecord(data, i - size, i, 0x22, was, body, written);
    }

    method WriteVotes(data: array<byte>, len: nat, order: seq<Bytes>) returns (i: nat)
      requires IsOrder(order, votes)
      requires |EncodeVotes(votes, order)| <= len <= data.Length && |EncodeVotes(votes, order)| <= MAX_INT64
      modifies data
      ensures i == len - |EncodeVotes(votes, order)|
      ensures Filled(data[..], old(data[..]), i, EncodeVotes(votes, order) + old(data[..])[len..])
    {
      hide EncodeVotes, Filled, VoteEntry, Record;
      ghost var was, rest := data[..], data[..][len..];
      FillNothing(was, len);
      VotesEnds(votes, order);
      i := len;
      for j := 0 to |order|
        invariant i == len - |EncodeVotes(votes, order[..j])|
        invariant Filled(data[..], was, i, EncodeVotes(votes, order[..j]) + rest)
      {
        VotesSplit(votes, order, j, rest);
        i := WriteVote(data, i, order[j], was, EncodeVotes(votes, order[..j]) + rest);
      }
    }

    method WriteVote(data: array<byte>, baseI: nat, k: Bytes, ghost was: Bytes, ghost written: Bytes) returns (i: nat)
      requires k in votes && baseI <= data.Length
      requires |Record(0x1a, VoteEntry(k, votes[k]))| <= baseI && |VoteEntry(k, votes[k])| <= MAX_INT64
      requires Filled(data[..], was, baseI, written)
      modifies data
      ensures i == baseI - |Record(0x1a, VoteEntry(k, votes[k]))|
      ensures Filled(data[..], was, i, Record(0x1a, VoteEntry(k, votes[k])) + written)
    {
      hide VoteEntry, Filled, Record;
      var v := votes[k];
      ghost var mid, body := data[..], VoteEntry(k, v);
      BodyFits(0x1a, body);
      EntryFits(k, v);
      i := PutVoteEntry(data, baseI, k, v);
      FillMore(was, baseI, written, mid, i, body, data[..]);
      i := CloseRecord(data, i, baseI, 0x1a, was, body, written);
    }

    method WriteValidators(data: array<byte>, len: nat) returns (i: nat)
      requires |EncodeValidators(validators)| <= len <= data.Length && |EncodeValidators(validators)| <= MAX_INT64
      modifies data
      ensures i == len - |EncodeValidators(validators)|
      ensures Filled(data[..], old(data[..]), i, EncodeValidators(validators) + old(data[..])[len..])
    {
      hide EncodeValidators, Filled, Record;
      ghost var was, rest := data[..], data[..][len..];
      FillNothing(was, len);
      ValidatorsEnds(validators);
      i := len;
      var index := |validators|;
      while index > 0
        invariant 0 <= index <= |validators|
        invariant i == len - |EncodeValidators(validators[index..])|
        invariant Filled(data[..], was, i, EncodeValidators(validators[index..]) + rest)
      {
        index := index - 1;
        ValidatorsSplit(validators, index, rest);
        ghost var tail, mid, i1 := EncodeValidators(validators[index + 1..]), data[..], i;
        i := PutRecord(data, i, 0x12, validators[index]);
        FillMore(was, i1, tail + rest, mid, i, Record(0x12, validators[index]), data[..]);
      }
    }

    /** Marshal: the buffer has Size() bytes and every one of them is written. Whatever order the votes
        were met in, the bytes read back as this very block. */
    method Marshal() returns (bz: Bytes, ghost order: seq<Bytes>)
      requires forall o :: IsOrder(o, votes) ==> |EncodeBlock(Contents(), o)| <= MAX_INT64
      ensures IsOrder(order, votes) && bz == EncodeBlock(Contents(), order)
      ensures Wire.Unmarshal(bz, BlockMsg(EMPTY_BLOCK)) == Parsed(BlockMsg(Contents()))
    {
      hide EncodeBlock, Wire.Unmarshal;
      var size := Size();
      var data := new byte[size];
      var n;
      n, order := MarshalToSizedBuffer(data, size);
      assert n == size;
      bz := data[..n];
      RoundTrip.BlockRoundTrip(Contents(), order);
    }

    method Unmarshal(data: Bytes) returns (err: Outcome)
      modifies this
      ensures Agrees(Wire.Unmarshal(data, BlockMsg(old(Contents()))), err, BlockMsg(Contents()))
    {
      hide StepFrom;
      var l, index := |data|, 0;
      while index < l
        invariant 0 <= index <= l
        invariant Wire.Unmarshal(data, BlockMsg(old(Contents()))) == ParseFrom(data, index, BlockMsg(Contents()))
        decreases l - index
      {
        ghost var before, i := Contents(), index;
        index, err := UnmarshalField(data, index);
        if err.Err? {
          assert StepFrom(data, i, BlockMsg(before)).Halt?;
          return;
        }
        assert StepFrom(data, i, BlockMsg(before)) == Next(BlockMsg(Contents()), index);
      }
      return Ok;
    }

    method Append(change: StateChange)
      modifies this
      ensures changes == old(changes) + [change]
      ensures Contents() == old(Contents()).(changes := old(Contents()).changes + [change.Contents()])
    {
      ghost var cs := changes;
      changes := changes + [change];
      assert changes[..|cs|] == cs;
    }

    /** A new element of changes, read from its own slice of the input. It stays in the list, filled as far
        as it was read, when its bytes are refused. */
    method AppendChange(data: Bytes) returns (err: Outcome)
      modifies this
      ensures var p := Wire.Unmarshal(data, ChangeMsg(EMPTY_CHANGE));
              && err == OutcomeOf(p)
              && Contents() == old(Contents()).(changes := old(Contents()).changes + [p.message.change])
    {
      hide Wire.Unmarshal;
      var change := new StateChange([], [], false);
      ghost var cs := changes;
      changes := changes + [change];
      err := change.Unmarshal(data);
      assert ChangeList(cs) == old(ChangeList(changes));
      assert changes[..|cs|] == cs;
      assert ChangeList(changes) == ChangeList(cs) + [change.Contents()];
    }

    /** One turn of that loop. */
    method UnmarshalField(data: Bytes, start: nat) returns (index: nat, err: Outcome)
      requires start < |data|
      modifies this
      ensures match StepFrom(data, start, BlockMsg(old(Contents())))
              case Halt(f, m) => err == Err(Kind(f)) && m == BlockMsg(Contents())
              case Next(m, next) => err == Ok && m == BlockMsg(Contents()) && index == next
    {
      hide ReadTag, ReadVarint, ReadSpan, SkipField, ReadEntry, ToInt32, ToInt64, ChangeList, ParseFrom, Word, Digits;
      index, err := start, Ok;
      var t := DecodeTag(data, index);
      if t.NoTag? { return index, Err(t.error); }
      assert StepFrom(data, start, BlockMsg(old(Contents()))) == BlockField(data, start, t, old(Contents()));
      if t.field == 1 {
        if t.wireType != 0 { return index, Err(WrongWireType); }
        var r;
        r, height := DecodeInt64(data, t.next);
        if r.Bad? { return index, Err(r.error); }
        index := r.next;
      } else if t.field == 2 || t.field == 3 || t.field == 4 {
        if t.wireType != 2 { return index, Err(WrongWireType); }
        var lo, hi;
        lo, hi, err := DecodeSpan(data, t.next);
        if err.Err? { return; }
        if t.field == 2 {
          validators := validators + [data[lo..hi]];
        } else if t.field == 3 {
          var key, vote;
          key, vote, err := DecodeEntry(data, lo, hi);
          if err.Err? { return; }
          votes := votes[key := vote];
        } else {
          err := AppendChange(data[lo..hi]);
          if err.Err? { return; }
        }
        index := hi;
      } else {
        var next;
        next, err := SkipUnknown(data, start, |data|);
        if err.Err? { return; }
        index := next;
      }
    }
  }

  /** One map entry: value, tag 0x10, key, its length, tag 0x0a, right to left. */
  method PutVoteEntry(data: array<byte>, len: nat, k: Bytes, v: bool) returns (i: nat)
    requires |VoteEntry(k, v)| <= len <= data.Length && |k| < TWO_63
    modifies data
    ensures i == len - |VoteEntry(k, v)|
    ensures Filled(data[..], old(data[..]), i, VoteEntry(k, v) + old(data[..])[len..])
  {
    hide Record;
    ghost var was, rest := data[..], data[..][len..];
    ghost var flag: Bytes := [0x10, if v then 1 else 0];
    EntryFits(k, v);
    Assoc(Record(0x0a, k), flag, rest);
    i := PutFlagBytes(data, len, 0x10, v);
    ghost var mid := data[..];
    i := PutRecord(data, i, 0x0a, k);
    FillMore(was, len - 2, flag + rest, mid, i, Record(0x0a, k), data[..]);
  }

  /** A bool field: the value, then its tag below it. */
  method PutFlagBytes(data: array<byte>, len: nat, tag: byte, v: bool) returns (i: nat)
    requires 2 <= len <= data.Length
    modifies data
    ensures i == len - 2
    ensures Filled(data[..], old(data[..]), i, [tag, if v then 1 else 0] + old(data[..])[len..])
  {
    ghost var rest := data[len..];
    i := len - 1;
    data[i] := if v then 1 else 0;
    i := i - 1;
    data[i] := tag;
    assert data[..] == data[..i] + ([data[i], data[i + 1]] + rest);
  }

  /** The loop over a map entry that ends at post. */
  method DecodeEntry(data: Bytes, start: nat, post: nat) returns (key: Bytes, vote: bool, err: Outcome)
    requires start <= post <= |data|
    ensures match ReadEntry(data, start, post, [], false)
            case Entry(k, v) => err == Ok && key == k && vote == v
            case NoEntry(f) => err == Err(Kind(f))
  {
    hide ReadVarint, ReadSpan, SkipField, FieldNumber;
    var index := start;
    key, vote, err := [], false, Ok;
    while index < post
      invariant 0 <= index <= |data| && err == Ok
      invariant ReadEntry(data, start, post, [], false) == ReadEntry(data, index, post, key, vote)
      decreases |data| - index
    {
      var entryStart := index;
      var wire := DecodeWord(data, index);
      if wire.Bad? { return key, vote, Err(wire.error); }
      var field := FieldNumber(wire.value);
      if field == 1 {
        var lo, hi;
        lo, hi, err := DecodeSpan(data, wire.next);
        if err.Err? { return; }
        key := data[lo..hi];
        index := hi;
      } else if field == 2 {
        var v := DecodeWord(data, wire.next);
        if v.Bad? { return key, vote, Err(v.error); }
        vote := v.value != 0;
        index := v.next;
      } else {
        index, err := SkipUnknown(data, entryStart, post);
        if err.Err? { return; }
      }
    }
  }

  function ChangeList(cs: seq<StateChange>): (r: seq<Change>)
    reads cs
    ensures |r| == |cs| && forall i :: 0 <= i < |cs| ==> r[i] == cs[i].Contents()
  {
    if cs == [] then [] else ChangeList(cs[..|cs| - 1]) + [cs[|cs| - 1].Contents()]
  }
}
