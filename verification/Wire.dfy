/** The wire form of BlockState, StateChange and ConsensusInfo: what Marshal writes, as bytes,
    and what Unmarshal reads, field by field. */
module Wire {
  import opened Bytes
  import opened Varints

  // ---------- messages as values ----------

  datatype Change = Change(key: Bytes, value: Bytes, isDeleted: bool)
  datatype Block = Block(height: int64, validators: seq<Bytes>, votes: map<Bytes, bool>, changes: seq<Change>)
  datatype Info = Info(totalValidators: int32, votedYes: int32, height: int64)

  datatype Message = BlockMsg(block: Block) | ChangeMsg(change: Change) | InfoMsg(info: Info)

  const EMPTY_CHANGE := Change([], [], false)
  const EMPTY_BLOCK := Block(0, [], map[], [])
  const EMPTY_INFO := Info(0, 0, 0)

  // ---------- writing ----------

  /** A length-delimited record with a one-byte tag. */
  function Record(tag: byte, body: Bytes): Bytes {
    [tag] + Varint(|body|) + body
  }

  function IntRecord(tag: byte, v: int): Bytes {
    if v == 0 then [] else [tag] + Varint(ToUint64(v))
  }

  function BytesRecord(tag: byte, body: Bytes): Bytes {
    if body == [] then [] else Record(tag, body)
  }

  function EncodeChange(c: Change): Bytes {
    BytesRecord(0x0a, c.key) + BytesRecord(0x12, c.value) + (if c.isDeleted then [0x18, 1] else [])
  }

  function EncodeInfo(m: Info): Bytes {
    IntRecord(0x08, m.totalValidators) + IntRecord(0x10, m.votedYes) + IntRecord(0x18, m.height)
  }

  function VoteEntry(key: Bytes, vote: bool): Bytes {
    Record(0x0a, key) + [0x10, if vote then 1 else 0]
  }

  function EncodeValidators(vs: seq<Bytes>): Bytes {
    if vs == [] then [] else Record(0x12, vs[0]) + EncodeValidators(vs[1..])
  }

  /** The votes, when `order` is the order in which the map is iterated. The writer works from
      right to left, so the key met first comes last. */
  function EncodeVotes(votes: map<Bytes, bool>, order: seq<Bytes>): Bytes
    requires forall k :: k in order ==> k in votes
  {
    if order == [] then []
    else
      var k := order[|order| - 1];
      Record(0x1a, VoteEntry(k, votes[k])) + EncodeVotes(votes, order[..|order| - 1])
  }

  function EncodeChanges(cs: seq<Change>): Bytes {
    if cs == [] then [] else Record(0x22, EncodeChange(cs[0])) + EncodeChanges(cs[1..])
  }

  /** The iteration orders of a map: every key, once. */
  ghost predicate IsOrder(order: seq<Bytes>, votes: map<Bytes, bool>) {
    && (forall i, j :: 0 <= i < j < |order| ==> order[i] != order[j])
    && (forall k :: k in order <==> k in votes)
  }

  function EncodeBlock(b: Block, order: seq<Bytes>): Bytes
    requires forall k :: k in order ==> k in b.votes
  {
    IntRecord(0x08, b.height) + EncodeValidators(b.validators)
    + EncodeVotes(b.votes, order) + EncodeChanges(b.changes)
  }

  // ---------- reading ----------

  /** Why reading fails: for a reason of its own, or because a record runs to index `end`, past where it
      may go. */
  datatype Failure = Because(error: Error) | PastEnd(end: nat)

  /** The error that is reported: an end beyond the largest int shows up as a negative number. */
  function Kind(f: Failure): Error {
    match f
    case Because(e) => e
    case PastEnd(end) => if end >= TWO_63 then InvalidLength else UnexpectedEOF
  }

  /** An index range of the input, or the index alone, or a failure. */
  datatype Span = Span(lo: nat, hi: nat) | NoSpan(failure: Failure)
  datatype Skipped = SkippedTo(next: nat) | NoSkip(failure: Failure)

  /** The payload of a length-delimited record whose length varint starts at i. */
  function ReadSpan(s: Bytes, i: nat): (r: Span)
    ensures r.Span? ==> i < r.lo <= r.hi <= |s|
  {
    match ReadVarint(s, i)
    case Bad(e) => NoSpan(Because(e))
    case Got(n, next) =>
      if n >= TWO_63 then NoSpan(Because(InvalidLength))
      else if next + n >= TWO_63 || next + n > |s| then NoSpan(PastEnd(next + n))
      else Span(next, next + n)
  }

  /** skipState from index i on, with `depth` groups open. The index it yields may lie past the end. */
  function SkipFrom(s: Bytes, i: nat, depth: nat): (r: Skipped)
    ensures r.SkippedTo? ==> i < r.next < TWO_63
    ensures r.NoSkip? ==> r.failure.Because?
    decreases |s| - i
  {
    if i >= |s| then NoSkip(Because(UnexpectedEOF))
    else
      match ReadVarint(s, i)
      case Bad(e) => NoSkip(Because(e))
      case Got(wire, j) =>
        if wire % 8 == 4 && depth == 0 then NoSkip(Because(UnexpectedEndOfGroup))
        else
          match SkipPayload(s, j, wire % 8)
          case NoSkip(f) => NoSkip(f)
          case SkippedTo(next) =>
            var depth' := DepthAfter(wire % 8, depth);
            if next >= TWO_63 then NoSkip(Because(InvalidLength))
            else if depth' == 0 then SkippedTo(next)
            else SkipFrom(s, next, depth')
  }

  /** The number of open groups after a tag of the given wire type. */
  function DepthAfter(wireType: nat, depth: nat): nat
    requires wireType == 4 ==> depth > 0
  {
    if wireType == 3 then depth + 1 else if wireType == 4 then depth - 1 else depth
  }

  /** The index after the payload at j of a record with the given wire type. */
  function SkipPayload(s: Bytes, j: nat, wireType: nat): (r: Skipped)
    ensures r.SkippedTo? ==> j <= r.next
    ensures r.NoSkip? ==> r.failure.Because?
  {
    match wireType
    case 0 => (match ReadVarint(s, j) case Bad(e) => NoSkip(Because(e)) case Got(_, next) => SkippedTo(next))
    case 1 => SkippedTo(j + 8)
    case 2 =>
      (match ReadVarint(s, j)
       case Bad(e) => NoSkip(Because(e))
       case Got(n, next) => if n >= TWO_63 then NoSkip(Because(InvalidLength)) else SkippedTo(next + n))
    case 3 => SkippedTo(j)
    case 4 => SkippedTo(j)
    case 5 => SkippedTo(j + 4)
    case _ => NoSkip(Because(IllegalWireType))
  }

  /** A caller of skipState at index i, which refuses to be taken beyond `limit`. */
  function SkipField(s: Bytes, i: nat, limit: nat): (r: Skipped)
    requires i <= |s|
    ensures r.SkippedTo? ==> i < r.next <= limit
  {
    match SkipFrom(s[i..], 0, 0)
    case NoSkip(f) => NoSkip(f)
    case SkippedTo(n) =>
      if i + n >= TWO_63 || i + n > limit then NoSkip(PastEnd(i + n)) else SkippedTo(i + n)
  }

  datatype Entry = Entry(key: Bytes, vote: bool) | NoEntry(failure: Failure)

  /** The loop over one map entry that ends at `post`. Its reads are bounded by the whole input,
      not by `post`, so it can leave the entry. */
  function ReadEntry(s: Bytes, i: nat, post: nat, key: Bytes, vote: bool): Entry
    requires post <= |s|
    decreases |s| - i
  {
    if i >= post then Entry(key, vote)
    else
      match ReadVarint(s, i)
      case Bad(e) => NoEntry(Because(e))
      case Got(wire, j) =>
        var part := ReadEntryField(s, i, j, FieldNumber(wire), post, key, vote);
        match part
        case NoPart(f) => NoEntry(f)
        case Part(key', vote', next) => ReadEntry(s, next, post, key', vote')
  }

  datatype EntryPart = Part(key: Bytes, vote: bool, next: nat) | NoPart(failure: Failure)

  /** One field of a map entry; its tag runs from i to j. The wire type is not looked at. */
  function ReadEntryField(s: Bytes, i: nat, j: nat, field: int, post: nat, key: Bytes, vote: bool): (r: EntryPart)
    requires i < j <= |s| && post <= |s|
    ensures r.Part? ==> i < r.next <= |s|
  {
    if field == 1 then
      match ReadSpan(s, j)
      case NoSpan(f) => NoPart(f)
      case Span(lo, hi) => Part(s[lo..hi], vote, hi)
    else if field == 2 then
      match ReadVarint(s, j)
      case Bad(e) => NoPart(Because(e))
      case Got(v, next) => Part(key, v != 0, next)
    else
      match SkipField(s, i, post)
      case NoSkip(f) => NoPart(f)
      case SkippedTo(next) => Part(key, vote, next)
  }

  /** int32(wire >> 3): high bits of the tag are lost. */
  function FieldNumber(wire: nat): int32 {
    ToInt32(wire / 8)
  }

  datatype Tag = Tag(field: int32, wireType: nat, next: nat) | NoTag(error: Error)

  function ReadTag(s: Bytes, i: nat): (r: Tag)
    ensures r.Tag? ==> i < r.next <= |s| && r.field > 0
  {
    match ReadVarint(s, i)
    case Bad(e) => NoTag(e)
    case Got(wire, next) =>
      if wire % 8 == 4 then NoTag(EndGroupForNonGroup)
      else if FieldNumber(wire) <= 0 then NoTag(IllegalTag)
      else Tag(FieldNumber(wire), wire % 8, next)
  }

  /** The state of an Unmarshal loop after one field: the message so far and the cursor. When the field is
      refused, the message is what the loop leaves behind. */
  datatype Step = Next(message: Message, next: nat) | Halt(failure: Failure, message: Message)

  /** An unknown field: the message stays as it is. */
  function Ignore(s: Bytes, i: nat, m: Message): (r: Step)
    requires i <= |s|
    ensures r.message == m && (r.Next? ==> i < r.next <= |s|)
  {
    match SkipField(s, i, |s|)
    case NoSkip(f) => Halt(f, m)
    case SkippedTo(next) => Next(m, next)
  }

  /** A varint gathered in the field itself, which is cleared first and keeps what was read of a number
      that breaks off: `m` is the message with the word stored. */
  function Gathered(s: Bytes, i: nat, m: Message): (r: Step)
    ensures r.message == m && (r.Next? ==> i < r.next <= |s|)
  {
    match ReadVarint(s, i)
    case Bad(e) => Halt(Because(e), m)
    case Got(_, next) => Next(m, next)
  }

  /** The payload of a length-delimited field. */
  function BytesPayload(s: Bytes, t: Tag): (r: Span)
    requires t.Tag?
    ensures r.Span? ==> t.next < r.lo <= r.hi <= |s|
  {
    if t.wireType != 2 then NoSpan(Because(WrongWireType)) else ReadSpan(s, t.next)
  }

  function InfoField(s: Bytes, i: nat, t: Tag, m: Info): (r: Step)
    requires i < |s| && t.Tag? && i < t.next
    ensures r.message.InfoMsg? && (r.Next? ==> i < r.next <= |s|)
  {
    if t.field > 3 then Ignore(s, i, InfoMsg(m))
    else if t.wireType != 0 then Halt(Because(WrongWireType), InfoMsg(m))
    else
      var v := Word(s, t.next);
      Gathered(s, t.next, InfoMsg(if t.field == 1 then m.(totalValidators := ToInt32(v))
                                  else if t.field == 2 then m.(votedYes := ToInt32(v))
                                  else m.(height := ToInt64(v))))
  }

  function ChangeField(s: Bytes, i: nat, t: Tag, c: Change): (r: Step)
    requires i < |s| && t.Tag? && i < t.next
    ensures r.message.ChangeMsg? && (r.Next? ==> i < r.next <= |s|)
  {
    if t.field > 3 then Ignore(s, i, ChangeMsg(c))
    else if t.field == 3 then
      if t.wireType != 0 then Halt(Because(WrongWireType), ChangeMsg(c))
      else
        match ReadVarint(s, t.next)
        case Bad(e) => Halt(Because(e), ChangeMsg(c))
        case Got(v, next) => Next(ChangeMsg(c.(isDeleted := v != 0)), next)
    else
      match BytesPayload(s, t)
      case NoSpan(f) => Halt(f, ChangeMsg(c))
      case Span(lo, hi) =>
        Next(ChangeMsg(if t.field == 1 then c.(key := s[lo..hi]) else c.(value := s[lo..hi])), hi)
  }

  function BlockField(s: Bytes, i: nat, t: Tag, b: Block): (r: Step)
    requires i < |s| && t.Tag? && i < t.next
    ensures r.message.BlockMsg? && (r.Next? ==> i < r.next <= |s|)
    decreases |s|, |s| - i, 0
  {
    if t.field > 4 then Ignore(s, i, BlockMsg(b))
    else if t.field == 1 then
      if t.wireType != 0 then Halt(Because(WrongWireType), BlockMsg(b))
      else Gathered(s, t.next, BlockMsg(b.(height := ToInt64(Word(s, t.next)))))
    else
      match BytesPayload(s, t)
      case NoSpan(f) => Halt(f, BlockMsg(b))
      case Span(lo, hi) =>
        if t.field == 2 then Next(BlockMsg(b.(validators := b.validators + [s[lo..hi]])), hi)
        else if t.field == 3 then
          match ReadEntry(s, lo, hi, [], false)
          case NoEntry(f) => Halt(f, BlockMsg(b))
          case Entry(key, vote) => Next(BlockMsg(b.(votes := b.votes[key := vote])), hi)
        else
          // the new change stays in the list even when its own bytes are refused
          var r := ParseFrom(s[lo..hi], 0, ChangeMsg(EMPTY_CHANGE));
          var m := BlockMsg(b.(changes := b.changes + [r.message.change]));
          if r.Rejected? then Halt(Because(Kind(r.failure)), m) else Next(m, hi)
  }

  /** One turn of an Unmarshal loop. */
  function StepFrom(s: Bytes, i: nat, m: Message): (r: Step)
    requires i < |s|
    ensures SameKind(r.message, m) && (r.Next? ==> i < r.next <= |s|)
    decreases |s|, |s| - i, 1
  {
    var t := ReadTag(s, i);
    if t.NoTag? then Halt(Because(t.error), m)
    else
      match m
      case BlockMsg(b) => BlockField(s, i, t, b)
      case ChangeMsg(c) => ChangeField(s, i, t, c)
      case InfoMsg(c) => InfoField(s, i, t, c)
  }

  predicate SameKind(m: Message, n: Message) {
    m.BlockMsg? == n.BlockMsg? && m.ChangeMsg? == n.ChangeMsg?
  }

  /** The message an Unmarshal leaves, filled in part when the input is refused. */
  datatype Parse = Parsed(message: Message) | Rejected(failure: Failure, message: Message)

  /** Unmarshal from cursor i on, on top of message m. The cursor advances strictly and an accepted
      input is read to its very end. */
  function ParseFrom(s: Bytes, i: nat, m: Message): (r: Parse)
    requires i <= |s|
    ensures SameKind(r.message, m)
    decreases |s|, |s| - i, 2
  {
    if i == |s| then Parsed(m)
    else
      match StepFrom(s, i, m)
      case Halt(f, m') => Rejected(f, m')
      case Next(m', next) => ParseFrom(s, next, m')
  }

  /** Unmarshal of input s into a message that already holds m. */
  function Unmarshal(s: Bytes, m: Message): (r: Parse)
    ensures SameKind(r.message, m)
  {
    ParseFrom(s, 0, m)
  }
}
