/** Parsing is local: what is read out of a stretch of input does not depend on the bytes around it.
    From this: concatenation is merge. */
module WireLaws {
  import opened Bytes
  import opened Varints
  import opened Wire

  /** The same failure, n bytes further right. */
  function Further(f: Failure, n: nat): Failure {
    match f
    case Because(_) => f
    case PastEnd(end) => PastEnd(n + end)
  }

  lemma VarintWithin(a: Bytes, s: Bytes, b: Bytes, i: nat)
    ensures ReadVarint(s, i).Got? || b == [] ==>
              && ReadVarint(a + s + b, |a| + i) == Shifted(ReadVarint(s, i), |a|)
              && Word(a + s + b, |a| + i) == Word(s, i)
  {
    assert a + s + b == a + (s + b);
    DigitsOfSuffix(a, s + b, i, 0);
    if b == [] {
      assert s + b == s;
    } else if ReadVarint(s, i).Got? {
      DigitsOfPrefix(s, b, i, 0);
    }
  }

  lemma SpanWithin(a: Bytes, s: Bytes, b: Bytes, i: nat)
    requires |a + s + b| <= MAX_INT64
    ensures var r, r' := ReadSpan(s, i), ReadSpan(a + s + b, |a| + i);
            match r
            case Span(lo, hi) => r' == Span(|a| + lo, |a| + hi) && (a + s + b)[|a| + lo..|a| + hi] == s[lo..hi]
            case NoSpan(f) => b == [] ==> r' == NoSpan(Further(f, |a|))
  {
    VarintWithin(a, s, b, i);
    if ReadSpan(s, i).Span? {
      SliceWithin(a, s, b, ReadSpan(s, i).lo, ReadSpan(s, i).hi);
    }
  }

  lemma SliceWithin(a: Bytes, s: Bytes, b: Bytes, lo: nat, hi: nat)
    requires lo <= hi <= |s|
    ensures (a + s + b)[|a| + lo..|a| + hi] == s[lo..hi]
  {
  }

  lemma {:induction false} SkipOfPrefix(s: Bytes, b: Bytes, i: nat, depth: nat)
    requires SkipFrom(s, i, depth).SkippedTo?
    ensures SkipFrom(s + b, i, depth) == SkipFrom(s, i, depth)
    decreases |s| - i
  {
    DigitsOfPrefix(s, b, i, 0);
    var Got(wire, j) := ReadVarint(s, i);
    SkipPayloadOfPrefix(s, b, j, wire % 8);
    var depth' := DepthAfter(wire % 8, depth);
    if depth' != 0 {
      SkipOfPrefix(s, b, SkipPayload(s, j, wire % 8).next, depth');
    }
  }

  lemma SkipPayloadOfPrefix(s: Bytes, b: Bytes, j: nat, wireType: nat)
    requires SkipPayload(s, j, wireType).SkippedTo?
    ensures SkipPayload(s + b, j, wireType) == SkipPayload(s, j, wireType)
  {
    if ReadVarint(s, j).Got? {
      DigitsOfPrefix(s, b, j, 0);
    }
  }

  lemma SkipWithin(a: Bytes, s: Bytes, b: Bytes, i: nat, limit: nat, limit': nat)
    requires |a + s + b| <= MAX_INT64 && i <= |s| && limit <= |s|
    requires SkipField(s, i, limit).SkippedTo? || b == []
    requires |a| + limit <= limit' <= |a + s + b| && (b == [] ==> limit' == |a| + limit)
    ensures var r, r' := SkipField(s, i, limit), SkipField(a + s + b, |a| + i, limit');
            match r
            case SkippedTo(n) => r' == SkippedTo(|a| + n)
            case NoSkip(f) => r' == NoSkip(Further(f, |a|))
  {
    assert (a + s + b)[|a| + i..] == s[i..] + b;
    if b == [] {
      assert s[i..] + b == s[i..];
    } else {
      SkipOfPrefix(s[i..], b, 0, 0);
    }
  }

  lemma EntryFieldWithin(a: Bytes, s: Bytes, b: Bytes, i: nat, j: nat, field: int, post: nat, key: Bytes, vote: bool)
    requires |a + s + b| <= MAX_INT64 && i < j <= |s| && post <= |s|
    requires ReadEntryField(s, i, j, field, post, key, vote).Part? || b == []
    ensures var r := ReadEntryField(s, i, j, field, post, key, vote);
            var r' := ReadEntryField(a + s + b, |a| + i, |a| + j, field, |a| + post, key, vote);
            match r
            case Part(k, v, next) => r' == Part(k, v, |a| + next)
            case NoPart(f) => r' == NoPart(Further(f, |a|))
  {
    hide ReadVarint, ReadSpan, SkipField;
    if field == 1 {
      SpanWithin(a, s, b, j);
    } else if field == 2 {
      VarintWithin(a, s, b, j);
    } else {
      SkipWithin(a, s, b, i, post, |a| + post);
    }
  }

  lemma {:induction false} EntryWithin(a: Bytes, s: Bytes, b: Bytes, i: nat, post: nat, key: Bytes, vote: bool)
    requires |a + s + b| <= MAX_INT64 && post <= |s|
    requires ReadEntry(s, i, post, key, vote).Entry? || b == []
    ensures ReadEntry(a + s + b, |a| + i, |a| + post, key, vote) == EntryMoved(ReadEntry(s, i, post, key, vote), |a|)
    decreases |s| - i
  {
    hide ReadEntryField, ReadVarint, FieldNumber;
    var t := a + s + b;
    var r, r' := ReadEntry(s, i, post, key, vote), ReadEntry(t, |a| + i, |a| + post, key, vote);
    if i >= post {
      assert r == Entry(key, vote) && r' == Entry(key, vote);
    } else {
      VarintWithin(a, s, b, i);
      match ReadVarint(s, i)
      case Bad(e) =>
        assert r == NoEntry(Because(e)) && r' == r;
      case Got(wire, j) =>
        var f := FieldNumber(wire);
        EntryFieldWithin(a, s, b, i, j, f, post, key, vote);
        var part := ReadEntryField(s, i, j, f, post, key, vote);
        var part' := ReadEntryField(t, |a| + i, |a| + j, f, |a| + post, key, vote);
        if part.Part? {
          EntryWithin(a, s, b, part.next, post, part.key, part.vote);
          assert r == ReadEntry(s, part.next, post, part.key, part.vote);
          assert r' == ReadEntry(t, part'.next, |a| + post, part.key, part.vote);
        } else {
          assert r == NoEntry(part.failure);
          assert r' == NoEntry(part'.failure);
        }
    }
  }

  function EntryMoved(r: Entry, n: nat): Entry {
    match r
    case Entry(_, _) => r
    case NoEntry(f) => NoEntry(Further(f, n))
  }

  lemma TagWithin(a: Bytes, s: Bytes, b: Bytes, i: nat)
    requires ReadTag(s, i).Tag? || b == []
    ensures var r, r' := ReadTag(s, i), ReadTag(a + s + b, |a| + i);
            match r
            case Tag(f, w, next) => r' == Tag(f, w, |a| + next)
            case NoTag(e) => r' == NoTag(e)
  {
    VarintWithin(a, s, b, i);
  }

  function StepMoved(r: Step, n: nat): Step {
    match r
    case Next(m, next) => Next(m, n + next)
    case Halt(f, m) => Halt(Further(f, n), m)
  }

  lemma IgnoreWithin(a: Bytes, s: Bytes, b: Bytes, i: nat, m: Message)
    requires |a + s + b| <= MAX_INT64 && i <= |s|
    ensures Ignore(s, i, m).Next? || b == [] ==>
              Ignore(a + s + b, |a| + i, m) == StepMoved(Ignore(s, i, m), |a|)
  {
    if Ignore(s, i, m).Next? || b == [] {
      SkipWithin(a, s, b, i, |s|, |a + s + b|);
    }
  }

  lemma BlockFieldWithin(a: Bytes, s: Bytes, b: Bytes, i: nat, t: Tag, m: Block)
    requires |a + s + b| <= MAX_INT64 && i < |s| && t.Tag? && i < t.next
    ensures BlockField(s, i, t, m).Next? || b == [] ==>
              BlockField(a + s + b, |a| + i, t.(next := |a| + t.next), m) == StepMoved(BlockField(s, i, t, m), |a|)
  {
    hide ReadVarint, ReadSpan, Ignore, ReadEntry, ParseFrom, ToInt64, Word;
    VarintWithin(a, s, b, t.next);
    SpanWithin(a, s, b, t.next);
    IgnoreWithin(a, s, b, i, BlockMsg(m));
    if t.field == 3 && BytesPayload(s, t).Span? {
      var Span(lo, hi) := ReadSpan(s, t.next);
      if ReadEntry(s, lo, hi, [], false).Entry? || b == [] {
        EntryWithin(a, s, b, lo, hi, [], false);
      }
    }
  }

  lemma InfoFieldWithin(a: Bytes, s: Bytes, b: Bytes, i: nat, t: Tag, m: Info)
    requires |a + s + b| <= MAX_INT64 && i < |s| && t.Tag? && i < t.next
    ensures InfoField(s, i, t, m).Next? || b == [] ==>
              InfoField(a + s + b, |a| + i, t.(next := |a| + t.next), m) == StepMoved(InfoField(s, i, t, m), |a|)
  {
    hide ReadVarint, Ignore, ToInt32, ToInt64, Word;
    VarintWithin(a, s, b, t.next);
    IgnoreWithin(a, s, b, i, InfoMsg(m));
  }

  lemma ChangeFieldWithin(a: Bytes, s: Bytes, b: Bytes, i: nat, t: Tag, m: Change)
    requires |a + s + b| <= MAX_INT64 && i < |s| && t.Tag? && i < t.next
    ensures ChangeField(s, i, t, m).Next? || b == [] ==>
              ChangeField(a + s + b, |a| + i, t.(next := |a| + t.next), m) == StepMoved(ChangeField(s, i, t, m), |a|)
  {
    hide ReadVarint, ReadSpan, Ignore, Word;
    VarintWithin(a, s, b, t.next);
    SpanWithin(a, s, b, t.next);
    IgnoreWithin(a, s, b, i, ChangeMsg(m));
  }

  /** One turn of an Unmarshal loop looks only at the field it reads. */
  lemma StepWithin(a: Bytes, s: Bytes, b: Bytes, i: nat, m: Message)
    requires |a + s + b| <= MAX_INT64 && i < |s|
    requires StepFrom(s, i, m).Next? || b == []
    ensures StepFrom(a + s + b, |a| + i, m) == StepMoved(StepFrom(s, i, m), |a|)
  {
    hide ReadTag, BlockField, ChangeField, InfoField;
    TagWithin(a, s, b, i);
    var t := ReadTag(s, i);
    if t.Tag? {
      match m
      case BlockMsg(x) => BlockFieldWithin(a, s, b, i, t, x);
      case ChangeMsg(x) => ChangeFieldWithin(a, s, b, i, t, x);
      case InfoMsg(x) => InfoFieldWithin(a, s, b, i, t, x);
    }
  }

  // ---------- whole inputs ----------

  function ParseMoved(r: Parse, n: nat): Parse {
    match r
    case Parsed(_) => r
    case Rejected(f, m) => Rejected(Further(f, n), m)
  }

  lemma {:induction false} ParseOfSuffix(x: Bytes, y: Bytes, i: nat, m: Message)
    requires |x + y| <= MAX_INT64 && i <= |y|
    ensures ParseFrom(x + y, |x| + i, m) == ParseMoved(ParseFrom(y, i, m), |x|)
    decreases |y| - i
  {
    hide StepFrom;
    if i < |y| {
      StepWithin(x, y, [], i, m);
      assert x + y + [] == x + y;
      match StepFrom(y, i, m)
      case Halt(_, _) =>
      case Next(m', next) => ParseOfSuffix(x, y, next, m');
    }
  }

  lemma {:induction false} ParseOfPrefix(x: Bytes, y: Bytes, i: nat, m: Message)
    requires |x + y| <= MAX_INT64 && i <= |x|
    requires ParseFrom(x, i, m).Parsed?
    ensures ParseFrom(x + y, i, m) == ParseFrom(x + y, |x|, ParseFrom(x, i, m).message)
    decreases |x| - i
  {
    hide StepFrom;
    if i < |x| {
      StepWithin([], x, y, i, m);
      assert [] + x + y == x + y;
      var Next(m', next) := StepFrom(x, i, m);
      ParseOfPrefix(x, y, next, m');
    }
  }

  /** Concatenation is merge: once x parses, parsing x + y is parsing y on top of what x left. A refused y
      leaves the same message behind, refused for the same reason, |x| bytes further right. */
  lemma ConcatenationIsMerge(x: Bytes, y: Bytes, m: Message)
    requires |x + y| <= MAX_INT64
    requires Unmarshal(x, m).Parsed?
    ensures Unmarshal(x + y, m) == ParseMoved(Unmarshal(y, Unmarshal(x, m).message), |x|)
  {
    ParseOfPrefix(x, y, 0, m);
    ParseOfSuffix(x, y, 0, Unmarshal(x, m).message);
  }

  /** The kind of error depends on what came before exactly when the record that runs past the end would
      end within the largest int if counted from y, and beyond it if counted from x: an unexpected end is
      then reported as an invalid length. */
  lemma FailureKindMoves(x: Bytes, y: Bytes, m: Message)
    requires |x + y| <= MAX_INT64
    requires Unmarshal(x, m).Parsed? && Unmarshal(y, Unmarshal(x, m).message).Rejected?
    ensures Unmarshal(x + y, m).Rejected?
    ensures var f, f' := Unmarshal(y, Unmarshal(x, m).message).failure, Unmarshal(x + y, m).failure;
            && (Kind(f') != Kind(f) <==> f.PastEnd? && f.end < TWO_63 <= |x| + f.end)
            && (Kind(f') != Kind(f) ==> Kind(f) == UnexpectedEOF && Kind(f') == InvalidLength)
  {
    hide Unmarshal;
    ConcatenationIsMerge(x, y, m);
  }
}
