/** When a votes entry stays inside its record. The entry loop is bounded by the whole input, so that the
    last field it reads may end past the entry; what follows is then read twice. */
module EntryBounds {
  import opened Bytes
  import opened Varints
  import opened Wire
  import opened WireLaws

  /** Where the loop over an entry stops: the end of the last field it reads. */
  function EntryEnd(s: Bytes, i: nat, post: nat): nat
    requires post <= |s|
    decreases |s| - i
  {
    if i >= post then i
    else
      match ReadVarint(s, i)
      case Bad(_) => i
      case Got(wire, j) =>
        match ReadEntryField(s, i, j, FieldNumber(wire), post, [], false)
        case NoPart(_) => i
        case Part(_, _, next) => EntryEnd(s, next, post)
  }

  // ---------- reading an input that is cut off ----------

  lemma {:induction false} DigitsCut(s: Bytes, i: nat, k: nat, cut: nat)
    requires i <= cut <= |s| && ReadDigits(s, i, k).Got?
    ensures ReadDigits(s[..cut], i, k)
         == if ReadDigits(s, i, k).next <= cut then ReadDigits(s, i, k) else Bad(UnexpectedEOF)
    decreases 10 - k
  {
    if i < cut && s[i] >= 128 {
      DigitsCut(s, i + 1, k + 1, cut);
    }
  }

  lemma VarintCut(s: Bytes, i: nat, cut: nat)
    requires i <= cut <= |s| && ReadVarint(s, i).Got?
    ensures ReadVarint(s[..cut], i) == if ReadVarint(s, i).next <= cut then ReadVarint(s, i) else Bad(UnexpectedEOF)
  {
    DigitsCut(s, i, 0, cut);
  }

  lemma SpanCut(s: Bytes, i: nat, cut: nat)
    requires i <= cut <= |s| <= MAX_INT64 && ReadSpan(s, i).Span?
    ensures var r, r' := ReadSpan(s, i), ReadSpan(s[..cut], i);
            && (r.hi <= cut ==> r' == r && s[..cut][r.lo..r.hi] == s[r.lo..r.hi])
            && (r.hi > cut ==> r'.NoSpan? && Kind(r'.failure) == UnexpectedEOF)
  {
    VarintCut(s, i, cut);
  }

  lemma {:induction false} SkipCut(s: Bytes, i: nat, depth: nat, cut: nat)
    requires SkipFrom(s, i, depth).SkippedTo? && SkipFrom(s, i, depth).next <= cut <= |s|
    ensures SkipFrom(s[..cut], i, depth) == SkipFrom(s, i, depth)
    decreases |s| - i
  {
    hide ReadVarint;
    var Got(wire, j) := ReadVarint(s, i);
    var next := SkipPayload(s, j, wire % 8).next;
    var depth' := DepthAfter(wire % 8, depth);
    VarintCut(s, i, cut);
    PayloadCut(s, j, wire % 8, cut);
    if depth' != 0 {
      SkipCut(s, next, depth', cut);
    }
  }

  lemma PayloadCut(s: Bytes, j: nat, wireType: nat, cut: nat)
    requires SkipPayload(s, j, wireType).SkippedTo? && SkipPayload(s, j, wireType).next <= cut <= |s|
    ensures SkipPayload(s[..cut], j, wireType) == SkipPayload(s, j, wireType)
  {
    hide ReadVarint;
    if ReadVarint(s, j).Got? && j <= cut {
      VarintCut(s, j, cut);
    }
  }

  lemma FieldCut(s: Bytes, i: nat, j: nat, field: int, post: nat, key: Bytes, vote: bool)
    requires i < j <= post <= |s| <= MAX_INT64 && ReadEntryField(s, i, j, field, post, key, vote).Part?
    ensures var r, r' := ReadEntryField(s, i, j, field, post, key, vote),
                         ReadEntryField(s[..post], i, j, field, post, key, vote);
            && (r.next <= post ==> r' == r)
            && (r.next > post ==> r'.NoPart? && Kind(r'.failure) == UnexpectedEOF)
  {
    hide ReadVarint, ReadSpan, SkipFrom;
    if field == 1 {
      SpanCut(s, j, post);
    } else if field == 2 {
      VarintCut(s, j, post);
    } else {
      SkipCut(s[i..], 0, 0, post - i);
      assert s[i..][..post - i] == s[..post][i..];
    }
  }

  // ---------- the exact condition ----------

  /** An accepted entry whose fields end where it does reads the same when the input stops there. One whose
      last field ends past it is then refused, for want of bytes. */
  lemma {:induction false} EntryCut(s: Bytes, i: nat, post: nat, key: Bytes, vote: bool)
    requires i <= post <= |s| <= MAX_INT64 && ReadEntry(s, i, post, key, vote).Entry?
    ensures var r, r' := ReadEntry(s, i, post, key, vote), ReadEntry(s[..post], i, post, key, vote);
            if EntryEnd(s, i, post) == post then r' == r
            else r'.NoEntry? && Kind(r'.failure) == UnexpectedEOF && EntryEnd(s, i, post) > post
    decreases |s| - i
  {
    hide ReadEntryField, ReadVarint, FieldNumber;
    if i < post {
      var Got(wire, j) := ReadVarint(s, i);
      VarintCut(s, i, post);
      if j <= post {
        FieldCut(s, i, j, FieldNumber(wire), post, key, vote);
      }
      FieldEnds(s, i, j, FieldNumber(wire), post, key, vote);
      var part := ReadEntryField(s, i, j, FieldNumber(wire), post, key, vote);
      if part.next <= post {
        EntryCut(s, part.next, post, part.key, part.vote);
      } else {
        assert EntryEnd(s, part.next, post) == part.next;
      }
    }
  }

  /** Where a field of an entry ends does not depend on what the entry holds so far. */
  lemma FieldEnds(s: Bytes, i: nat, j: nat, field: int, post: nat, key: Bytes, vote: bool)
    requires i < j <= |s| && post <= |s| && ReadEntryField(s, i, j, field, post, key, vote).Part?
    requires ReadVarint(s, i).Got? && ReadVarint(s, i).next == j
    ensures var r, r' := ReadEntryField(s, i, j, field, post, key, vote),
                         ReadEntryField(s, i, j, field, post, [], false);
            r'.Part? && r'.next == r.next && j <= r.next
  {
    hide ReadVarint, ReadSpan;
    if field != 1 && field != 2 {
      TagPrecedes(s[i..]);
      assert s[..i] + s[i..] + [] == s;
      VarintWithin(s[..i], s[i..], [], 0);
    }
  }

  lemma TagPrecedes(s: Bytes)
    requires SkipFrom(s, 0, 0).SkippedTo?
    ensures ReadVarint(s, 0).Got? && ReadVarint(s, 0).next <= SkipFrom(s, 0, 0).next
  {
  }

  /** An entry is accepted on its own exactly when it is accepted where it stands and no field of it ends
      past it. */
  lemma EntryConfined(s: Bytes, i: nat, post: nat, key: Bytes, vote: bool)
    requires i <= post <= |s| <= MAX_INT64
    ensures ReadEntry(s[..post], i, post, key, vote).Entry? <==>
              ReadEntry(s, i, post, key, vote).Entry? && EntryEnd(s, i, post) == post
    ensures ReadEntry(s[..post], i, post, key, vote).Entry? ==>
              ReadEntry(s[..post], i, post, key, vote) == ReadEntry(s, i, post, key, vote)
  {
    hide ReadEntry;
    if ReadEntry(s[..post], i, post, key, vote).Entry? {
      assert [] + s[..post] + s[post..] == s;
      EntryWithin([], s[..post], s[post..], i, post, key, vote);
    }
    if ReadEntry(s, i, post, key, vote).Entry? {
      EntryCut(s, i, post, key, vote);
    }
  }

  /** The same for a whole votes record that a block accepts at i: as the last record of the input it is
      read alike exactly when its entry ends where the record does, and refused otherwise. */
  lemma VotesRecordConfined(s: Bytes, i: nat, b: Block)
    requires i < |s| <= MAX_INT64 && StepFrom(s, i, BlockMsg(b)).Next?
    requires ReadTag(s, i).Tag? && ReadTag(s, i).field == 3
    ensures var t := ReadTag(s, i);
            var span, r := ReadSpan(s, t.next), StepFrom(s, i, BlockMsg(b));
            && span.Span? && r.next == span.hi > i
            && var r' := StepFrom(s[..span.hi], i, BlockMsg(b));
               if EntryEnd(s, span.lo, span.hi) == span.hi then r' == r
               else r'.Halt? && Kind(r'.failure) == UnexpectedEOF && r'.message == BlockMsg(b)
  {
    hide ReadVarint, ReadSpan, ReadEntry, EntryEnd;
    var t := ReadTag(s, i);
    var span := ReadSpan(s, t.next);
    var c := s[..span.hi];
    assert ReadVarint(s, i).Got?;
    VarintCut(s, i, span.hi);
    assert ReadTag(c, i) == t;
    SpanCut(s, t.next, span.hi);
    EntryCut(s, span.lo, span.hi, [], false);
  }
}
