/** Fields this version does not know: well-formed ones, groups included, are skipped whole, and so are
    groups closed by a tag of any other number; a message reads the same with or without them. */
module UnknownFields {
  import opened Bytes
  import opened Varints
  import opened Wire
  import opened WireLaws
  import opened RoundTrip

  /** A field of any wire type. A group ends with a tag that carries a field number of its own. */
  datatype Field = Field(number: nat, body: Body)
  datatype Body =
    | Scalar(v: uint64)
    | Fixed64(b8: Bytes)
    | Delimited(body: Bytes)
    | Group(fields: seq<Field>, end: nat)
    | Fixed32(b4: Bytes)

  function WireType(b: Body): byte {
    match b
    case Scalar(_) => 0
    case Fixed64(_) => 1
    case Delimited(_) => 2
    case Group(_, _) => 3
    case Fixed32(_) => 5
  }

  /** A field number whose tag fits 64 bits. */
  predicate TagFits(number: nat) {
    8 * number + 7 < TWO_64
  }

  /** The shape that skipState looks for: any numbers, and a group closed by any end-group tag. */
  predicate Shaped(f: Field)
    decreases f
  {
    && TagFits(f.number)
    && match f.body
       case Scalar(_) => true
       case Fixed64(b) => |b| == 8
       case Fixed32(b) => |b| == 4
       case Delimited(b) => |b| < TWO_63
       case Group(fs, end) => TagFits(end) && forall i :: 0 <= i < |fs| ==> Shaped(fs[i])
  }

  /** What the format asks for on top: field numbers from 1 to 2^29 - 1, and each group closed by its own. */
  predicate WellFormed(f: Field)
    decreases f
  {
    && Shaped(f) && 1 <= f.number < 0x2000_0000
    && (f.body.Group? ==>
          f.body.end == f.number && forall i :: 0 <= i < |f.body.fields| ==> WellFormed(f.body.fields[i]))
  }

  function EncodeField(f: Field): Bytes
    decreases f, 1
  {
    Varint(8 * f.number + WireType(f.body)) + EncodeBody(f)
  }

  function EncodeBody(f: Field): Bytes
    decreases f, 0
  {
    match f.body
    case Scalar(v) => Varint(v)
    case Fixed64(b) => b
    case Fixed32(b) => b
    case Delimited(b) => Varint(|b|) + b
    case Group(fs, end) => EncodeFields(fs) + Varint(8 * end + 4)
  }

  function EncodeFields(fs: seq<Field>): Bytes
    decreases fs, 0
  {
    if fs == [] then [] else EncodeField(fs[0]) + EncodeFields(fs[1..])
  }

  /** Where skipState stands after a whole field that began at depth `depth`. */
  function After(s: Bytes, i: nat, depth: nat): Skipped {
    if depth == 0 then SkippedTo(i) else SkipFrom(s, i, depth)
  }

  function AfterPayload(s: Bytes, payload: Skipped, depth: nat): Skipped {
    match payload
    case NoSkip(f) => NoSkip(f)
    case SkippedTo(next) => if next >= TWO_63 then NoSkip(Because(InvalidLength)) else After(s, next, depth)
  }

  lemma TagSkips(a: Bytes, wire: uint64, b: Bytes, depth: nat)
    requires wire % 8 == 4 ==> depth > 0
    ensures SkipFrom(a + Varint(wire) + b, |a|, depth)
         == AfterPayload(a + Varint(wire) + b, SkipPayload(a + Varint(wire) + b, |a + Varint(wire)|, wire % 8),
                         DepthAfter(wire % 8, depth))
  {
    hide ReadVarint, SkipPayload;
    VarintReadBack(a, wire, b);
    var s := a + Varint(wire) + b;
    assert |a| < |s|;
  }

  lemma PayloadSkips(a: Bytes, f: Field, b: Bytes)
    requires Shaped(f) && !f.body.Group? && |a + EncodeBody(f) + b| <= MAX_INT64
    ensures SkipPayload(a + EncodeBody(f) + b, |a|, WireType(f.body)) == SkippedTo(|a + EncodeBody(f)|)
  {
    match f.body
    case Scalar(v) => VarintReadBack(a, v, b);
    case Fixed64(_) =>
    case Fixed32(_) =>
    case Delimited(d) =>
      assert a + EncodeBody(f) + b == a + Varint(|d|) + (d + b);
      VarintReadBack(a, |d|, d + b);
  }

  lemma Join(a: Bytes, b: Bytes, c: Bytes, d: Bytes)
    ensures a + (b + c) + d == a + b + (c + d) == (a + b) + c + d
  {
  }

  lemma {:induction false} FieldSkips(a: Bytes, f: Field, b: Bytes, depth: nat)
    requires Shaped(f) && |a + EncodeField(f) + b| <= MAX_INT64
    ensures SkipFrom(a + EncodeField(f) + b, |a|, depth) == After(a + EncodeField(f) + b, |a + EncodeField(f)|, depth)
    decreases f, 1
  {
    hide SkipFrom, SkipPayload, Varint, EncodeBody, EncodeFields, Shaped;
    var wire := 8 * f.number + WireType(f.body);
    assert wire % 8 == WireType(f.body) && wire < TWO_64 by { WireFits(f); }
    var t, body := Varint(wire), EncodeBody(f);
    Join(a, t, body, b);
    TagSkips(a, wire, body + b, depth);
    if f.body.Group? {
      GroupSkips(a + t, f, b, depth);
    } else {
      PayloadSkips(a + t, f, b);
    }
    assert a + t + body == a + EncodeField(f);
  }

  lemma WireFits(f: Field)
    requires Shaped(f)
    ensures var w := WireType(f.body); (8 * f.number + w) % 8 == w && 8 * f.number + w < TWO_64
  {
  }

  lemma {:induction false} GroupSkips(a: Bytes, f: Field, b: Bytes, depth: nat)
    requires Shaped(f) && f.body.Group? && |a + EncodeBody(f) + b| <= MAX_INT64
    ensures SkipPayload(a + EncodeBody(f) + b, |a|, 3) == SkippedTo(|a|)
    ensures SkipFrom(a + EncodeBody(f) + b, |a|, depth + 1) == After(a + EncodeBody(f) + b, |a + EncodeBody(f)|, depth)
    decreases f, 0
  {
    hide SkipFrom, Varint, EncodeFields;
    var fs, wire := f.body.fields, 8 * f.body.end + 4;
    var inner, stop := EncodeFields(fs), Varint(wire);
    Join(a, inner, stop, b);
    FieldsSkip(a, fs, stop + b, depth + 1);
    TagSkips(a + inner, wire, b, depth + 1);
    assert a + inner + stop == a + EncodeBody(f);
  }

  lemma {:induction false} FieldsSkip(a: Bytes, fs: seq<Field>, b: Bytes, depth: nat)
    requires depth > 0 && (forall i :: 0 <= i < |fs| ==> Shaped(fs[i])) && |a + EncodeFields(fs) + b| <= MAX_INT64
    ensures SkipFrom(a + EncodeFields(fs) + b, |a|, depth)
         == SkipFrom(a + EncodeFields(fs) + b, |a + EncodeFields(fs)|, depth)
    decreases fs, 0
  {
    hide SkipFrom, EncodeField, Shaped;
    if fs == [] {
      assert a + EncodeFields(fs) == a;
    } else {
      var first, rest := EncodeField(fs[0]), EncodeFields(fs[1..]);
      Join(a, first, rest, b);
      FieldSkips(a, fs[0], rest + b, depth);
      FieldsSkip(a + first, fs[1..], b, depth);
      assert a + first + rest == a + EncodeFields(fs);
    }
  }

  /** skipState takes in exactly one field of the shape it looks for, however deep its groups nest, whatever
      numbers close them, and whatever follows. */
  lemma WholeFieldSkipped(f: Field, rest: Bytes)
    requires Shaped(f) && |EncodeField(f) + rest| <= MAX_INT64
    ensures SkipFrom(EncodeField(f) + rest, 0, 0) == SkippedTo(|EncodeField(f)|)
  {
    assert [] + EncodeField(f) + rest == EncodeField(f) + rest;
    FieldSkips([], f, rest, 0);
  }

  /** An end-group tag of any number is accepted exactly when some group is open, and closes the innermost. */
  lemma GroupEnds(a: Bytes, number: nat, b: Bytes, depth: nat)
    requires TagFits(number) && |a + Varint(8 * number + 4) + b| <= MAX_INT64
    ensures var s, next := a + Varint(8 * number + 4) + b, |a + Varint(8 * number + 4)|;
            SkipFrom(s, |a|, depth)
            == if depth == 0 then NoSkip(Because(UnexpectedEndOfGroup)) else After(s, next, depth - 1)
  {
    var wire := 8 * number + 4;
    assert wire % 8 == 4;
    if depth == 0 {
      VarintReadBack(a, wire, b);
    } else {
      TagSkips(a, wire, b, depth);
    }
  }

  predicate Known(m: Message, number: nat) {
    number <= if m.BlockMsg? then 4 else 3
  }

  /** A field number that a message takes for one it does not know: it is positive as an int32. */
  predicate Unknown(m: Message, f: Field) {
    Shaped(f) && f.number <= MAX_INT32 && !Known(m, f.number)
  }

  lemma UnknownFieldParses(f: Field, m: Message)
    requires Unknown(m, f) && |EncodeField(f)| <= MAX_INT64
    ensures Wire.Unmarshal(EncodeField(f), m) == Parsed(m)
  {
    hide SkipFrom, EncodeBody, ReadVarint, Shaped;
    var s := EncodeField(f);
    assert s + [] == s && s[0..] == s;
    WholeFieldSkipped(f, []);
    UnknownTag(f);
    OneStep(s, m, m);
  }

  lemma UnknownTag(f: Field)
    requires Shaped(f) && 0 < f.number <= MAX_INT32
    ensures ReadTag(EncodeField(f), 0).Tag? && ReadTag(EncodeField(f), 0).field == f.number
  {
    WireFits(f);
    NumberFits(f);
    hide EncodeBody, ReadVarint, Varint, Shaped, FieldNumber;
    var wire := 8 * f.number + WireType(f.body);
    assert EncodeField(f) == [] + Varint(wire) + EncodeBody(f);
    VarintReadBack([], wire, EncodeBody(f));
  }

  lemma NumberFits(f: Field)
    requires f.number <= MAX_INT32
    ensures FieldNumber(8 * f.number + WireType(f.body)) == f.number && WireType(f.body) != 4
  {
    assert (8 * f.number + WireType(f.body)) / 8 == f.number;
  }

  /** A message with an unknown field between two parts, well-formed or with groups closed by other numbers,
      reads as if the field were absent: it is accepted or refused alike, the same message is left, and a
      refusal has the same reason, further right by the length of the field. */
  lemma UnknownFieldsAreIgnored(x: Bytes, f: Field, y: Bytes, m: Message)
    requires Wire.Unmarshal(x, m).Parsed?
    requires Unknown(m, f) && |x + EncodeField(f) + y| <= MAX_INT64
    ensures var r, r' := Wire.Unmarshal(x + y, m), Wire.Unmarshal(x + EncodeField(f) + y, m);
            && r'.message == r.message && (r'.Parsed? <==> r.Parsed?)
            && (r.Rejected? ==> r'.failure == Further(r.failure, |EncodeField(f)|))
  {
    hide Wire.Unmarshal, EncodeField;
    var m1 := Wire.Unmarshal(x, m).message;
    UnknownFieldParses(f, m1);
    Then(x, EncodeField(f), m, m1, m1);
    ConcatenationIsMerge(x, y, m);
    ConcatenationIsMerge(x + EncodeField(f), y, m);
  }

  /** Every well-formed unknown field is one of these. */
  lemma WellFormedIsUnknown(m: Message, f: Field)
    requires WellFormed(f) && !Known(m, f.number)
    ensures Unknown(m, f)
  {
  }

  /** But not the other way round: a block accepts a group that begins with number 5 and ends with 6. */
  lemma MismatchedGroupAccepted(b: Block)
    ensures Wire.Unmarshal([0x2b, 0x34], BlockMsg(b)) == Parsed(BlockMsg(b))
    ensures [0x2b, 0x34] == EncodeField(Field(5, Group([], 6))) && !WellFormed(Field(5, Group([], 6)))
  {
    var f := Field(5, Group([], 6));
    assert EncodeField(f) == [0x2b, 0x34];
    UnknownFieldParses(f, BlockMsg(b));
  }
}
