/** How the encoded parts of the messages fit together, and how long they are. */
module WireLengths {
  import opened Bytes
  import opened Varints
  import opened Wire

  function FlagBytes(c: Change): Bytes {
    if c.isDeleted then [0x18, 1] else []
  }

  lemma ChangeParts(c: Change, rest: Bytes)
    ensures |EncodeChange(c)| == |BytesRecord(0x0a, c.key)| + |BytesRecord(0x12, c.value)| + |FlagBytes(c)|
    ensures |c.key| <= |BytesRecord(0x0a, c.key)| && |c.value| <= |BytesRecord(0x12, c.value)|
    ensures EncodeChange(c) + rest == BytesRecord(0x0a, c.key) + (BytesRecord(0x12, c.value) + (FlagBytes(c) + rest))
  {
  }

  lemma IntRecordLength(tag: byte, v: int)
    ensures |IntRecord(tag, v)| == if v == 0 then 0 else 1 + Sov(ToUint64(v))
  {
    VarintLength(ToUint64(v));
  }

  lemma BodyFits(tag: byte, body: Bytes)
    ensures |body| <= |Record(tag, body)|
  {
  }

  lemma EntryFits(k: Bytes, v: bool)
    ensures |VoteEntry(k, v)| == |Record(0x0a, k)| + 2 && |k| <= |VoteEntry(k, v)|
  {
  }

  lemma BlockParts(b: Block, order: seq<Bytes>, rest: Bytes)
    requires forall k :: k in order ==> k in b.votes
    ensures |EncodeBlock(b, order)| == |IntRecord(0x08, b.height)| + |EncodeValidators(b.validators)|
                                       + |EncodeVotes(b.votes, order)| + |EncodeChanges(b.changes)|
    ensures EncodeBlock(b, order) + rest
         == IntRecord(0x08, b.height) + (EncodeValidators(b.validators)
            + (EncodeVotes(b.votes, order) + (EncodeChanges(b.changes) + rest)))
  {
    hide EncodeValidators, EncodeVotes, EncodeChanges, IntRecord;
    var h, v := IntRecord(0x08, b.height), EncodeValidators(b.validators);
    var w, c := EncodeVotes(b.votes, order), EncodeChanges(b.changes);
    assert h + v + w + c + rest == h + (v + (w + (c + rest)));
  }

  lemma {:induction false} ChangesSplit(cs: seq<Change>, j: nat, rest: Bytes)
    requires j < |cs|
    ensures var r, tail := Record(0x22, EncodeChange(cs[j])), EncodeChanges(cs[j + 1..]);
            && EncodeChanges(cs[j..]) + rest == r + (tail + rest)
            && |EncodeChange(cs[j])| <= |r| && |EncodeChanges(cs[j..])| == |r| + |tail|
    ensures |EncodeChanges(cs[j..])| <= |EncodeChanges(cs)|
  {
    hide EncodeChange;
    assert cs[j..][1..] == cs[j + 1..];
    var r, tail := Record(0x22, EncodeChange(cs[j])), EncodeChanges(cs[j + 1..]);
    assert EncodeChanges(cs[j..]) == r + tail;
    Assoc(r, tail, rest);
    if j > 0 {
      ChangesSplit(cs[1..], j - 1, rest);
      assert cs[1..][j - 1..] == cs[j..];
    } else {
      assert cs[0..] == cs;
    }
  }

  lemma ChangesEnds(cs: seq<Change>)
    ensures EncodeChanges(cs[|cs|..]) == [] && EncodeChanges(cs[0..]) == EncodeChanges(cs)
  {
    assert cs[0..] == cs;
  }

  lemma Assoc(a: Bytes, b: Bytes, c: Bytes)
    ensures (a + b) + c == a + (b + c)
  {
  }

  lemma {:induction false} ValidatorsSplit(vs: seq<Bytes>, j: nat, rest: Bytes)
    requires j < |vs|
    ensures var r, tail := Record(0x12, vs[j]), EncodeValidators(vs[j + 1..]);
            && EncodeValidators(vs[j..]) + rest == r + (tail + rest)
            && |vs[j]| <= |r| && |EncodeValidators(vs[j..])| == |r| + |tail|
    ensures |EncodeValidators(vs[j..])| <= |EncodeValidators(vs)|
  {
    assert vs[j..][1..] == vs[j + 1..];
    var r, tail := Record(0x12, vs[j]), EncodeValidators(vs[j + 1..]);
    assert EncodeValidators(vs[j..]) == r + tail;
    Assoc(r, tail, rest);
    if j > 0 {
      ValidatorsSplit(vs[1..], j - 1, rest);
      assert vs[1..][j - 1..] == vs[j..];
    } else {
      assert vs[0..] == vs;
    }
  }

  lemma ValidatorsEnds(vs: seq<Bytes>)
    ensures EncodeValidators(vs[|vs|..]) == [] && EncodeValidators(vs[0..]) == EncodeValidators(vs)
  {
    assert vs[0..] == vs;
  }

  lemma {:induction false} VotesSplit(votes: map<Bytes, bool>, order: seq<Bytes>, j: nat, rest: Bytes)
    requires j < |order| && forall k :: k in order ==> k in votes
    ensures var e, tail := VoteEntry(order[j], votes[order[j]]), EncodeVotes(votes, order[..j]);
            var r := Record(0x1a, e);
            && EncodeVotes(votes, order[..j + 1]) + rest == r + (tail + rest)
            && |e| <= |r| && |EncodeVotes(votes, order[..j + 1])| == |r| + |tail|
    ensures |EncodeVotes(votes, order[..j + 1])| <= |EncodeVotes(votes, order)|
    decreases |order|
  {
    hide VoteEntry;
    assert order[..j + 1][..j] == order[..j];
    var r, tail := Record(0x1a, VoteEntry(order[j], votes[order[j]])), EncodeVotes(votes, order[..j]);
    assert EncodeVotes(votes, order[..j + 1]) == r + tail;
    Assoc(r, tail, rest);
    var init := order[..|order| - 1];
    if j < |order| - 1 {
      VotesSplit(votes, init, j, rest);
      assert init[..j + 1] == order[..j + 1];
    } else {
      assert order[..j + 1] == order;
    }
  }

  lemma VotesEnds(votes: map<Bytes, bool>, order: seq<Bytes>)
    requires forall k :: k in order ==> k in votes
    ensures EncodeVotes(votes, order[..0]) == [] && EncodeVotes(votes, order[..|order|]) == EncodeVotes(votes, order)
  {
    assert order[..|order|] == order;
  }

  lemma {:induction false} ValidatorsGrow(vs: seq<Bytes>, j: nat)
    requires j < |vs|
    ensures |EncodeValidators(vs[..j + 1])| == |EncodeValidators(vs[..j])| + |Record(0x12, vs[j])|
    decreases j
  {
    if j > 0 {
      ValidatorsGrow(vs[1..], j - 1);
      assert vs[1..][..j] == vs[..j + 1][1..] && vs[1..][..j - 1] == vs[..j][1..];
    }
  }

  lemma {:induction false} ChangesGrow(cs: seq<Change>, j: nat)
    requires j < |cs|
    ensures |EncodeChanges(cs[..j + 1])| == |EncodeChanges(cs[..j])| + |Record(0x22, EncodeChange(cs[j]))|
    decreases j
  {
    if j > 0 {
      ChangesGrow(cs[1..], j - 1);
      assert cs[1..][..j] == cs[..j + 1][1..] && cs[1..][..j - 1] == cs[..j][1..];
    }
  }

  /** The bytes that votes under the given keys take; the votes themselves do not matter. */
  function VotesSize(order: seq<Bytes>): nat {
    if order == [] then 0
    else VotesSize(order[..|order| - 1]) + |Record(0x1a, VoteEntry(order[|order| - 1], true))|
  }

  lemma {:induction false} VotesLength(votes: map<Bytes, bool>, order: seq<Bytes>)
    requires forall k :: k in order ==> k in votes
    ensures |EncodeVotes(votes, order)| == VotesSize(order)
    decreases |order|
  {
    if order != [] {
      VotesLength(votes, order[..|order| - 1]);
    }
  }

  lemma {:induction false} VotesSizeRemove(order: seq<Bytes>, j: nat)
    requires j < |order|
    ensures VotesSize(order)
         == VotesSize(order[..j] + order[j + 1..]) + |Record(0x1a, VoteEntry(order[j], true))|
    decreases |order|
  {
    hide Record, VoteEntry;
    var n := |order| - 1;
    if j == n {
      assert order[..j] + order[j + 1..] == order[..n];
    } else {
      VotesSizeRemove(order[..n], j);
      var less := order[..j] + order[j + 1..];
      assert less[..n - 1] == order[..n][..j] + order[..n][j + 1..];
      assert less[n - 1] == order[n];
    }
  }

  /** Two orders of the same keys take the same space. */
  lemma {:induction false} VotesSizeOfOrders(a: seq<Bytes>, b: seq<Bytes>)
    requires forall i, j :: 0 <= i < j < |a| ==> a[i] != a[j]
    requires forall i, j :: 0 <= i < j < |b| ==> b[i] != b[j]
    requires forall k :: k in a <==> k in b
    ensures VotesSize(a) == VotesSize(b)
    decreases |a|
  {
    if a == [] {
      if b != [] {
        HasMember(b);
        assert false;
      }
    } else {
      var n := |a| - 1;
      assert a[n] in b;
      var j :| 0 <= j < |b| && b[j] == a[n];
      var b' := b[..j] + b[j + 1..];
      VotesSizeRemove(b, j);
      assert forall k :: k in a[..n] <==> k in b' by { WithoutKey(a, n, b, j); }
      VotesSizeOfOrders(a[..n], b');
    }
  }

  lemma WithoutKey(a: seq<Bytes>, n: nat, b: seq<Bytes>, j: nat)
    requires |a| == n + 1 && j < |b| && b[j] == a[n]
    requires forall i, j :: 0 <= i < j < |a| ==> a[i] != a[j]
    requires forall i, j :: 0 <= i < j < |b| ==> b[i] != b[j]
    requires forall k :: k in a <==> k in b
    ensures forall k :: k in a[..n] <==> k in b[..j] + b[j + 1..]
  {
    assert forall k :: k in a[..n] <==> k in a && k != a[n];
    assert forall k :: k in b[..j] + b[j + 1..] <==> k in b && k != b[j];
  }
}
