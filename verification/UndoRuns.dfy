/** Runs of tracked edits at one height: when a rollback takes them back, and what FinalizeBlock makes of
    them. */
module UndoRuns {
  import opened Bytes
  import opened Wire
  import opened StateCodec
  import opened RoundTrip
  import opened Keys
  import opened Consensus
  import opened UndoLog

  /** One edit, whatever it does, and its report, at a given height. */
  ghost predicate TrackedEdit(before: Store, after: Store, height: int64, e: Edit, order: seq<Bytes>) {
    && e.key != BlockStateKey(height)
    && var b := Logged(Recorded(before, height), ChangeFor(before, e));
       Saved(Apply(before, e), after, b, order) && Fits(b, order)
  }

  /** A run of edits: the stores passed through, each edit taking one to the next. */
  ghost predicate Run(stores: seq<Store>, height: int64, edits: seq<Edit>, orders: seq<seq<Bytes>>) {
    && |stores| == |edits| + 1 && |orders| == |edits|
    && forall i :: 0 <= i < |edits| ==> TrackedEdit(stores[i], stores[i + 1], height, edits[i], orders[i])
  }

  /** The record read for the height carries that height. */
  predicate HasRecord(store: Store, height: int64) {
    Recorded(store, height).height == height
  }

  function Log(store: Store, height: int64): seq<Change> {
    Recorded(store, height).changes
  }

  /** The keys of the records that tracking reads and writes. */
  function Tracking(store: Store, height: int64): set<Bytes> {
    {BlockStateKey(height), BlockStateKey(Recorded(store, height).height)}
  }

  lemma EditReadBack(before: Store, after: Store, height: int64, e: Edit, order: seq<Bytes>)
    requires TrackedEdit(before, after, height, e, order)
    ensures BlockAt(after, height) == if HasRecord(before, height)
              then Parsed(BlockMsg(Logged(Recorded(before, height), ChangeFor(before, e)))) else BlockAt(before, height)
    ensures forall x :: x != BlockStateKey(Recorded(before, height).height) ==> At(after, x) == At(Apply(before, e), x)
  {
    hide Fits, EncodeBlock;
    var mid := Apply(before, e);
    assert BlockAt(mid, height) == BlockAt(before, height);
    TrackingIsVisible(mid, after, height, ChangeFor(before, e), order);
  }

  // ---------- with a record of the height ----------

  /** Edit i is the first of the run to touch its key. */
  predicate FirstTouch(edits: seq<Edit>, i: nat) {
    i < |edits| && forall j :: 0 <= j < i ==> edits[j].key != edits[i].key
  }

  /** The first edit of each key that the log does not mention yet is one the log can describe. */
  predicate Describable(s: Store, log: seq<Change>, edits: seq<Edit>) {
    forall i :: 0 <= i < |edits| && edits[i].key !in Touched(log) && FirstTouch(edits, i) ==> Undoable(s, edits[i])
  }

  /** What that asks of the first n edits for a single key. */
  predicate KeyDescribable(s: Store, log: seq<Change>, edits: seq<Edit>, n: nat, x: Bytes)
    requires n <= |edits|
  {
    forall i :: 0 <= i < n && edits[i].key == x && x !in Touched(log) && FirstTouch(edits, i) ==> Undoable(s, edits[i])
  }

  predicate Untouched(edits: seq<Edit>, n: nat, x: Bytes)
    requires n <= |edits|
  {
    forall j :: 0 <= j < n ==> edits[j].key != x
  }

  /** Along a run the log comes to mention the keys of the edits, and other keys keep their values. */
  lemma {:induction false} AlongRun(stores: seq<Store>, height: int64, edits: seq<Edit>, orders: seq<seq<Bytes>>,
                                    n: nat, x: Bytes)
    requires Run(stores, height, edits, orders) && HasRecord(stores[0], height)
    requires n <= |edits| && x != BlockStateKey(height)
    ensures HasRecord(stores[n], height) && (n > 0 ==> BlockAt(stores[n], height).Parsed?)
    ensures x in Touched(Log(stores[n], height)) <==> x in Touched(Log(stores[0], height)) || !Untouched(edits, n, x)
    ensures Untouched(edits, n, x) ==> At(stores[n], x) == At(stores[0], x)
    decreases n
  {
    hide BlockAt, TrackedEdit;
    if n > 0 {
      AlongRun(stores, height, edits, orders, n - 1, x);
      var s, e := stores[n - 1], edits[n - 1];
      EditReadBack(s, stores[n], height, e, orders[n - 1]);
      TouchedMore(Log(s, height), ChangeFor(s, e));
    }
  }

  lemma TouchedMore(log: seq<Change>, c: Change)
    ensures Touched(log + [c]) == Touched(log) + {c.key}
  {
  }

  /** What rolling back one more edit makes of a key. */
  lemma OneMoreUndone(s: Store, t: Store, log: seq<Change>, e: Edit, x: Bytes)
    requires At(t, x) == At(Apply(s, e), x)
    ensures var back := At(Undo(t, log + [ChangeFor(s, e)]), x);
            && (x in Touched(log) ==> back == At(Undo(s, log), x))
            && (x !in Touched(log) && x != e.key ==> back == At(s, x))
            && (x !in Touched(log) && x == e.key ==> (back == At(s, x) <==> Undoable(s, e)))
  {
    var c := ChangeFor(s, e);
    assert (log + [c])[..|log|] == log;
    UndoAt(UndoOne(t, c), s, log, x);
  }

  /** Rolling back after n edits leaves a key as rolling back before them would, exactly when the first edit
      of that key, if it stands outside the log, is one the log can describe. */
  lemma {:induction false} KeyUndone(stores: seq<Store>, height: int64, edits: seq<Edit>, orders: seq<seq<Bytes>>,
                                     n: nat, x: Bytes)
    requires Run(stores, height, edits, orders) && HasRecord(stores[0], height)
    requires n <= |edits| && x != BlockStateKey(height)
    ensures At(Undo(stores[n], Log(stores[n], height)), x) == At(Undo(stores[0], Log(stores[0], height)), x)
       <==> KeyDescribable(stores[0], Log(stores[0], height), edits, n, x)
    decreases n
  {
    hide BlockAt, TrackedEdit, Undo, Touched, Apply, ChangeFor, At;
    if n > 0 {
      var s, u, e := stores[0], stores[n - 1], edits[n - 1];
      KeyUndone(stores, height, edits, orders, n - 1, x);
      AlongRun(stores, height, edits, orders, n - 1, x);
      EditReadBack(u, stores[n], height, e, orders[n - 1]);
      OneMoreUndone(u, stores[n], Log(u, height), e, x);
      UndoAt(s, s, Log(s, height), x);
      if Untouched(edits, n - 1, x) && x == e.key {
        assert FirstTouch(edits, n - 1);
        UndoableByKey(s, u, e);
      }
    }
  }

  lemma UndoableByKey(s: Store, t: Store, e: Edit)
    requires At(s, e.key) == At(t, e.key)
    ensures Undoable(s, e) <==> Undoable(t, e)
  {
  }

  /** With a record of its height, rolling back a run gives what rolling back before it would have given,
      and so, from an empty log, the store itself, if and only if the first edit of each key that the log
      does not mention yet adds an absent key or deletes a present one. Only the tracking record differs. */
  lemma RollbackUndoesRun(stores: seq<Store>, height: int64, edits: seq<Edit>, orders: seq<seq<Bytes>>)
    requires Run(stores, height, edits, orders) && HasRecord(stores[0], height)
    ensures var s, t, k := stores[0], stores[|edits|], BlockStateKey(height);
            Undo(t, Log(t, height)) - {k} == Undo(s, Log(s, height)) - {k}
            <==> Describable(s, Log(s, height), edits)
  {
    hide BlockAt, TrackedEdit, Undo, At, Touched;
    var s, t, k, n := stores[0], stores[|edits|], BlockStateKey(height), |edits|;
    var log := Log(s, height);
    SameAside(Undo(t, Log(t, height)), Undo(s, log), {k});
    forall x | x != k
      ensures At(Undo(t, Log(t, height)), x) == At(Undo(s, log), x) <==> KeyDescribable(s, log, edits, n, x)
    {
      KeyUndone(stores, height, edits, orders, n, x);
    }
    if forall x :: x != k ==> KeyDescribable(s, log, edits, n, x) {
      forall i | 0 <= i < n && edits[i].key !in Touched(log) && FirstTouch(edits, i)
        ensures Undoable(s, edits[i])
      {
        assert edits[i].key != k by { KeyOfEdit(stores, height, edits, orders, i); }
        assert KeyDescribable(s, log, edits, n, edits[i].key);
      }
    }
  }

  lemma KeyOfEdit(stores: seq<Store>, height: int64, edits: seq<Edit>, orders: seq<seq<Bytes>>, i: nat)
    requires Run(stores, height, edits, orders) && i < |edits|
    ensures edits[i].key != BlockStateKey(height)
  {
    assert TrackedEdit(stores[i], stores[i + 1], height, edits[i], orders[i]);
  }

  /** In particular if every edit of the run adds an absent key or deletes a present one. */
  lemma UndoableRunIsDescribable(stores: seq<Store>, height: int64, edits: seq<Edit>, orders: seq<seq<Bytes>>)
    requires Run(stores, height, edits, orders) && HasRecord(stores[0], height)
    requires forall i :: 0 <= i < |edits| ==> Undoable(stores[i], edits[i])
    ensures Describable(stores[0], Log(stores[0], height), edits)
  {
    hide BlockAt, TrackedEdit, Touched;
    forall i | 0 <= i < |edits| && FirstTouch(edits, i)
      ensures Undoable(stores[0], edits[i])
    {
      KeyOfEdit(stores, height, edits, orders, i);
      AlongRun(stores, height, edits, orders, i, edits[i].key);
      UndoableByKey(stores[0], stores[i], edits[i]);
    }
  }

  /** From an empty log, overwriting a key that was there is not undone; overwriting one that the run has
      added itself is. */
  lemma Overwriting(stores: seq<Store>, height: int64, key: Bytes, v: Bytes, w: Bytes, orders: seq<seq<Bytes>>)
    requires Run(stores, height, [Insert(key, v), Insert(key, w)], orders)
    requires HasRecord(stores[0], height) && Log(stores[0], height) == []
    ensures Undo(stores[2], Log(stores[2], height)) - {BlockStateKey(height)} == stores[0] - {BlockStateKey(height)}
       <==> key !in stores[0]
  {
    hide BlockAt;
    var edits := [Insert(key, v), Insert(key, w)];
    RollbackUndoesRun(stores, height, edits, orders);
    assert FirstTouch(edits, 0) && edits[0].key == edits[1].key;
    assert Touched([]) == {};
  }

  // ---------- without one ----------

  /** The record read for the height stays, and so does its log. */
  lemma {:induction false} RecordStays(stores: seq<Store>, height: int64, edits: seq<Edit>, orders: seq<seq<Bytes>>,
                                       n: nat)
    requires Run(stores, height, edits, orders) && !HasRecord(stores[0], height) && n <= |edits|
    ensures BlockAt(stores[n], height) == BlockAt(stores[0], height)
  {
    hide BlockAt, TrackedEdit;
    if n > 0 {
      RecordStays(stores, height, edits, orders, n - 1);
      EditReadBack(stores[n - 1], stores[n], height, edits[n - 1], orders[n - 1]);
    }
  }

  /** Each change is saved under the other height in place of the one before: only the last one is found
      there. */
  lemma LastChangeSurvives(stores: seq<Store>, height: int64, edits: seq<Edit>, orders: seq<seq<Bytes>>)
    requires Run(stores, height, edits, orders) && !HasRecord(stores[0], height) && edits != []
    ensures var n, b := |edits|, Recorded(stores[0], height);
            BlockAt(stores[n], b.height) == Parsed(BlockMsg(Logged(b, ChangeFor(stores[n - 1], edits[n - 1]))))
  {
    hide BlockAt, Fits, EncodeBlock;
    var n, b := |edits|, Recorded(stores[0], height);
    RecordStays(stores, height, edits, orders, n - 1);
    var e := edits[n - 1];
    SavedReadsBack(Apply(stores[n - 1], e), stores[n], Logged(b, ChangeFor(stores[n - 1], e)), orders[n - 1]);
  }

  /** Edit i is the last of the first n to touch its key. */
  predicate LastTouch(edits: seq<Edit>, n: nat, i: nat)
    requires n <= |edits|
  {
    i < n && forall j :: i < j < n ==> edits[j].key != edits[i].key
  }

  /** The last edit of each key outside the given ones leaves what was there before the run. */
  predicate Ineffective(s: Store, outside: set<Bytes>, edits: seq<Edit>) {
    forall i :: 0 <= i < |edits| && edits[i].key !in outside && LastTouch(edits, |edits|, i) ==>
      At(Apply(s, edits[i]), edits[i].key) == At(s, edits[i].key)
  }

  lemma {:induction false} FindLastTouch(edits: seq<Edit>, n: nat, x: Bytes) returns (i: nat)
    requires n <= |edits| && !Untouched(edits, n, x)
    ensures LastTouch(edits, n, i) && edits[i].key == x
  {
    if edits[n - 1].key == x {
      i := n - 1;
    } else {
      i := FindLastTouch(edits, n - 1, x);
    }
  }

  /** Each key outside the tracking records has the value its last edit gave it. */
  lemma {:induction false} LastEditWins(stores: seq<Store>, height: int64, edits: seq<Edit>, orders: seq<seq<Bytes>>,
                                        n: nat, x: Bytes)
    requires Run(stores, height, edits, orders) && !HasRecord(stores[0], height)
    requires n <= |edits| && x !in Tracking(stores[0], height)
    ensures Untouched(edits, n, x) ==> At(stores[n], x) == At(stores[0], x)
    ensures forall i: nat :: LastTouch(edits, n, i) && edits[i].key == x ==>
                               At(stores[n], x) == At(Apply(stores[0], edits[i]), x)
    decreases n
  {
    hide BlockAt, TrackedEdit, Apply, At;
    if n > 0 {
      LastEditWins(stores, height, edits, orders, n - 1, x);
      RecordStays(stores, height, edits, orders, n - 1);
      var e := edits[n - 1];
      EditReadBack(stores[n - 1], stores[n], height, e, orders[n - 1]);
      assert At(stores[n], x) == At(Apply(stores[n - 1], e), x);
      GivenByEdit(stores[n - 1], stores[0], e, x);
      forall i: nat | LastTouch(edits, n, i) && edits[i].key == x
        ensures At(stores[n], x) == At(Apply(stores[0], edits[i]), x)
      {
        if i < n - 1 {
          assert e.key != x && LastTouch(edits, n - 1, i);
        }
      }
    }
  }

  lemma GivenByEdit(s: Store, t: Store, e: Edit, x: Bytes)
    ensures At(Apply(s, e), x) == if x == e.key then At(Apply(t, e), x) else At(s, x)
  {
  }

  /** Without a record a run leaves a store as it was, some keys and the tracking records aside, if and only
      if the last edit of each of the other keys restores its value. */
  lemma UnrecordedRun(stores: seq<Store>, height: int64, edits: seq<Edit>, orders: seq<seq<Bytes>>, keys: set<Bytes>)
    requires Run(stores, height, edits, orders) && !HasRecord(stores[0], height) && Tracking(stores[0], height) <= keys
    ensures stores[|edits|] - keys == stores[0] - keys <==> Ineffective(stores[0], keys, edits)
  {
    hide BlockAt, TrackedEdit, At, Apply, Tracking;
    var s, t, n := stores[0], stores[|edits|], |edits|;
    SameAside(t, s, keys);
    forall x | x !in keys
      ensures Untouched(edits, n, x) ==> At(t, x) == At(s, x)
      ensures forall i: nat :: LastTouch(edits, n, i) && edits[i].key == x ==> At(t, x) == At(Apply(s, edits[i]), x)
    {
      LastEditWins(stores, height, edits, orders, n, x);
    }
    if Ineffective(s, keys, edits) {
      forall x | x !in keys
        ensures At(t, x) == At(s, x)
      {
        if !Untouched(edits, n, x) {
          var i := FindLastTouch(edits, n, x);
        }
      }
    }
  }

  // ---------- the two cases together ----------

  /** When a rollback restores what a run has changed: it depends on the store before the run, its record for
      the height, and the edits. */
  predicate Restorable(s: Store, height: int64, edits: seq<Edit>) {
    if HasRecord(s, height) then Describable(s, Log(s, height), edits)
    else Ineffective(s, Touched(Log(s, height)) + Tracking(s, height), edits)
  }

  /** Rolling back after any run gives what rolling back before it would have given, its tracking records
      aside, if and only if one of two things holds. The record read for the height carries that height, and
      the first edit of each key outside its log is one the log can describe; or it does not, and the last edit
      of each key outside its log changes nothing. */
  lemma UndoneIffRestorable(stores: seq<Store>, height: int64, edits: seq<Edit>, orders: seq<seq<Bytes>>)
    requires Run(stores, height, edits, orders)
    ensures var s, t, aside := stores[0], stores[|edits|], Tracking(stores[0], height);
            Undo(t, Log(t, height)) - aside == Undo(s, Log(s, height)) - aside <==> Restorable(s, height, edits)
  {
    hide BlockAt, Undo, Touched, TrackedEdit;
    var s, t, aside := stores[0], stores[|edits|], Tracking(stores[0], height);
    if HasRecord(s, height) {
      RollbackUndoesRun(stores, height, edits, orders);
      assert aside == {BlockStateKey(height)};
    } else {
      RecordStays(stores, height, edits, orders, |edits|);
      UndoneAlike(t, s, Log(s, height), aside);
      UnrecordedRun(stores, height, edits, orders, Touched(Log(s, height)) + aside);
    }
  }

  /** For a run whose every edit adds an absent key or deletes a present one it comes to the record, or to the
      run having changed no key outside the log. */
  lemma UndoneIffRecorded(stores: seq<Store>, height: int64, edits: seq<Edit>, orders: seq<seq<Bytes>>)
    requires Run(stores, height, edits, orders)
    requires forall i :: 0 <= i < |edits| ==> Undoable(stores[i], edits[i])
    ensures var s, t, aside := stores[0], stores[|edits|], Tracking(stores[0], height);
            Undo(t, Log(t, height)) - aside == Undo(s, Log(s, height)) - aside
            <==> HasRecord(s, height) || t - (Touched(Log(s, height)) + aside) == s - (Touched(Log(s, height)) + aside)
  {
    hide BlockAt, Undo, Touched, TrackedEdit, Describable, Ineffective;
    UndoneIffRestorable(stores, height, edits, orders);
    if HasRecord(stores[0], height) {
      UndoableRunIsDescribable(stores, height, edits, orders);
    } else {
      UnrecordedRun(stores, height, edits, orders, Touched(Log(stores[0], height)) + Tracking(stores[0], height));
    }
  }

  /** And for a single such edit to the record, or to its own key standing in the log. */
  lemma OneUndoneIffRecorded(before: Store, after: Store, height: int64, e: Edit, order: seq<Bytes>)
    requires TrackedEdit(before, after, height, e, order) && Undoable(before, e)
    requires e.key !in Tracking(before, height)
    ensures var aside := Tracking(before, height);
            Undo(after, Log(after, height)) - aside == Undo(before, Log(before, height)) - aside
            <==> HasRecord(before, height) || e.key in Touched(Log(before, height))
  {
    hide BlockAt, Undo, Touched, TrackedEdit;
    UndoneIffRestorable([before, after], height, [e], [order]);
    assert FirstTouch([e], 0) && LastTouch([e], 1, 0);
    assert At(Apply(before, e), e.key) != At(before, e.key);
  }

  /** Where nothing is recorded yet, an edit at any height but 0 is logged under height 0, and rolling back at
      its own height leaves it in place. */
  lemma UnrecordedInsertStays(height: int64, after: Store)
    requires height != 0
    requires var b := Logged(EMPTY_BLOCK, Change([1], [2], false));
             after == map[[1] := [2], BlockStateKey(0) := EncodeBlock(b, [])]
    ensures TrackedEdit(map[], after, height, Insert([1], [2]), [])
    ensures Undo(after, Log(after, height)) == after && [1] in after
  {
    var b := Logged(EMPTY_BLOCK, Change([1], [2], false));
    SmallBlock(b);
    assert BlockStateKey(height) != BlockStateKey(0) by { KeysInjective(height, 0, [], []); }
    assert |BlockStateKey(height)| == |BlockStateKey(0)| == 19;
    hide EncodeBlock, BlockStateKey, BlockAt, Undo;
    NothingRecorded(map[], height);
    NothingRecorded(after, height);
    FirstRecordSaved(after, BlockStateKey(0), EncodeBlock(b, []));
    assert IsOrder([], b.votes);
  }

  lemma NothingRecorded(s: Store, height: int64)
    requires BlockStateKey(height) !in s
    ensures Recorded(s, height) == EMPTY_BLOCK && Undo(s, Log(s, height)) == s
  {
  }

  /** The store after the insert and after the record is saved. */
  lemma FirstRecordSaved(after: Store, k: Bytes, record: Bytes)
    requires after == map[[1] := [2], k := record] && k != [1]
    ensures after == Apply(map[], Insert([1], [2]))[k := record] && after[[1]] == [2]
  {
  }

  lemma SmallBlock(b: Block)
    requires b == Block(0, [], map[], [Change([1], [2], false)])
    ensures |EncodeBlock(b, [])| == 8
  {
    var c := Change([1], [2], false);
    assert EncodeChange(c) == [0x0a, 1, 1, 0x12, 1, 2];
    assert EncodeChanges([c]) == Record(0x22, EncodeChange(c)) + EncodeChanges([]);
  }

  // ---------- the end of a block ----------

  /** FinalizeBlock after any run. With consensus it is the edited store without the two tracking records.
      Without, it is back as it was, an empty log given, exactly when the run is restorable; and where the
      record read for the height is still one that does not parse, it is the edited store, with an error. */
  lemma FinalizeAfterRun(stores: seq<Store>, height: int64, edits: seq<Edit>, orders: seq<seq<Bytes>>,
                         after: Store, err: Outcome)
    requires Run(stores, height, edits, orders) && Finalized(stores[|edits|], height, after, err)
    ensures var s, t, aside := stores[0], stores[|edits|], Tracking(stores[0], height);
            if Decided(t, height) then err == Ok && after == t - {BlockStateKey(height), ConsensusInfoKey(height)}
            else
              && (err == Ok <==> BlockAt(s, height).Parsed? || (HasRecord(s, height) && edits != []))
              && (err.Err? ==> after == t)
              && (err == Ok ==>
                    (after - aside == Undo(s, Log(s, height)) - aside <==> Restorable(s, height, edits)))
  {
    hide Undo, Restorable, TrackedEdit, Touched;
    UndoneIffRestorable(stores, height, edits, orders);
    if HasRecord(stores[0], height) {
      AlongRun(stores, height, edits, orders, |edits|, ConsensusInfoKey(height)) by {
        KindsDisjoint(height, height, [], []);
      }
    } else {
      RecordStays(stores, height, edits, orders, |edits|);
    }
    hide BlockAt;
  }

  /** A block that only BeginBlock has told about its validators is never committed, as long as the edits leave
      the tally alone: FinalizeBlock takes back what can be taken back. */
  lemma UnvotedBlockRollsBack(start: Store, height: int64, total: int32, stores: seq<Store>, edits: seq<Edit>,
                              orders: seq<seq<Bytes>>, after: Store, err: Outcome)
    requires Run(stores, height, edits, orders)
    requires stores[0] == start[ConsensusInfoKey(height) := EncodeInfo(Info(total, 0, height))]
    requires forall e :: e in edits ==> e.key != ConsensusInfoKey(height)
    requires Finalized(stores[|edits|], height, after, err)
    ensures !Decided(stores[|edits|], height)
    ensures var s, aside := stores[0], Tracking(stores[0], height);
            && (err == Ok <==> BlockAt(s, height).Parsed? || (HasRecord(s, height) && edits != []))
            && (err == Ok ==> (after - aside == Undo(s, Log(s, height)) - aside <==> Restorable(s, height, edits)))
  {
    hide Undo, Restorable, TrackedEdit, BlockAt;
    TallyKept(stores, height, edits, orders, |edits|);
    InfoReadBack(Info(total, 0, height));
    NoVotesNoConsensus(total, height);
    FinalizeAfterRun(stores, height, edits, orders, after, err);
  }

  lemma {:induction false} TallyKept(stores: seq<Store>, height: int64, edits: seq<Edit>, orders: seq<seq<Bytes>>,
                                     n: nat)
    requires Run(stores, height, edits, orders) && n <= |edits|
    requires forall e :: e in edits ==> e.key != ConsensusInfoKey(height)
    ensures InfoAt(stores[n], height) == InfoAt(stores[0], height)
  {
    hide InfoAt, TrackedEdit, BlockAt;
    if n > 0 {
      TallyKept(stores, height, edits, orders, n - 1);
      assert edits[n - 1] in edits;
      EditKeepsTally(stores[n - 1], stores[n], height, edits[n - 1], orders[n - 1]);
    }
  }

  lemma EditKeepsTally(before: Store, after: Store, height: int64, e: Edit, order: seq<Bytes>)
    requires TrackedEdit(before, after, height, e, order) && e.key != ConsensusInfoKey(height)
    ensures InfoAt(after, height) == InfoAt(before, height)
  {
    hide BlockStateKey, ConsensusInfoKey, TrackedEdit, BlockAt;
    var other, c := Recorded(before, height).height, ConsensusInfoKey(height);
    EditReadBack(before, after, height, e, order);
    assert BlockStateKey(other) != c by { KindsDisjoint(other, height, [], []); }
    assert At(after, c) == At(before, c);
  }
}
