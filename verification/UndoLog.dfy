/** The undo log of a block: tracking, rollback and commit over the byte store. */
module UndoLog {
  import opened Bytes
  import opened Options
  import opened Wire
  import opened StateCodec
  import opened RoundTrip
  import opened Keys
  import opened Consensus

  // ---------- what the store says about a height ----------

  /** The record read for a height; an absent one reads as the zero value. */
  function BlockAt(store: Store, height: int64): (r: Parse)
    ensures r.message.BlockMsg?
  {
    if BlockStateKey(height) in store then Unmarshal(store[BlockStateKey(height)], BlockMsg(EMPTY_BLOCK))
    else Parsed(BlockMsg(EMPTY_BLOCK))
  }

  /** The record tracking goes on from, filled in part when the stored bytes are refused. */
  function Recorded(store: Store, height: int64): Block {
    BlockAt(store, height).message.block
  }

  function InfoAt(store: Store, height: int64): (r: Parse)
    ensures r.message.InfoMsg?
  {
    if ConsensusInfoKey(height) in store then Unmarshal(store[ConsensusInfoKey(height)], InfoMsg(EMPTY_INFO))
    else Parsed(InfoMsg(EMPTY_INFO))
  }

  predicate Fits(b: Block, order: seq<Bytes>)
    requires forall k :: k in order ==> k in b.votes
  {
    |EncodeBlock(b, order)| <= MAX_INT64
  }

  ghost predicate FitsAlways(b: Block) {
    forall order :: IsOrder(order, b.votes) ==> Fits(b, order)
  }

  /** `after` is `before` with block b saved under its own height. */
  ghost predicate Saved(before: Store, after: Store, b: Block, order: seq<Bytes>) {
    IsOrder(order, b.votes) && after == before[BlockStateKey(b.height) := EncodeBlock(b, order)]
  }

  function Undo(store: Store, changes: seq<Change>): Store
    decreases |changes|
  {
    if changes == [] then store
    else Undo(UndoOne(store, changes[|changes| - 1]), changes[..|changes| - 1])
  }

  function UndoOne(store: Store, c: Change): Store {
    if c.isDeleted then store[c.key := c.value] else store - {c.key}
  }

  predicate Decided(store: Store, height: int64) {
    var info := InfoAt(store, height);
    info.Parsed? && HasConsensus(info.message.info)
  }

  // ---------- the keeper ----------

  class Keeper {
    var store: Store

    constructor (s: Store)
      ensures store == s
    {
      store := s;
    }

    method SaveBlockState(state: BlockState) returns (ghost order: seq<Bytes>)
      requires FitsAlways(state.Contents())
      modifies this
      ensures Saved(old(store), store, state.Contents(), order)
    {
      hide EncodeBlock;
      var bz;
      bz, order := state.Marshal();
      store := store[BlockStateKey(state.height) := bz];
    }

    method GetBlockState(height: int64) returns (state: BlockState, err: Outcome)
      ensures fresh(state)
      ensures state.Contents() == Recorded(store, height) && err == OutcomeOf(BlockAt(store, height))
    {
      state := new BlockState();
      err := Ok;
      if BlockStateKey(height) in store {
        err := state.Unmarshal(store[BlockStateKey(height)]);
      }
    }

    method SaveConsensusInfo(info: ConsensusInfo)
      modifies this
      ensures store == old(store)[ConsensusInfoKey(info.height) := EncodeInfo(info.Contents())]
    {
      var bz := info.Marshal();
      store := store[ConsensusInfoKey(info.height) := bz];
    }

    method GetConsensusInfo(height: int64) returns (info: ConsensusInfo, err: Outcome)
      ensures info.Contents() == InfoAt(store, height).message.info && err == OutcomeOf(InfoAt(store, height))
    {
      info := new ConsensusInfo(EMPTY_INFO);
      err := Ok;
      if ConsensusInfoKey(height) in store {
        err := info.Unmarshal(store[ConsensusInfoKey(height)]);
      }
    }

    /** Appends a change to the record read for this height, and saves the record under the height
        that it carries itself. An error of the read is ignored, and what it left is gone on with. */
    method TrackStateChange(height: int64, key: Bytes, value: Bytes, isDeleted: bool) returns (ghost order: seq<Bytes>)
      requires FitsAlways(Logged(Recorded(store, height), Change(key, value, isDeleted)))
      modifies this
      ensures Saved(old(store), store, Logged(old(Recorded(store, height)), Change(key, value, isDeleted)), order)
    {
      hide BlockAt, FitsAlways, Saved, ChangeList;
      var state, _ := GetBlockState(height);
      var change := new StateChange(key, value, isDeleted);
      state.Append(change);
      order := SaveBlockState(state);
    }

    method CheckConsensus(height: int64) returns (ok: bool)
      ensures ok <==> Decided(store, height)
    {
      var info, err := GetConsensusInfo(height);
      if err.Err? { return false; }
      ok := HasConsensus(info.Contents());
    }

    /** Walks the log backwards: restores what was deleted, deletes the rest. */
    method RollbackState(height: int64) returns (err: Outcome)
      modifies this
      ensures match BlockAt(old(store), height)
              case Parsed(m) => err == Ok && store == Undo(old(store), m.block.changes)
              case Rejected(f, _) => err == Err(Kind(f)) && store == old(store)
    {
      hide BlockAt;
      var state;
      state, err := GetBlockState(height);
      if err.Ok? {
        RollBack(state.changes);
      }
    }

    method RollBack(changes: seq<StateChange>)
      modifies this
      ensures store == Undo(old(store), ChangeList(changes))
    {
      ghost var log := ChangeList(changes);
      var i := |changes| - 1;
      assert log[..i + 1] == log;
      while i >= 0
        invariant -1 <= i < |log|
        invariant Undo(store, log[..i + 1]) == Undo(old(store), log)
      {
        var change := changes[i];
        assert log[..i + 1][..i] == log[..i];
        assert change.Contents() == log[i];
        if change.isDeleted {
          store := store[change.key := change.value];
        } else {
          store := store - {change.key};
        }
        i := i - 1;
      }
    }

    method CommitState(height: int64)
      modifies this
      ensures store == old(store) - {BlockStateKey(height), ConsensusInfoKey(height)}
    {
      store := store - {BlockStateKey(height)};
      store := store - {ConsensusInfoKey(height)};
    }

    /** BeginBlock: a fresh tally for this height. */
    method BeginBlock(height: int64, voteInfos: nat)
      modifies this
      ensures store == old(store)[ConsensusInfoKey(height) := EncodeInfo(Info(ToInt32(voteInfos), 0, height))]
    {
      var info := new ConsensusInfo(Info(ToInt32(voteInfos), 0, height));
      SaveConsensusInfo(info);
    }

    /** FinalizeBlock: roll back without consensus, commit with it. */
    method FinalizeBlock(height: int64) returns (err: Outcome)
      modifies this
      ensures Finalized(old(store), height, store, err)
    {
      var decided := CheckConsensus(height);
      if !decided {
        err := RollbackState(height);
        return;
      }
      CommitState(height);
      err := Ok;
    }
  }

  function Logged(b: Block, c: Change): Block {
    b.(changes := b.changes + [c])
  }

  ghost predicate Finalized(before: Store, height: int64, after: Store, err: Outcome) {
    if Decided(before, height) then
      err == Ok && after == before - {BlockStateKey(height), ConsensusInfoKey(height)}
    else
      match BlockAt(before, height)
      case Parsed(m) => err == Ok && after == Undo(before, m.block.changes)
      case Rejected(f, _) => err == Err(Kind(f)) && after == before
  }

  // ---------- reading back what was saved ----------

  lemma SavedReadsBack(before: Store, after: Store, b: Block, order: seq<Bytes>)
    requires Saved(before, after, b, order) && Fits(b, order)
    ensures BlockAt(after, b.height) == Parsed(BlockMsg(b))
  {
    BlockRoundTrip(b, order);
  }

  /** A tracked change shows up in the log of its height exactly when the record read for that height
      carries that height. Otherwise it is saved under another key and the record stays as it was. */
  lemma TrackingIsVisible(before: Store, after: Store, height: int64, c: Change, order: seq<Bytes>)
    requires Saved(before, after, Logged(Recorded(before, height), c), order)
    requires Fits(Logged(Recorded(before, height), c), order)
    ensures var b := Recorded(before, height);
            BlockAt(after, height)
            == if b.height == height then Parsed(BlockMsg(Logged(b, c))) else BlockAt(before, height)
  {
    var b := Recorded(before, height);
    if b.height == height {
      SavedReadsBack(before, after, Logged(b, c), order);
    } else {
      KeysInjective(b.height, height, [], []);
    }
  }

  // ---------- the undo theorem ----------

  datatype Edit = Insert(key: Bytes, value: Bytes) | Delete(key: Bytes)

  function Apply(store: Store, e: Edit): Store {
    match e
    case Insert(key, value) => store[key := value]
    case Delete(key) => store - {key}
  }

  /** The edits the log can describe: adding a new key, deleting one that is there. */
  predicate Undoable(store: Store, e: Edit) {
    e.Insert? <==> e.key !in store
  }

  /** What the caller reports for an edit: for a deletion, the value that was there. */
  function ChangeFor(store: Store, e: Edit): Change {
    match e
    case Insert(key, value) => Change(key, value, false)
    case Delete(key) => Change(key, if key in store then store[key] else [], true)
  }

  /** A reported edit is undone exactly when it is one of those the log can describe. */
  lemma UndoneIffUndoable(store: Store, e: Edit)
    ensures UndoOne(Apply(store, e), ChangeFor(store, e)) == store <==> Undoable(store, e)
  {
    var back := UndoOne(Apply(store, e), ChangeFor(store, e));
    if Undoable(store, e) {
      assert back == store;
    } else {
      assert e.key in back <==> e.key !in store;
    }
  }

  /** What a tracked change leaves of the record: all of it, with the change at the end of its log. */
  lemma TrackingKeepsRecord(before: Store, after: Store, height: int64, key: Bytes, value: Bytes, isDeleted: bool,
                            order: seq<Bytes>)
    requires var b := Logged(Recorded(before, height), Change(key, value, isDeleted));
             Saved(before, after, b, order) && Fits(b, order)
    ensures var b := Recorded(before, height);
            var b' := Recorded(after, b.height);
            && BlockAt(after, b.height).Parsed?
            && b'.height == b.height && b'.validators == b.validators && b'.votes == b.votes
            && |b'.changes| == |b.changes| + 1 && b.changes <= b'.changes
            && b'.changes[|b.changes|].key == key && b'.changes[|b.changes|].value == value
            && (b'.changes[|b.changes|].isDeleted <==> isDeleted)
            && forall k :: k != BlockStateKey(b.height) ==>
                             (k in after <==> k in before) && (k in after ==> after[k] == before[k])
  {
    SavedReadsBack(before, after, Logged(Recorded(before, height), Change(key, value, isDeleted)), order);
  }

  /** The tally of a height decides it exactly when it is stored, 66 percent of its validators voted yes, and
      100 times their number fits an int32. */
  lemma DecidedMeaning(store: Store, height: int64, tally: Info)
    requires 0 <= tally.votedYes <= tally.totalValidators && tally.totalValidators > 0
    ensures ConsensusInfoKey(height) in store && store[ConsensusInfoKey(height)] == EncodeInfo(tally) ==>
              (Decided(store, height) <==>
                 100 * tally.votedYes >= 66 * tally.totalValidators && 100 * tally.votedYes <= 0x7FFF_FFFF)
    ensures ConsensusInfoKey(height) !in store ==> !Decided(store, height)
  {
    hide Unmarshal, EncodeInfo, HasConsensus;
    InfoReadBack(tally);
    TallyPasses(tally);
    NoVotesNoConsensus(0, 0);
  }

  // ---------- undoing key by key ----------

  function Touched(log: seq<Change>): set<Bytes> {
    set c | c in log :: c.key
  }

  function At(store: Store, key: Bytes): Option<Bytes> {
    if key in store then Some(store[key]) else None
  }

  /** Undoing a log gives each key the log mentions a value of the log's own, and leaves the others. */
  lemma {:induction false} UndoAt(s: Store, t: Store, log: seq<Change>, key: Bytes)
    ensures key in Touched(log) ==> At(Undo(s, log), key) == At(Undo(t, log), key)
    ensures key !in Touched(log) ==> At(Undo(s, log), key) == At(s, key)
    decreases |log|
  {
    if log != [] {
      var init, c := log[..|log| - 1], log[|log| - 1];
      assert log == init + [c];
      assert key in Touched(log) <==> key in Touched(init) || key == c.key;
      UndoAt(UndoOne(s, c), UndoOne(t, c), init, key);
      UndoAt(UndoOne(t, c), UndoOne(s, c), init, key);
    }
  }

  lemma SameAside(s: Store, t: Store, keys: set<Bytes>)
    ensures s - keys == t - keys <==> forall k :: k !in keys ==> At(s, k) == At(t, k)
  {
    if forall k :: k !in keys ==> At(s, k) == At(t, k) {
      forall k
        ensures k in s - keys <==> k in t - keys
        ensures k in s - keys ==> (s - keys)[k] == (t - keys)[k]
      {
        assert k !in keys ==> At(s, k) == At(t, k);
      }
    } else {
      var k :| k !in keys && At(s, k) != At(t, k);
      assert k in s - keys <==> k in s;
      assert k in t - keys <==> k in t;
      assert k in s ==> (s - keys)[k] == s[k];
      assert k in t ==> (t - keys)[k] == t[k];
    }
  }

  /** Two stores undo alike exactly when they agree on every key that the log does not mention. */
  lemma UndoneAlike(s: Store, t: Store, log: seq<Change>, aside: set<Bytes>)
    ensures Undo(s, log) - aside == Undo(t, log) - aside <==> s - (Touched(log) + aside) == t - (Touched(log) + aside)
  {
    SameAside(Undo(s, log), Undo(t, log), aside);
    SameAside(s, t, Touched(log) + aside);
    forall k
      ensures k in Touched(log) ==> At(Undo(s, log), k) == At(Undo(t, log), k)
      ensures k !in Touched(log) ==> At(Undo(s, log), k) == At(s, k) && At(Undo(t, log), k) == At(t, k)
    {
      UndoAt(s, t, log, k);
      UndoAt(t, s, log, k);
    }
    hide Undo, At, Touched;
  }

  /** Rolling back once more changes nothing. */
  lemma UndoTwice(s: Store, log: seq<Change>)
    ensures Undo(Undo(s, log), log) == Undo(s, log)
  {
    hide Undo, Touched;
    forall k
      ensures At(Undo(Undo(s, log), log), k) == At(Undo(s, log), k)
    {
      UndoAt(Undo(s, log), s, log, k);
    }
    SameAside(Undo(Undo(s, log), log), Undo(s, log), {});
    assert Undo(Undo(s, log), log) - {} == Undo(Undo(s, log), log) && Undo(s, log) - {} == Undo(s, log);
  }

  /** FinalizeBlock without consensus writes only keys that the log mentions: the tracking records stay. */
  lemma RollbackKeepsTheRest(before: Store, height: int64, after: Store, err: Outcome, key: Bytes)
    requires Finalized(before, height, after, err) && !Decided(before, height)
    requires key !in Touched(Recorded(before, height).changes)
    ensures At(after, key) == At(before, key)
  {
    UndoAt(before, before, Recorded(before, height).changes, key);
  }

  /** With consensus it deletes the two tracking records of the height, and nothing else. */
  lemma CommitDropsTwo(before: Store, height: int64, after: Store, err: Outcome, key: Bytes)
    requires Finalized(before, height, after, err) && Decided(before, height)
    ensures err == Ok
    ensures At(after, key)
         == if key == BlockStateKey(height) || key == ConsensusInfoKey(height) then None else At(before, key)
  {
  }
}
