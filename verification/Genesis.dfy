/** The game's records and parameters in the byte store, and genesis import and export. */
module Genesis {
  import opened Bytes
  import opened Options
  import opened Keys
  import opened Tables
  import opened Game

  datatype GenesisState<!P> = GenesisState(wordleList: seq<Wordle>, guessList: seq<Guess>, params: P)

  /** The codec of the chain. Parameters are of some type P, read as `noParams` when nothing is stored. */
  datatype Codec<!P> = Codec(
    encodeWordle: Wordle -> Bytes, decodeWordle: Bytes -> Wordle,
    encodeGuess: Guess -> Bytes, decodeGuess: Bytes -> Guess,
    encodeParams: P -> Bytes, decodeParams: Bytes -> P, noParams: P)

  function Wordles<P>(c: Codec<P>): Kind<Wordle> {
    Kind(WORDLE_PREFIX, (w: Wordle) => w.index, c.encodeWordle, c.decodeWordle)
  }

  function Guesses<P>(c: Codec<P>): Kind<Guess> {
    Kind(GUESS_PREFIX, (g: Guess) => g.index, c.encodeGuess, c.decodeGuess)
  }

  function ParamsAt<P>(c: Codec<P>, store: Store): P {
    if PARAMS_KEY in store then c.decodeParams(store[PARAMS_KEY]) else c.noParams
  }

  ghost predicate GoodCodec<P(!new)>(c: Codec<P>) {
    Faithful(Wordles(c)) && Faithful(Guesses(c)) && forall p :: c.decodeParams(c.encodeParams(p)) == p
  }

  function PutAll<T>(kind: Kind<T>, store: Store, list: seq<T>): Store {
    if list == [] then store else Put(kind, PutAll(kind, store, list[..|list| - 1]), list[|list| - 1])
  }

  function AddAll<T>(kind: Kind<T>, view: map<Bytes, T>, list: seq<T>): map<Bytes, T> {
    if list == [] then view
    else AddAll(kind, view, list[..|list| - 1])[kind.index(list[|list| - 1]) := list[|list| - 1]]
  }

  /** GenesisState.Validate for one list: a map of the keys seen so far. */
  method NoDuplicates<T(==)>(kind: Kind<T>, list: seq<T>) returns (ok: bool)
    ensures ok <==> Distinct(kind, list)
  {
    var seen: set<Bytes> := {};
    for n := 0 to |list|
      invariant Distinct(kind, list[..n])
      invariant forall k :: k in seen <==> exists i :: 0 <= i < n && k == IndexKey(kind.index(list[i]))
    {
      var key := IndexKey(kind.index(list[n]));
      if key in seen {
        var i :| 0 <= i < n && key == IndexKey(kind.index(list[i]));
        DropSuffix(kind.index(list[i]), kind.index(list[n]), Ascii("/"));
        return false;
      }
      forall i | 0 <= i < n
        ensures kind.index(list[i]) != kind.index(list[n])
      {
        assert IndexKey(kind.index(list[i])) in seen;
      }
      seen := seen + {key};
    }
    assert list[..|list|] == list;
    ok := true;
  }

  method Validate<P>(c: Codec<P>, gs: GenesisState<P>) returns (ok: bool)
    ensures ok <==> Distinct(Wordles(c), gs.wordleList) && Distinct(Guesses(c), gs.guessList)
  {
    ok := NoDuplicates(Wordles(c), gs.wordleList);
    if ok {
      ok := NoDuplicates(Guesses(c), gs.guessList);
    }
  }

  class GenesisKeeper<!P> {
    const codec: Codec<P>
    var store: Store

    constructor (c: Codec<P>, s: Store)
      ensures codec == c && store == s
    {
      codec, store := c, s;
    }

    method SetWordle(w: Wordle)
      modifies this
      ensures store == Put(Wordles(codec), old(store), w)
    {
      store := store[WordleKey(w.index) := codec.encodeWordle(w)];
    }

    method SetGuess(g: Guess)
      modifies this
      ensures store == Put(Guesses(codec), old(store), g)
    {
      store := store[GuessKey(g.index) := codec.encodeGuess(g)];
    }

    method GetWordle(index: Bytes) returns (w: Option<Wordle>)
      ensures w == if index in View(Wordles(codec), store) then Some(View(Wordles(codec), store)[index]) else None
    {
      ViewAt(Wordles(codec), store, index);
      w := if WordleKey(index) in store then Some(codec.decodeWordle(store[WordleKey(index)])) else None;
    }

    method GetGuess(index: Bytes) returns (g: Option<Guess>)
      ensures g == if index in View(Guesses(codec), store) then Some(View(Guesses(codec), store)[index]) else None
    {
      ViewAt(Guesses(codec), store, index);
      g := if GuessKey(index) in store then Some(codec.decodeGuess(store[GuessKey(index)])) else None;
    }

    method RemoveWordle(index: Bytes)
      modifies this
      ensures View(Wordles(codec), store) == View(Wordles(codec), old(store)) - {index}
      ensures View(Guesses(codec), store) == View(Guesses(codec), old(store))
    {
      RemoveRefines(Wordles(codec), store, index);
      RowsDisjoint(codec, index, index);
      OtherWrites(Guesses(codec), store, WordleKey(index), []);
      store := store - {WordleKey(index)};
    }

    method RemoveGuess(index: Bytes)
      modifies this
      ensures View(Guesses(codec), store) == View(Guesses(codec), old(store)) - {index}
      ensures View(Wordles(codec), store) == View(Wordles(codec), old(store))
    {
      RemoveRefines(Guesses(codec), store, index);
      RowsDisjoint(codec, index, index);
      OtherWrites(Wordles(codec), store, GuessKey(index), []);
      store := store - {GuessKey(index)};
    }

    method GetAllWordle() returns (list: seq<Wordle>, ghost keys: seq<Bytes>)
      ensures Listing(Wordles(codec), store, keys, list)
      ensures Tidy(Wordles(codec), store) ==> Lists(Wordles(codec), list, View(Wordles(codec), store))
    {
      list, keys := ReadAll(Wordles(codec), store);
    }

    method GetAllGuess() returns (list: seq<Guess>, ghost keys: seq<Bytes>)
      ensures Listing(Guesses(codec), store, keys, list)
      ensures Tidy(Guesses(codec), store) ==> Lists(Guesses(codec), list, View(Guesses(codec), store))
    {
      list, keys := ReadAll(Guesses(codec), store);
    }

    method GetParams() returns (params: P)
      ensures params == ParamsAt(codec, store)
    {
      if PARAMS_KEY !in store { return codec.noParams; }
      params := codec.decodeParams(store[PARAMS_KEY]);
    }

    method SetParams(params: P)
      modifies this
      ensures store == old(store)[PARAMS_KEY := codec.encodeParams(params)]
    {
      store := store[PARAMS_KEY := codec.encodeParams(params)];
    }

    method InitGenesis(gs: GenesisState<P>)
      modifies this
      ensures store == Imported(codec, old(store), gs)
    {
      for n := 0 to |gs.wordleList|
        invariant store == PutAll(Wordles(codec), old(store), gs.wordleList[..n])
      {
        assert gs.wordleList[..n + 1][..n] == gs.wordleList[..n];
        SetWordle(gs.wordleList[n]);
      }
      assert gs.wordleList[..|gs.wordleList|] == gs.wordleList;
      ghost var mid := store;
      for n := 0 to |gs.guessList|
        invariant store == PutAll(Guesses(codec), mid, gs.guessList[..n])
      {
        assert gs.guessList[..n + 1][..n] == gs.guessList[..n];
        SetGuess(gs.guessList[n]);
      }
      assert gs.guessList[..|gs.guessList|] == gs.guessList;
      SetParams(gs.params);
    }

    method ExportGenesis() returns (gs: GenesisState<P>)
      ensures Exported(codec, store, gs)
    {
      var params := GetParams();
      var ws, _ := GetAllWordle();
      var gsList, _ := GetAllGuess();
      gs := GenesisState(ws, gsList, params);
    }
  }

  function Imported<P>(c: Codec<P>, store: Store, gs: GenesisState<P>): Store {
    PutAll(Guesses(c), PutAll(Wordles(c), store, gs.wordleList), gs.guessList)[PARAMS_KEY := c.encodeParams(gs.params)]
  }

  /** The whole of both tables in the order of their keys, and the parameters. */
  ghost predicate Exported<P>(c: Codec<P>, store: Store, gs: GenesisState<P>) {
    && (exists keys :: Listing(Wordles(c), store, keys, gs.wordleList))
    && (exists keys :: Listing(Guesses(c), store, keys, gs.guessList))
    && gs.params == ParamsAt(c, store)
  }

  /** Both tables hold nothing but their own records, each under its own index. */
  ghost predicate TidyTables<P>(c: Codec<P>, store: Store) {
    Tidy(Wordles(c), store) && Tidy(Guesses(c), store)
  }

  /** There is one export of a store. */
  lemma ExportDetermined<P>(c: Codec<P>, store: Store, a: GenesisState<P>, b: GenesisState<P>)
    requires Exported(c, store, a) && Exported(c, store, b)
    ensures a == b
  {
    hide Listing;
    var wa :| Listing(Wordles(c), store, wa, a.wordleList);
    var wb :| Listing(Wordles(c), store, wb, b.wordleList);
    var ga :| Listing(Guesses(c), store, ga, a.guessList);
    var gb :| Listing(Guesses(c), store, gb, b.guessList);
    ListingDetermined(Wordles(c), store, wa, a.wordleList, wb, b.wordleList);
    ListingDetermined(Guesses(c), store, ga, a.guessList, gb, b.guessList);
  }

  lemma ExportLists<P>(c: Codec<P>, store: Store, gs: GenesisState<P>)
    requires TidyTables(c, store) && Exported(c, store, gs)
    ensures Lists(Wordles(c), gs.wordleList, View(Wordles(c), store))
    ensures Lists(Guesses(c), gs.guessList, View(Guesses(c), store))
  {
    hide Listing, Lists, View, Tidy;
    var ws :| Listing(Wordles(c), store, ws, gs.wordleList);
    var guesses :| Listing(Guesses(c), store, guesses, gs.guessList);
    ListingOfTidy(Wordles(c), store, ws, gs.wordleList);
    ListingOfTidy(Guesses(c), store, guesses, gs.guessList);
  }

  // ---------- import and export are inverse ----------

  lemma {:induction false} PutAllRefines<T(!new)>(kind: Kind<T>, store: Store, list: seq<T>)
    requires Faithful(kind)
    ensures View(kind, PutAll(kind, store, list)) == AddAll(kind, View(kind, store), list)
    decreases |list|
  {
    if list != [] {
      var n := |list| - 1;
      PutAllRefines(kind, store, list[..n]);
      PutRefines(kind, PutAll(kind, store, list[..n]), list[n]);
    }
  }

  /** No key of one kind stands under the prefix of the other. */
  lemma RowsDisjoint<P>(c: Codec<P>, a: Bytes, b: Bytes)
    ensures !(GUESS_PREFIX <= WordleKey(a)) && !(WORDLE_PREFIX <= GuessKey(b))
    ensures !(GUESS_PREFIX <= PARAMS_KEY) && !(WORDLE_PREFIX <= PARAMS_KEY)
  {
    KindsDisjoint(0, 0, a, b);
    assert WORDLE_PREFIX[0] == 'W' as int && GUESS_PREFIX[0] == 'G' as int;
  }

  /** The undo log's own records never show up among the game's. */
  lemma TrackingIsNoRow<P>(c: Codec<P>, store: Store, height: int64, value: Bytes)
    ensures View(Wordles(c), store[BlockStateKey(height) := value]) == View(Wordles(c), store)
    ensures View(Guesses(c), store[BlockStateKey(height) := value]) == View(Guesses(c), store)
    ensures View(Wordles(c), store[ConsensusInfoKey(height) := value]) == View(Wordles(c), store)
    ensures View(Guesses(c), store[ConsensusInfoKey(height) := value]) == View(Guesses(c), store)
  {
    hide View;
    KeysOfTracking(c, height);
    OtherWrites(Wordles(c), store, BlockStateKey(height), value);
    OtherWrites(Guesses(c), store, BlockStateKey(height), value);
    OtherWrites(Wordles(c), store, ConsensusInfoKey(height), value);
    OtherWrites(Guesses(c), store, ConsensusInfoKey(height), value);
  }

  lemma KeysOfTracking<P>(c: Codec<P>, height: int64)
    ensures !(WORDLE_PREFIX <= BlockStateKey(height)) && !(GUESS_PREFIX <= BlockStateKey(height))
    ensures !(WORDLE_PREFIX <= ConsensusInfoKey(height)) && !(GUESS_PREFIX <= ConsensusInfoKey(height))
  {
    KindsDisjoint(height, height, [], []);
    assert WORDLE_PREFIX[0] == 'W' as int && GUESS_PREFIX[0] == 'G' as int;
  }

  lemma {:induction false} PutAllElsewhere<P>(c: Codec<P>, store: Store, ws: seq<Wordle>, gs: seq<Guess>)
    ensures View(Guesses(c), PutAll(Wordles(c), store, ws)) == View(Guesses(c), store)
    ensures View(Wordles(c), PutAll(Guesses(c), store, gs)) == View(Wordles(c), store)
    decreases |ws| + |gs|
  {
    if ws != [] {
      var n := |ws| - 1;
      PutAllElsewhere(c, store, ws[..n], gs);
      RowsDisjoint(c, ws[n].index, ws[n].index);
      OtherWrites(Guesses(c), PutAll(Wordles(c), store, ws[..n]), WordleKey(ws[n].index), c.encodeWordle(ws[n]));
    } else if gs != [] {
      var n := |gs| - 1;
      PutAllElsewhere(c, store, ws, gs[..n]);
      RowsDisjoint(c, gs[n].index, gs[n].index);
      OtherWrites(Wordles(c), PutAll(Guesses(c), store, gs[..n]), GuessKey(gs[n].index), c.encodeGuess(gs[n]));
    }
  }

  /** Importing adds the lists to the two typed maps, each on its own. */
  lemma ImportViews<P(!new)>(c: Codec<P>, store: Store, gs: GenesisState<P>)
    requires GoodCodec(c)
    ensures View(Wordles(c), Imported(c, store, gs)) == AddAll(Wordles(c), View(Wordles(c), store), gs.wordleList)
    ensures View(Guesses(c), Imported(c, store, gs)) == AddAll(Guesses(c), View(Guesses(c), store), gs.guessList)
  {
    var s1 := PutAll(Wordles(c), store, gs.wordleList);
    var s2 := PutAll(Guesses(c), s1, gs.guessList);
    PutAllRefines(Wordles(c), store, gs.wordleList);
    PutAllRefines(Guesses(c), s1, gs.guessList);
    PutAllElsewhere(c, store, gs.wordleList, []);
    PutAllElsewhere(c, s1, [], gs.guessList);
    RowsDisjoint(c, [], []);
    OtherWrites(Wordles(c), s2, PARAMS_KEY, c.encodeParams(gs.params));
    OtherWrites(Guesses(c), s2, PARAMS_KEY, c.encodeParams(gs.params));
  }

  lemma {:induction false} AddAllMeaning<T>(kind: Kind<T>, list: seq<T>)
    requires Distinct(kind, list)
    ensures Holds(kind, AddAll(kind, map[], list), list)
    decreases |list|
  {
    if list != [] {
      var init, last := list[..|list| - 1], list[|list| - 1];
      assert list == init + [last];
      AddAllMeaning(kind, init);
      HoldsOneMore(kind, AddAll(kind, map[], init), init, last);
    }
  }

  /** Record k is the last of the list with its index. */
  ghost predicate LastWith<T>(kind: Kind<T>, list: seq<T>, k: nat) {
    k < |list| && forall j :: k < j < |list| ==> kind.index(list[j]) != kind.index(list[k])
  }

  /** Of several records with one index the last of the list counts. */
  lemma {:induction false} LastOfListWins<T>(kind: Kind<T>, view: map<Bytes, T>, list: seq<T>, k: nat)
    requires LastWith(kind, list, k)
    ensures var v := AddAll(kind, view, list); kind.index(list[k]) in v && v[kind.index(list[k])] == list[k]
    decreases |list|
  {
    var n := |list| - 1;
    if k < n {
      assert LastWith(kind, list[..n], k);
      LastOfListWins(kind, view, list[..n], k);
    }
  }

  /** Records of indices that are not in the list stay. */
  lemma {:induction false} OthersStay<T>(kind: Kind<T>, view: map<Bytes, T>, list: seq<T>, index: Bytes)
    requires forall k :: 0 <= k < |list| ==> kind.index(list[k]) != index
    ensures var v := AddAll(kind, view, list);
            (index in v <==> index in view) && (index in v ==> v[index] == view[index])
    decreases |list|
  {
    if list != [] {
      OthersStay(kind, view, list[..|list| - 1], index);
    }
  }

  /** The view holds exactly the records of the list, each under its own index. */
  ghost predicate Holds<T>(kind: Kind<T>, view: map<Bytes, T>, list: seq<T>) {
    && OwnIndices(kind, view)
    && (forall t :: t in list ==> kind.index(t) in view && view[kind.index(t)] == t)
    && (forall i :: i in view ==> view[i] in list)
  }

  lemma HoldsOneMore<T>(kind: Kind<T>, view: map<Bytes, T>, list: seq<T>, last: T)
    requires Holds(kind, view, list) && Distinct(kind, list + [last])
    ensures Holds(kind, view[kind.index(last) := last], list + [last])
  {
    var n := |list|;
    forall t | t in list
      ensures kind.index(t) != kind.index(last)
    {
      var i :| 0 <= i < n && list[i] == t;
      assert (list + [last])[i] == t && (list + [last])[n] == last;
    }
  }

  lemma {:induction false} PutAllKeepsTidy<T(!new)>(kind: Kind<T>, store: Store, list: seq<T>)
    requires Faithful(kind) && Tidy(kind, store)
    ensures Tidy(kind, PutAll(kind, store, list))
    decreases |list|
  {
    hide Tidy, Put;
    if list != [] {
      var n := |list| - 1;
      PutAllKeepsTidy(kind, store, list[..n]);
      PutKeepsTidy(kind, PutAll(kind, store, list[..n]), list[n]);
    }
  }

  lemma {:induction false} PutAllKeepsOthersTidy<T, U>(kind: Kind<T>, other: Kind<U>, store: Store, list: seq<T>)
    requires Tidy(other, store)
    requires forall i :: !(other.prefix <= RowKey(kind, i))
    ensures Tidy(other, PutAll(kind, store, list))
    decreases |list|
  {
    hide Tidy, RowKey;
    if list != [] {
      var n := |list| - 1;
      PutAllKeepsOthersTidy(kind, other, store, list[..n]);
      OthersKeepTidy(other, PutAll(kind, store, list[..n]), RowKey(kind, kind.index(list[n])), kind.encode(list[n]));
    }
  }

  /** An import keeps both tables tidy. */
  lemma ImportKeepsTidy<P(!new)>(c: Codec<P>, store: Store, gs: GenesisState<P>)
    requires GoodCodec(c) && TidyTables(c, store)
    ensures TidyTables(c, Imported(c, store, gs))
  {
    hide Tidy;
    var s1 := PutAll(Wordles(c), store, gs.wordleList);
    var s2 := PutAll(Guesses(c), s1, gs.guessList);
    forall i
      ensures !(GUESS_PREFIX <= RowKey(Wordles(c), i)) && !(WORDLE_PREFIX <= RowKey(Guesses(c), i))
    {
      RowsDisjoint(c, i, i);
    }
    PutAllKeepsTidy(Wordles(c), store, gs.wordleList);
    PutAllKeepsOthersTidy(Wordles(c), Guesses(c), store, gs.wordleList);
    PutAllKeepsTidy(Guesses(c), s1, gs.guessList);
    PutAllKeepsOthersTidy(Guesses(c), Wordles(c), s1, gs.guessList);
    RowsDisjoint(c, [], []);
    OthersKeepTidy(Wordles(c), s2, PARAMS_KEY, c.encodeParams(gs.params));
    OthersKeepTidy(Guesses(c), s2, PARAMS_KEY, c.encodeParams(gs.params));
  }

  /** Two lists without duplicate indices that build the same map hold the same records. */
  lemma SameRecords<T>(kind: Kind<T>, list: seq<T>, out: seq<T>)
    requires Distinct(kind, list) && Lists(kind, out, AddAll(kind, map[], list))
    ensures multiset(out) == multiset(list)
  {
    hide RowKey, Less;
    AddAllMeaning(kind, list);
    ListsDistinct(kind, out, AddAll(kind, map[], list));
    SamePermuted(kind, out, list);
  }

  /** Exporting what was imported into empty tables gives the same records, in key order, and the same
      parameters. */
  lemma ExportAfterImport<P(!new)>(c: Codec<P>, store: Store, gs: GenesisState<P>, out: GenesisState<P>)
    requires GoodCodec(c)
    requires Distinct(Wordles(c), gs.wordleList) && Distinct(Guesses(c), gs.guessList)
    requires forall k :: k in store ==> !(WORDLE_PREFIX <= k) && !(GUESS_PREFIX <= k)
    requires Exported(c, Imported(c, store, gs), out)
    ensures multiset(out.wordleList) == multiset(gs.wordleList) && multiset(out.guessList) == multiset(gs.guessList)
    ensures Ascending(RowKeys(Wordles(c), out.wordleList)) && Ascending(RowKeys(Guesses(c), out.guessList))
    ensures out.params == gs.params
  {
    hide Tidy, View, Listing, Distinct, Less;
    EmptyIsTidy(Wordles(c), store);
    EmptyIsTidy(Guesses(c), store);
    ImportKeepsTidy(c, store, gs);
    ExportLists(c, Imported(c, store, gs), out);
    ImportViews(c, store, gs);
    SameRecords(Wordles(c), gs.wordleList, out.wordleList);
    SameRecords(Guesses(c), gs.guessList, out.guessList);
  }

  lemma ListRebuilds<T>(kind: Kind<T>, list: seq<T>, view: map<Bytes, T>)
    requires OwnIndices(kind, view) && Lists(kind, list, view)
    ensures AddAll(kind, map[], list) == view
  {
    ListsDistinct(kind, list, view);
    AddAllMeaning(kind, list);
    var v := AddAll(kind, map[], list);
    forall i
      ensures i in v <==> i in view
      ensures i in v ==> v[i] == view[i]
    {
      if i in view {
        assert view[i] in list && kind.index(view[i]) == i;
      }
      if i in v {
        assert v[i] in list && kind.index(v[i]) == i;
      }
    }
  }

  /** An export passes validation, importing it into an empty store reproduces the game's records and the
      parameters, and exporting those again gives the same export. */
  lemma ImportAfterExport<P(!new)>(c: Codec<P>, store: Store, gs: GenesisState<P>, again: GenesisState<P>)
    requires GoodCodec(c) && Exported(c, store, gs) && TidyTables(c, store)
    ensures Distinct(Wordles(c), gs.wordleList) && Distinct(Guesses(c), gs.guessList)
    ensures View(Wordles(c), Imported(c, map[], gs)) == View(Wordles(c), store)
    ensures View(Guesses(c), Imported(c, map[], gs)) == View(Guesses(c), store)
    ensures ParamsAt(c, Imported(c, map[], gs)) == ParamsAt(c, store)
    ensures Exported(c, Imported(c, map[], gs), again) ==> again == gs
  {
    hide View, Lists, Listing, Distinct;
    ExportLists(c, store, gs);
    ListsDistinct(Wordles(c), gs.wordleList, View(Wordles(c), store));
    ListsDistinct(Guesses(c), gs.guessList, View(Guesses(c), store));
    ImportViews(c, map[], gs);
    EmptyIsTidy(Wordles(c), map[]);
    EmptyIsTidy(Guesses(c), map[]);
    ListRebuilds(Wordles(c), gs.wordleList, View(Wordles(c), store));
    ListRebuilds(Guesses(c), gs.guessList, View(Guesses(c), store));
    if Exported(c, Imported(c, map[], gs), again) {
      ImportKeepsTidy(c, map[], gs);
      ExportLists(c, Imported(c, map[], gs), again);
      ListsDetermined(Wordles(c), gs.wordleList, again.wordleList, View(Wordles(c), store));
      ListsDetermined(Guesses(c), gs.guessList, again.guessList, View(Guesses(c), store));
    }
  }
}
