/** Typed records in the byte store, and the order in which the store lists them. */
module Tables {
  import opened Bytes
  import opened Keys

  // ---------- a table of records in the store ----------

  /** How records of one kind are kept: their key prefix, their index, and the store's codec for them. */
  datatype Kind<!T> = Kind(prefix: Bytes, index: T -> Bytes, encode: T -> Bytes, decode: Bytes -> T)

  ghost predicate Faithful<T(!new)>(kind: Kind<T>) {
    forall t :: kind.decode(kind.encode(t)) == t
  }

  function RowKey<T>(kind: Kind<T>, index: Bytes): Bytes {
    kind.prefix + IndexKey(index)
  }

  function Put<T>(kind: Kind<T>, store: Store, t: T): Store {
    store[RowKey(kind, kind.index(t)) := kind.encode(t)]
  }

  /** Whether a key of the store is a row of this kind, and for which index. */
  predicate IsRow<T>(kind: Kind<T>, key: Bytes) {
    |key| > |kind.prefix| && kind.prefix <= key && key[|key| - 1..] == Ascii("/")
  }

  function IndexOf<T>(kind: Kind<T>, key: Bytes): Bytes
    requires IsRow(kind, key)
  {
    key[|kind.prefix|..|key| - 1]
  }

  function Indices<T>(kind: Kind<T>, store: Store): set<Bytes> {
    set key | key in store && IsRow(kind, key) :: IndexOf(kind, key)
  }

  lemma RowKeyParts<T>(kind: Kind<T>, index: Bytes)
    ensures IsRow(kind, RowKey(kind, index)) && IndexOf(kind, RowKey(kind, index)) == index
  {
    assert |Ascii("/")| == 1;
  }

  lemma RowKeyOf<T>(kind: Kind<T>, key: Bytes)
    requires IsRow(kind, key)
    ensures RowKey(kind, IndexOf(kind, key)) == key
  {
    assert |Ascii("/")| == 1;
    assert key == key[..|kind.prefix|] + key[|kind.prefix|..|key| - 1] + key[|key| - 1..];
  }

  lemma IndexStored<T>(kind: Kind<T>, store: Store, index: Bytes)
    ensures index in Indices(kind, store) <==> RowKey(kind, index) in store
  {
    RowKeyParts(kind, index);
    if index in Indices(kind, store) {
      var key :| key in store && IsRow(kind, key) && IndexOf(kind, key) == index;
      RowKeyOf(kind, key);
    }
  }

  /** The typed map that the rows of a kind amount to. */
  function View<T>(kind: Kind<T>, store: Store): map<Bytes, T> {
    map i | i in Indices(kind, store) && RowKey(kind, i) in store :: kind.decode(store[RowKey(kind, i)])
  }

  lemma ViewAt<T>(kind: Kind<T>, store: Store, index: Bytes)
    ensures index in View(kind, store) <==> RowKey(kind, index) in store
    ensures index in View(kind, store) ==> View(kind, store)[index] == kind.decode(store[RowKey(kind, index)])
  {
    IndexStored(kind, store, index);
  }

  lemma RowKeyInjective<T>(kind: Kind<T>, a: Bytes, b: Bytes)
    requires RowKey(kind, a) == RowKey(kind, b)
    ensures a == b
  {
    RowKeyParts(kind, a);
    RowKeyParts(kind, b);
  }

  /** Writing a record is updating the typed map. */
  lemma PutRefines<T(!new)>(kind: Kind<T>, store: Store, t: T)
    requires Faithful(kind)
    ensures View(kind, Put(kind, store, t)) == View(kind, store)[kind.index(t) := t]
  {
    var v, v' := View(kind, store), View(kind, Put(kind, store, t));
    forall i
      ensures i in v' <==> i in v || i == kind.index(t)
      ensures i in v' ==> v'[i] == if i == kind.index(t) then t else v[i]
    {
      ViewAt(kind, store, i);
      ViewAt(kind, Put(kind, store, t), i);
      if RowKey(kind, i) == RowKey(kind, kind.index(t)) { RowKeyInjective(kind, i, kind.index(t)); }
    }
  }

  /** Removing a record is removing it from the typed map. */
  lemma RemoveRefines<T>(kind: Kind<T>, store: Store, index: Bytes)
    ensures View(kind, store - {RowKey(kind, index)}) == View(kind, store) - {index}
  {
    var store' := store - {RowKey(kind, index)};
    var v, v' := View(kind, store), View(kind, store');
    forall i
      ensures i in v' <==> i in v && i != index
      ensures i in v' ==> v'[i] == v[i]
    {
      ViewAt(kind, store, i);
      ViewAt(kind, store', i);
      if RowKey(kind, i) == RowKey(kind, index) { RowKeyInjective(kind, i, index); }
    }
  }

  /** A write under any other key leaves the typed map alone. */
  lemma OtherWrites<T>(kind: Kind<T>, store: Store, key: Bytes, value: Bytes)
    requires !IsRow(kind, key)
    ensures View(kind, store[key := value]) == View(kind, store)
    ensures View(kind, store - {key}) == View(kind, store)
  {
    hide View, IsRow;
    assert store[key := value] - {key} == store - {key};
    SameRows(kind, store, store[key := value], key);
    SameRows(kind, store, store - {key}, key);
  }

  lemma SameRows<T>(kind: Kind<T>, s: Store, t: Store, key: Bytes)
    requires !IsRow(kind, key) && s - {key} == t - {key}
    ensures View(kind, s) == View(kind, t)
  {
    hide View, IsRow;
    forall i
      ensures i in View(kind, s) <==> i in View(kind, t)
      ensures i in View(kind, s) ==> View(kind, s)[i] == View(kind, t)[i]
    {
      RowKeyParts(kind, i);
      var k := RowKey(kind, i);
      assert k in s - {key} <==> k in t - {key};
      assert k in s ==> (s - {key})[k] == s[k];
      assert k in t ==> (t - {key})[k] == t[k];
      ViewAt(kind, s, i);
      ViewAt(kind, t, i);
    }
  }

  /** Records sit under their own index. */
  ghost predicate OwnIndices<T>(kind: Kind<T>, view: map<Bytes, T>) {
    forall i :: i in view ==> kind.index(view[i]) == i
  }

  /** Every key under the prefix is a row, and every record sits under its own index. */
  ghost predicate Tidy<T>(kind: Kind<T>, store: Store) {
    && (forall k :: k in store && kind.prefix <= k ==> IsRow(kind, k))
    && OwnIndices(kind, View(kind, store))
  }

  /** Sets and removes keep a table tidy, and so do writes outside it; an empty one is tidy. */
  lemma WritesKeepTidy<T(!new)>(kind: Kind<T>, store: Store, t: T, index: Bytes, key: Bytes, value: Bytes)
    requires Faithful(kind) && Tidy(kind, store) && !(kind.prefix <= key)
    ensures Tidy(kind, Put(kind, store, t))
    ensures Tidy(kind, store - {RowKey(kind, index)})
    ensures Tidy(kind, store[key := value]) && Tidy(kind, store - {key})
    ensures Tidy(kind, map[])
  {
    hide Tidy, View, IsRow;
    PutKeepsTidy(kind, store, t);
    RemoveKeepsTidy(kind, store, index);
    OthersKeepTidy(kind, store, key, value);
    EmptyIsTidy(kind, map[]);
  }

  lemma PutKeepsTidy<T(!new)>(kind: Kind<T>, store: Store, t: T)
    requires Faithful(kind) && Tidy(kind, store)
    ensures Tidy(kind, Put(kind, store, t))
  {
    hide View, IsRow;
    PutRefines(kind, store, t);
    RowKeyParts(kind, kind.index(t));
  }

  lemma RemoveKeepsTidy<T>(kind: Kind<T>, store: Store, index: Bytes)
    requires Tidy(kind, store)
    ensures Tidy(kind, store - {RowKey(kind, index)})
  {
    hide View, IsRow, RowKey;
    RemoveRefines(kind, store, index);
  }

  lemma OthersKeepTidy<T>(kind: Kind<T>, store: Store, key: Bytes, value: Bytes)
    requires Tidy(kind, store) && !(kind.prefix <= key)
    ensures Tidy(kind, store[key := value]) && Tidy(kind, store - {key})
  {
    OtherWrites(kind, store, key, value);
    hide View, IsRow;
  }

  lemma EmptyIsTidy<T>(kind: Kind<T>, store: Store)
    requires forall k :: k in store ==> !(kind.prefix <= k)
    ensures Tidy(kind, store) && View(kind, store) == map[]
  {
    hide View, IsRow;
    EmptyView(kind, store);
  }

  lemma EmptyView<T>(kind: Kind<T>, store: Store)
    requires forall k :: k in store ==> !(kind.prefix <= k)
    ensures View(kind, store) == map[]
  {
    forall i
      ensures i !in View(kind, store)
    {
      ViewAt(kind, store, i);
      assert kind.prefix <= RowKey(kind, i);
    }
  }

  // ---------- order of keys ----------

  /** Byte-wise lexicographic order, in which the store is iterated. */
  predicate Less(a: Bytes, b: Bytes) {
    b != [] && (a == [] || a[0] < b[0] || (a[0] == b[0] && Less(a[1..], b[1..])))
  }

  /** The first n bytes of a and b are the same, and there the order is decided: a ends and b goes on, or the
      byte of a is the smaller. */
  predicate DecidedAt(a: Bytes, b: Bytes, n: nat) {
    && n <= |a| && n < |b| && a[..n] == b[..n]
    && (n == |a| || a[n] < b[n])
  }

  /** One key precedes another exactly when it does so at the first byte that differs. */
  lemma {:induction false} LessMeaning(a: Bytes, b: Bytes)
    ensures Less(a, b) <==> exists n :: DecidedAt(a, b, n)
    decreases |a|
  {
    if a == [] || b == [] || a[0] != b[0] {
      assert DecidedAt(a, b, 0) <==> b != [] && (a == [] || a[0] < b[0]);
      assert forall n :: n > 0 && DecidedAt(a, b, n) ==> a[..n][0] == b[..n][0];
    } else {
      LessMeaning(a[1..], b[1..]);
      forall n: nat
        ensures DecidedAt(a[1..], b[1..], n) <==> DecidedAt(a, b, n + 1)
      {
        LaterDecided(a, b, n);
      }
      assert !DecidedAt(a, b, 0);
      assert forall n: nat :: n > 0 && DecidedAt(a, b, n) ==> DecidedAt(a[1..], b[1..], n - 1);
    }
  }

  lemma LaterDecided(a: Bytes, b: Bytes, n: nat)
    requires a != [] && b != [] && a[0] == b[0]
    ensures DecidedAt(a[1..], b[1..], n) <==> DecidedAt(a, b, n + 1)
  {
    if n < |a| && n + 1 < |b| {
      assert a[..n + 1] == [a[0]] + a[1..][..n] && b[..n + 1] == [b[0]] + b[1..][..n];
      assert a[1..][..n] == a[..n + 1][1..] && b[1..][..n] == b[..n + 1][1..];
    }
  }

  lemma {:induction false} LessTrichotomy(a: Bytes, b: Bytes)
    ensures !(Less(a, b) && Less(b, a)) && (a == b <==> !Less(a, b) && !Less(b, a))
    decreases |a|
  {
    if a != [] && b != [] && a[0] == b[0] {
      LessTrichotomy(a[1..], b[1..]);
      assert a == [a[0]] + a[1..] && b == [b[0]] + b[1..];
    }
  }

  lemma {:induction false} LessTransitive(a: Bytes, b: Bytes, c: Bytes)
    requires Less(a, b) && Less(b, c)
    ensures Less(a, c)
    decreases |a|
  {
    if a != [] && a[0] == b[0] == c[0] {
      LessTransitive(a[1..], b[1..], c[1..]);
    }
  }

  lemma {:induction false} LessExtended(p: Bytes, a: Bytes, b: Bytes)
    ensures Less(p + a, p + b) <==> Less(a, b)
    decreases |p|
  {
    if p == [] {
      assert p + a == a && p + b == b;
    } else {
      LessExtended(p[1..], a, b);
      assert (p + a)[1..] == p[1..] + a && (p + b)[1..] == p[1..] + b;
    }
  }

  lemma {:induction false} LessByLast(a: Bytes, b: Bytes, x: byte, y: byte)
    requires |a| == |b|
    ensures Less(a + [x], b + [y]) <==> Less(a, b) || (a == b && x < y)
    decreases |a|
  {
    if a == [] {
      assert a + [x] == [x] && b + [y] == [y] && [x][1..] == [] && [y][1..] == [];
    } else {
      LessByLast(a[1..], b[1..], x, y);
      assert (a + [x])[1..] == a[1..] + [x] && (b + [y])[1..] == b[1..] + [y];
      assert a == [a[0]] + a[1..] && b == [b[0]] + b[1..];
    }
  }

  lemma {:induction false} BigEndianSorts(u: nat, v: nat, n: nat)
    requires u < Pow256(n) && v < Pow256(n)
    ensures Less(BigEndian(u, n), BigEndian(v, n)) <==> u < v
    decreases n
  {
    if n > 0 {
      BigEndianSorts(u / 256, v / 256, n - 1);
      LessByLast(BigEndian(u / 256, n - 1), BigEndian(v / 256, n - 1), u % 256, v % 256);
      if BigEndian(u / 256, n - 1) == BigEndian(v / 256, n - 1) {
        BigEndianReadBack(u / 256, n - 1);
        BigEndianReadBack(v / 256, n - 1);
      }
    }
  }

  /** The records of the heights, which are not negative, stand in the store in their order. */
  lemma HeightsSort(h: int64, h': int64)
    requires h >= 0 && h' >= 0
    ensures Less(BlockStateKey(h), BlockStateKey(h')) <==> h < h'
    ensures Less(ConsensusInfoKey(h), ConsensusInfoKey(h')) <==> h < h'
  {
    EightBytes();
    hide Pow256, Less, Ascii, BigEndian;
    var x, y := BigEndian(ToUint64(h), 8), BigEndian(ToUint64(h'), 8);
    assert Less(x, y) <==> h < h' by { BigEndianSorts(ToUint64(h), ToUint64(h'), 8); }
    LessExtended(Ascii("block_state"), x, y);
    LessExtended(Ascii("consensus_info"), x, y);
  }

  ghost predicate Ascending(keys: seq<Bytes>) {
    forall i, j :: 0 <= i < j < |keys| ==> Less(keys[i], keys[j])
  }

  /** There is only one way to list a set of keys in order. */
  lemma {:induction false} ListingUnique(a: seq<Bytes>, b: seq<Bytes>)
    requires Ascending(a) && Ascending(b) && forall k :: k in a <==> k in b
    ensures a == b
    decreases |a|
  {
    if a == [] {
      if b != [] {
        HasMember(b);
        assert false;
      }
    } else if b == [] {
      HasMember(a);
      assert false;
    } else {
      SameHead(a, b);
      ListingUnique(a[1..], b[1..]) by { SameTail(a, b); }
      assert a == [a[0]] + a[1..] && b == [b[0]] + b[1..];
    }
  }

  lemma SameHead(a: seq<Bytes>, b: seq<Bytes>)
    requires a != [] && b != [] && Ascending(a) && Ascending(b) && forall k :: k in a <==> k in b
    ensures a[0] == b[0]
  {
    assert a[0] in b && b[0] in a;
    var i :| 0 <= i < |b| && b[i] == a[0];
    var j :| 0 <= j < |a| && a[j] == b[0];
    LessTrichotomy(a[0], b[0]);
  }

  lemma SameTail(a: seq<Bytes>, b: seq<Bytes>)
    requires a != [] && b != [] && Ascending(a) && Ascending(b) && a[0] == b[0] && forall k :: k in a <==> k in b
    ensures Ascending(a[1..]) && Ascending(b[1..]) && forall k :: k in a[1..] <==> k in b[1..]
  {
    LessTrichotomy(a[0], a[0]);
    assert forall k :: k in a[1..] <==> k in a && k != a[0] by { TailMembers(a); }
    assert forall k :: k in b[1..] <==> k in b && k != b[0] by { TailMembers(b); }
  }

  lemma TailMembers(a: seq<Bytes>)
    requires a != [] && Ascending(a)
    ensures forall k :: k in a[1..] <==> k in a && k != a[0]
  {
    LessTrichotomy(a[0], a[0]);
    forall k | k in a[1..]
      ensures k in a && k != a[0]
    {
      var i :| 0 <= i < |a[1..]| && a[1..][i] == k;
      assert a[i + 1] == k && Less(a[0], a[i + 1]);
    }
  }

  /** The iterator of a prefix store: every key under the prefix, in order. */
  method Iterate(prefix: Bytes, store: Store) returns (keys: seq<Bytes>)
    ensures Ascending(keys) && forall k :: k in keys <==> k in store && prefix <= k
  {
    keys := [];
    var left := set k | k in store && prefix <= k;
    ghost var all := left;
    while left != {}
      invariant left <= all && Ascending(keys) && forall k :: k in keys <==> k in all - left
      decreases |left|
    {
      var k :| k in left;
      assert k !in keys;
      keys := InsertKey(keys, k);
      left := left - {k};
    }
  }

  method InsertKey(keys: seq<Bytes>, key: Bytes) returns (r: seq<Bytes>)
    requires Ascending(keys) && key !in keys
    ensures Ascending(r) && forall k :: k in r <==> k in keys || k == key
  {
    var n := |keys|;
    while n > 0 && Less(key, keys[n - 1])
      invariant 0 <= n <= |keys| && (n < |keys| ==> Less(key, keys[n]))
    {
      n := n - 1;
    }
    if n > 0 {
      LessTrichotomy(key, keys[n - 1]);
    }
    InsertedAscends(keys, n, key);
    r := keys[..n] + [key] + keys[n..];
    assert keys == keys[..n] + keys[n..];
  }

  lemma InsertedAscends(keys: seq<Bytes>, n: nat, key: Bytes)
    requires Ascending(keys) && n <= |keys|
    requires n < |keys| ==> Less(key, keys[n])
    requires n > 0 ==> Less(keys[n - 1], key)
    ensures Ascending(keys[..n] + [key] + keys[n..])
  {
    var r := keys[..n] + [key] + keys[n..];
    forall i, j | 0 <= i < j < |r|
      ensures Less(r[i], r[j])
    {
      if i < n {
        if i < n - 1 { LessTransitive(keys[i], keys[n - 1], key); }
        assert Less(r[i], key);
      }
      if j > n {
        if j - 1 > n { LessTransitive(key, keys[n], keys[j - 1]); }
        assert Less(key, r[j]);
      }
    }
  }

  // ---------- listing a table ----------

  /** What GetAll returns: the values under the prefix, decoded, in the order of their keys. */
  ghost predicate Listing<T>(kind: Kind<T>, store: Store, keys: seq<Bytes>, list: seq<T>) {
    && Ascending(keys) && (forall k :: k in keys <==> k in store && kind.prefix <= k)
    && |list| == |keys|
    && forall i :: 0 <= i < |keys| ==> keys[i] in store && list[i] == kind.decode(store[keys[i]])
  }

  /** `list` holds exactly the records of the view, in the order of their keys. */
  ghost predicate Lists<T>(kind: Kind<T>, list: seq<T>, view: map<Bytes, T>) {
    && (forall i, j :: 0 <= i < j < |list| ==>
                          Less(RowKey(kind, kind.index(list[i])), RowKey(kind, kind.index(list[j]))))
    && (forall t :: t in list ==> kind.index(t) in view && view[kind.index(t)] == t)
    && (forall i :: i in view ==> view[i] in list)
  }

  /** GetAll: the iterator's values, decoded one after another. */
  method ReadAll<T>(kind: Kind<T>, store: Store) returns (list: seq<T>, ghost keys: seq<Bytes>)
    ensures Listing(kind, store, keys, list)
    ensures Tidy(kind, store) ==> Lists(kind, list, View(kind, store))
  {
    hide Tidy, View, Lists;
    var all := Iterate(kind.prefix, store);
    keys := all;
    list := [];
    for n := 0 to |all|
      invariant |list| == n && forall i :: 0 <= i < n ==> all[i] in store && list[i] == kind.decode(store[all[i]])
    {
      assert all[n] in all;
      list := list + [kind.decode(store[all[n]])];
    }
    if Tidy(kind, store) {
      ListingOfTidy(kind, store, keys, list);
    }
  }

  /** A table has one listing. */
  lemma ListingDetermined<T>(kind: Kind<T>, store: Store, keys: seq<Bytes>, a: seq<T>, keys': seq<Bytes>, b: seq<T>)
    requires Listing(kind, store, keys, a) && Listing(kind, store, keys', b)
    ensures a == b
  {
    ListingUnique(keys, keys');
  }

  /** The rows of a tidy table. */
  lemma RowsOf<T>(kind: Kind<T>, store: Store, keys: seq<Bytes>, list: seq<T>, n: nat)
    requires Tidy(kind, store) && Listing(kind, store, keys, list) && n < |keys|
    ensures IsRow(kind, keys[n]) && RowKey(kind, kind.index(list[n])) == keys[n]
    ensures kind.index(list[n]) in View(kind, store) && View(kind, store)[kind.index(list[n])] == list[n]
  {
    hide View, Ascending;
    assert keys[n] in keys;
    RowKeyOf(kind, keys[n]);
    ViewAt(kind, store, IndexOf(kind, keys[n]));
  }

  /** The listing of a tidy table holds each record of the typed map once. */
  lemma ListingOfTidy<T>(kind: Kind<T>, store: Store, keys: seq<Bytes>, list: seq<T>)
    requires Tidy(kind, store) && Listing(kind, store, keys, list)
    ensures Lists(kind, list, View(kind, store))
  {
    var v := View(kind, store);
    hide View, Tidy, IsRow, RowKey;
    forall n | 0 <= n < |keys|
      ensures RowKey(kind, kind.index(list[n])) == keys[n]
      ensures kind.index(list[n]) in v && v[kind.index(list[n])] == list[n]
    {
      RowsOf(kind, store, keys, list, n);
    }
    forall i | i in v
      ensures v[i] in list
    {
      RowListed(kind, store, keys, list, i);
    }
  }

  lemma RowListed<T>(kind: Kind<T>, store: Store, keys: seq<Bytes>, list: seq<T>, index: Bytes)
    requires Listing(kind, store, keys, list) && index in View(kind, store)
    ensures View(kind, store)[index] in list
  {
    hide View, IsRow, Ascending;
    ViewAt(kind, store, index);
    assert kind.prefix <= RowKey(kind, index);
    var n :| 0 <= n < |keys| && keys[n] == RowKey(kind, index);
    assert list[n] == View(kind, store)[index];
  }

  ghost predicate Distinct<T>(kind: Kind<T>, list: seq<T>) {
    forall i, j :: 0 <= i < j < |list| ==> kind.index(list[i]) != kind.index(list[j])
  }

  lemma ListsDistinct<T>(kind: Kind<T>, list: seq<T>, view: map<Bytes, T>)
    requires Lists(kind, list, view)
    ensures Distinct(kind, list)
  {
    forall i, j | 0 <= i < j < |list|
      ensures kind.index(list[i]) != kind.index(list[j])
    {
      LessTrichotomy(RowKey(kind, kind.index(list[i])), RowKey(kind, kind.index(list[j])));
    }
  }

  /** In a list without duplicate indices each record stands once. */
  lemma {:induction false} EachStandsOnce<T>(kind: Kind<T>, list: seq<T>, t: T)
    requires Distinct(kind, list)
    ensures multiset(list)[t] == if t in list then 1 else 0
    decreases |list|
  {
    if list != [] {
      var init, last := list[..|list| - 1], list[|list| - 1];
      assert list == init + [last];
      EachStandsOnce(kind, init, t);
    }
  }

  /** Two lists of the same records, each without duplicate indices, are permutations of each other. */
  lemma SamePermuted<T>(kind: Kind<T>, a: seq<T>, b: seq<T>)
    requires Distinct(kind, a) && Distinct(kind, b) && forall t :: t in a <==> t in b
    ensures multiset(a) == multiset(b)
  {
    forall t
      ensures multiset(a)[t] == multiset(b)[t]
    {
      EachStandsOnce(kind, a, t);
      EachStandsOnce(kind, b, t);
    }
  }

  function RowKeys<T>(kind: Kind<T>, list: seq<T>): (r: seq<Bytes>)
    ensures |r| == |list| && forall i :: 0 <= i < |list| ==> r[i] == RowKey(kind, kind.index(list[i]))
  {
    seq(|list|, i requires 0 <= i < |list| => RowKey(kind, kind.index(list[i])))
  }

  /** A typed map has one listing in key order. */
  lemma ListsDetermined<T>(kind: Kind<T>, a: seq<T>, b: seq<T>, view: map<Bytes, T>)
    requires Lists(kind, a, view) && Lists(kind, b, view)
    ensures a == b
  {
    var ka, kb := RowKeys(kind, a), RowKeys(kind, b);
    SubsetOfKeys(kind, a, b, view);
    SubsetOfKeys(kind, b, a, view);
    ListingUnique(ka, kb);
    forall i | 0 <= i < |a|
      ensures a[i] == b[i]
    {
      assert ka[i] == kb[i];
      RowKeyInjective(kind, kind.index(a[i]), kind.index(b[i]));
      assert a[i] in a && b[i] in b;
    }
  }

  lemma SubsetOfKeys<T>(kind: Kind<T>, a: seq<T>, b: seq<T>, view: map<Bytes, T>)
    requires Lists(kind, a, view) && Lists(kind, b, view)
    ensures Ascending(RowKeys(kind, a))
    ensures forall k :: k in RowKeys(kind, a) ==> k in RowKeys(kind, b)
  {
    hide RowKey, Less;
    var ka, kb := RowKeys(kind, a), RowKeys(kind, b);
    forall k | k in ka
      ensures k in kb
    {
      var i :| 0 <= i < |ka| && ka[i] == k;
      assert a[i] in a;
      assert view[kind.index(a[i])] in b;
      var j :| 0 <= j < |b| && b[j] == a[i];
      assert kb[j] == k;
    }
  }
}
