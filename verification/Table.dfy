/**
  The value of a chained hash table: what insertion, lookup and the doubling rehash of
  lib/prom/src/prom_map.c compute on the chains, and their relation to a finite map.
  */
module Tables {
  import opened Prelude
  import opened Hashing

  datatype Entry<+V> = Entry(key: string, value: V)

  type Chain<V> = seq<Entry<V>>
  type Chains<V> = seq<Chain<V>>

  /** Position of the first entry with the key, or the chain's length. */
  function Find<V>(chain: Chain<V>, key: string): (i: nat)
    ensures i <= |chain|
    ensures i < |chain| ==> chain[i].key == key
    ensures forall j :: 0 <= j < i ==> chain[j].key != key
  {
    if chain == [] || chain[0].key == key then 0 else 1 + Find(chain[1..], key)
  }

  /** An entry with the same key is replaced where it stands; a new key goes to the end. */
  function PutChain<V>(chain: Chain<V>, e: Entry<V>): Chain<V> {
    var i := Find(chain, e.key);
    if i < |chain| then chain[i := e] else chain + [e]
  }

  function Put<V>(b: Chains<V>, e: Entry<V>): (r: Chains<V>)
    requires |b| > 1
    ensures |r| == |b|
  {
    var h := Index(e.key, |b|);
    b[h := PutChain(b[h], e)]
  }

  function Lookup<V>(b: Chains<V>, key: string): Option<V>
    requires |b| > 1
  {
    var chain := b[Index(key, |b|)];
    var i := Find(chain, key);
    if i < |chain| then Some(chain[i].value) else None
  }

  function MapGet<V>(m: map<string, V>, key: string): Option<V> {
    if key in m then Some(m[key]) else None
  }

  ghost predicate DistinctKeys<V>(es: seq<Entry<V>>) {
    forall i, j :: 0 <= i < j < |es| ==> es[i].key != es[j].key
  }

  /** Every entry sits in the bucket its hash names, and no key occurs twice. */
  ghost predicate WellFormed<V>(b: Chains<V>) {
    && |b| > 1
    && (forall i, j :: 0 <= i < |b| && 0 <= j < |b[i]| ==> Index(b[i][j].key, |b|) == i)
    && (forall i :: 0 <= i < |b| ==> DistinctKeys(b[i]))
  }

  ghost predicate Distinct<T>(s: seq<T>) {
    forall i, j :: 0 <= i < j < |s| ==> s[i] != s[j]
  }

  /** The table and its key list represent the finite map `m`. */
  ghost predicate Refines<V>(b: Chains<V>, ks: seq<string>, m: map<string, V>) {
    && WellFormed(b)
    && (forall k :: Lookup(b, k) == MapGet(m, k))
    && Distinct(ks)
    && (forall k :: k in ks <==> k in m)
    && |ks| == |m|
  }

  function Empty<V>(n: nat): (b: Chains<V>)
    ensures |b| == n
  {
    seq(n, _ => [])
  }

  lemma EmptyRefines<V>(n: nat)
    requires n > 1
    ensures Refines(Empty<V>(n), [], map[])
  {
  }

  /** Keys the key list gains when `key` is set. */
  function KeysAfter(ks: seq<string>, key: string, isNew: bool): seq<string> {
    if isNew then ks + [key] else ks
  }

  /** Setting a key updates the map there and nowhere else. */
  lemma PutRefines<V>(b: Chains<V>, ks: seq<string>, m: map<string, V>, e: Entry<V>)
    requires Refines(b, ks, m)
    ensures Refines(Put(b, e), KeysAfter(ks, e.key, e.key !in m), m[e.key := e.value])
    ensures Lookup(b, e.key).None? <==> e.key !in m
  {
    var h := Index(e.key, |b|);
    var b', m' := Put(b, e), m[e.key := e.value];
    PutChainKeepsPlace(b[h], e, h, |b|);
    forall k ensures Lookup(b', k) == MapGet(m', k) {
      assert Lookup(b, k) == MapGet(m, k);
      PutChainFind(b[h], e, k);
    }
    assert Lookup(b, e.key) == MapGet(m, e.key);
    var ks' := KeysAfter(ks, e.key, e.key !in m);
    forall k ensures k in ks' <==> k in m' {
      assert k in ks <==> k in m;
    }
  }

  lemma PutChainKeepsPlace<V>(c: Chain<V>, e: Entry<V>, h: nat, n: nat)
    requires n > 1 && Index(e.key, n) == h
    requires forall j :: 0 <= j < |c| ==> Index(c[j].key, n) == h
    requires DistinctKeys(c)
    ensures forall j :: 0 <= j < |PutChain(c, e)| ==> Index(PutChain(c, e)[j].key, n) == h
    ensures DistinctKeys(PutChain(c, e))
  {
  }

  lemma PutChainFind<V>(c: Chain<V>, e: Entry<V>, k: string)
    ensures var c' := PutChain(c, e); var i, i' := Find(c, k), Find(c', k);
            if k == e.key then i' < |c'| && c'[i'].value == e.value
            else (i < |c| <==> i' < |c'|) && (i < |c| ==> c'[i'] == c[i])
  {
    var i, c' := Find(c, e.key), PutChain(c, e);
    var p, p' := Find(c, k), Find(c', k);
    if k == e.key {
      assert c'[i] == e;
    } else {
      if p < |c| {
        assert c'[p] == c[p];
      }
      if p' < |c'| {
        assert c'[p'] == c[p'];
      }
    }
  }

  // ----- Rehash: all entries, in bucket order, put into a fresh table -----

  /** The entries of the chains, in bucket order. */
  function Entries<V>(b: Chains<V>): seq<Entry<V>> {
    if b == [] then [] else Entries(b[..|b| - 1]) + b[|b| - 1]
  }

  function PutAll<V>(b: Chains<V>, es: seq<Entry<V>>): (r: Chains<V>)
    requires |b| > 1
    ensures |r| == |b|
  {
    if es == [] then b else Put(PutAll(b, es[..|es| - 1]), es[|es| - 1])
  }

  function Keys<V>(es: seq<Entry<V>>): (ks: seq<string>)
    ensures |ks| == |es|
    ensures forall i :: 0 <= i < |es| ==> ks[i] == es[i].key
  {
    seq(|es|, i requires 0 <= i < |es| => es[i].key)
  }

  /** The map that setting the entries one after another leaves. */
  function MapOf<V>(es: seq<Entry<V>>): map<string, V> {
    if es == [] then map[]
    else MapOf(es[..|es| - 1])[es[|es| - 1].key := es[|es| - 1].value]
  }

  lemma {:induction false} MapOfKeys<V>(es: seq<Entry<V>>, k: string)
    ensures k in MapOf(es) <==> exists i :: 0 <= i < |es| && es[i].key == k
  {
    if es != [] {
      var front := es[..|es| - 1];
      MapOfKeys(front, k);
      if k in MapOf(front) {
        var i :| 0 <= i < |front| && front[i].key == k;
        assert es[i].key == k;
      } else if exists i :: 0 <= i < |es| && es[i].key == k {
        var i :| 0 <= i < |es| && es[i].key == k;
        assert i < |front| ==> front[i].key == k;
      }
    }
  }

  /** The doubled table that rehashing `b` builds. */
  function Rehash<V>(b: Chains<V>): (r: Chains<V>)
    requires |b| > 1
    ensures |r| == 2 * |b|
  {
    PutAll(Empty(2 * |b|), Entries(b))
  }

  lemma {:induction false} PutAllRefines<V>(n: nat, es: seq<Entry<V>>)
    requires n > 1 && DistinctKeys(es)
    ensures Refines(PutAll(Empty(n), es), Keys(es), MapOf(es))
  {
    if es == [] {
      EmptyRefines<V>(n);
    } else {
      var front, e := es[..|es| - 1], es[|es| - 1];
      var table, m := PutAll(Empty(n), front), MapOf(front);
      PutAllRefines(n, front);
      assert e.key !in m by {
        MapOfKeys(front, e.key);
      }
      assert Keys(es) == KeysAfter(Keys(front), e.key, true);
      PutRefines(table, Keys(front), m, e);
    }
  }

  /** What the first n buckets hold: exactly the map's keys that hash below n. */
  lemma {:induction false} PrefixEntries<V>(b: Chains<V>, n: nat)
    requires WellFormed(b) && n <= |b|
    ensures forall i :: 0 <= i < |Entries(b[..n])| ==> Index(Entries(b[..n])[i].key, |b|) < n
    ensures DistinctKeys(Entries(b[..n]))
    ensures forall k :: MapGet(MapOf(Entries(b[..n])), k) == if Index(k, |b|) < n then Lookup(b, k) else None
  {
    hide Index;
    if n > 0 {
      PrefixEntries(b, n - 1);
      assert b[..n][..n - 1] == b[..n - 1];
      var front, c := Entries(b[..n - 1]), b[n - 1];
      assert Entries(b[..n]) == front + c;
      JoinChain(front, c, n - 1, |b|);
      MapOfConcat(front, c);
      forall k ensures MapGet(MapOf(front + c), k) == if Index(k, |b|) < n then Lookup(b, k) else None {
        ChainMap(c, k);
      }
    }
  }

  /** The chain of bucket n behind the entries of the buckets before it. */
  lemma JoinChain<V>(front: seq<Entry<V>>, c: Chain<V>, n: nat, size: nat)
    requires size > 1 && DistinctKeys(front) && DistinctKeys(c)
    requires forall i :: 0 <= i < |front| ==> Index(front[i].key, size) < n
    requires forall i :: 0 <= i < |c| ==> Index(c[i].key, size) == n
    ensures DistinctKeys(front + c)
    ensures forall i :: 0 <= i < |front + c| ==> Index((front + c)[i].key, size) < n + 1
  {
    hide Index;
  }

  lemma {:induction false} ChainMap<V>(c: Chain<V>, k: string)
    requires DistinctKeys(c)
    ensures var i := Find(c, k); MapGet(MapOf(c), k) == if i < |c| then Some(c[i].value) else None
  {
    if c != [] {
      var front, last := c[..|c| - 1], c[|c| - 1];
      ChainMap(front, k);
      FindFront(c, k);
    }
  }

  lemma FindFront<V>(c: Chain<V>, k: string)
    requires DistinctKeys(c) && c != []
    ensures var front := c[..|c| - 1]; var i := Find(front, k);
            if i < |front| then Find(c, k) == i
            else Find(c, k) == if c[|c| - 1].key == k then |c| - 1 else |c|
  {
    var front := c[..|c| - 1];
    var i, p := Find(front, k), Find(c, k);
    if i < |front| {
      assert c[i] == front[i];
    }
    if p < |front| {
      assert front[p] == c[p];
    }
  }

  lemma {:induction false} MapOfConcat<V>(s: seq<Entry<V>>, t: seq<Entry<V>>)
    ensures MapOf(s + t) == MapOf(s) + MapOf(t)
  {
    if t == [] {
      assert s + t == s;
      assert MapOf(s) + map[] == MapOf(s);
    } else {
      var front, e := t[..|t| - 1], t[|t| - 1];
      MapOfConcat(s, front);
      assert (s + t)[..|s + t| - 1] == s + front && (s + t)[|s + t| - 1] == e;
      assert MapOf(s + t) == MapOf(s + front)[e.key := e.value];
    }
  }

  /** The half-torn-down state: with `done` moved and `rest` still in the old nodes, the new
      table represents `done` exactly, the two parts share no key, together they are the
      original map, and the next insertion finds no entry to replace. */
  lemma TornDown<V>(b: Chains<V>, ks: seq<string>, m: map<string, V>, done: seq<Entry<V>>, rest: seq<Entry<V>>)
    requires Refines(b, ks, m) && done + rest == Entries(b)
    ensures var table := PutAll(Empty(2 * |b|), done);
            && Refines(table, Keys(done), MapOf(done))
            && MapOf(done).Keys !! MapOf(rest).Keys
            && MapOf(done) + MapOf(rest) == m
            && (rest != [] ==> Lookup(table, rest[0].key) == None)
  {
    var es := Entries(b);
    assert b[..|b|] == b;
    PrefixEntries(b, |b|);
    assert DistinctKeys(done) by {
      assert forall i :: 0 <= i < |done| ==> done[i] == es[i];
    }
    PutAllRefines(2 * |b|, done);
    forall i, j | 0 <= i < |done| && 0 <= j < |rest| ensures done[i].key != rest[j].key {
      assert es[i] == done[i] && es[|done| + j] == rest[j];
    }
    MapOfConcat(done, rest);
    MapsEqual(MapOf(es), m, b);
    forall k | k in MapOf(rest) ensures k !in MapOf(done) {
      MapOfKeys(rest, k);
      MapOfKeys(done, k);
    }
    if rest != [] {
      MapOfKeys(rest, rest[0].key);
      assert Lookup(PutAll(Empty(2 * |b|), done), rest[0].key) == MapGet(MapOf(done), rest[0].key);
    }
  }

  lemma MapsEqual<V>(m: map<string, V>, m': map<string, V>, b: Chains<V>)
    requires |b| > 1
    requires forall k :: MapGet(m, k) == Lookup(b, k)
    requires forall k :: Lookup(b, k) == MapGet(m', k)
    ensures m == m'
  {
    forall k ensures MapGet(m, k) == MapGet(m', k) {
    }
    forall k ensures k in m <==> k in m' {
      assert MapGet(m, k) == MapGet(m', k);
    }
    forall k | k in m ensures m[k] == m'[k] {
      assert MapGet(m, k) == MapGet(m', k);
    }
  }

  /** Rehashing keeps the map; the new key list is the old buckets' keys in bucket order,
      and one node is moved per key. */
  lemma RehashRefines<V>(b: Chains<V>, ks: seq<string>, m: map<string, V>)
    requires Refines(b, ks, m)
    ensures Refines(Rehash(b), Keys(Entries(b)), m)
    ensures |Entries(b)| == |m|
  {
    hide Refines, PutAll, Entries;
    KeyCount(b, ks, m);
    var es := Entries(b);
    assert es + [] == es;
    TornDown(b, ks, m, es, []);
    assert MapOf(es) + map[] == MapOf(es);
    KeyCount(Rehash(b), Keys(es), m);
  }

  lemma KeyCount<V>(b: Chains<V>, ks: seq<string>, m: map<string, V>)
    requires Refines(b, ks, m)
    ensures |ks| == |m| && |b| > 1
  {
  }

  lemma PutAllOneMore<V>(n: nat, es: seq<Entry<V>>, e: Entry<V>)
    requires n > 1
    ensures PutAll(Empty(n), es + [e]) == Put(PutAll(Empty(n), es), e)
    ensures Keys(es + [e]) == Keys(es) + [e.key]
  {
    assert (es + [e])[..|es + [e]| - 1] == es;
  }

  lemma TakeOneMore<T>(done: seq<T>, es: seq<T>, k: nat)
    requires k < |es|
    ensures done + es[..k + 1] == (done + es[..k]) + [es[k]]
  {
  }

  /** Moving `es` after `done`, no insertion finds its key already present. */
  ghost predicate AllNew<V>(n: nat, done: seq<Entry<V>>, es: seq<Entry<V>>)
    requires n > 1
  {
    forall k :: 0 <= k < |es| ==> Lookup(PutAll(Empty(n), done + es[..k]), es[k].key) == None
  }

  /** During a rehash every chain is new to the table built so far. */
  lemma ChainIsNew<V>(b: Chains<V>, ks: seq<string>, m: map<string, V>, i: nat)
    requires Refines(b, ks, m) && i < |b|
    ensures AllNew(2 * |b|, Entries(b[..i]), b[i])
    ensures Entries(b[..i + 1]) == Entries(b[..i]) + b[i]
  {
    var done, es := Entries(b[..i]), b[i];
    assert b[..i + 1][..i] == b[..i];
    var rest := EntriesSuffix(b, i + 1);
    hide PutAll, Empty, Entries, Lookup, Refines;
    forall k | 0 <= k < |es| ensures Lookup(PutAll(Empty(2 * |b|), done + es[..k]), es[k].key) == None {
      EntryIsNew(b, ks, m, done, es, rest, k);
    }
  }

  lemma EntryIsNew<V>(b: Chains<V>, ks: seq<string>, m: map<string, V>,
                      done: seq<Entry<V>>, es: seq<Entry<V>>, rest: seq<Entry<V>>, k: nat)
    requires Refines(b, ks, m) && k < |es| && Entries(b) == done + es + rest
    ensures Lookup(PutAll(Empty(2 * |b|), done + es[..k]), es[k].key) == None
  {
    hide *;
    assert es == es[..k] + es[k..];
    assert (done + es[..k]) + (es[k..] + rest) == Entries(b);
    TornDown(b, ks, m, done + es[..k], es[k..] + rest);
    assert (es[k..] + rest)[0] == es[k];
  }

  ghost predicate AllChainsNew<V>(b: Chains<V>) {
    forall i :: 0 <= i < |b| ==>
      AllNew(2 * |b|, Entries(b[..i]), b[i]) && Entries(b[..i + 1]) == Entries(b[..i]) + b[i]
  }

  lemma NextChainIsNew<V>(b: Chains<V>, i: nat)
    requires AllChainsNew(b) && i < |b|
    ensures AllNew(2 * |b|, Entries(b[..i]), b[i])
    ensures Entries(b[..i + 1]) == Entries(b[..i]) + b[i]
  {
  }

  lemma AllNewToRehash<V>(b: Chains<V>, ks: seq<string>, m: map<string, V>)
    requires Refines(b, ks, m)
    ensures AllChainsNew(b)
  {
    forall i | 0 <= i < |b|
      ensures AllNew(2 * |b|, Entries(b[..i]), b[i]) && Entries(b[..i + 1]) == Entries(b[..i]) + b[i]
    {
      ChainIsNew(b, ks, m, i);
    }
  }

  lemma {:induction false} EntriesSuffix<V>(b: Chains<V>, i: nat) returns (rest: seq<Entry<V>>)
    requires i <= |b|
    ensures Entries(b) == Entries(b[..i]) + rest
  {
    if i == |b| {
      assert b[..i] == b;
      rest := [];
    } else {
      rest := EntriesSuffix(b[..|b| - 1], i);
      assert b[..|b| - 1][..i] == b[..i];
      rest := rest + b[|b| - 1];
    }
  }

  // ----- The whole table: growth and its account -----

  const INITIAL_SIZE: nat := 32

  /** The chains, the key list, how often the table has doubled, and how many nodes all
      rehashes together have moved. */
  datatype Table<V> = Table(buckets: Chains<V>, keys: seq<string>, doublings: nat, moved: nat) {

    /** Over half full, the table is rebuilt at twice the size. */
    function Grow(): Table<V>
      requires |buckets| > 1
    {
      if |keys| <= |buckets| / 2 then this
      else Table(Rehash(buckets), Keys(Entries(buckets)), doublings + 1, moved + |Entries(buckets)|)
    }

    function Insert(key: string, value: V): Table<V>
      requires |buckets| > 1
    {
      this.(buckets := Put(buckets, Entry(key, value)), keys := KeysAfter(keys, key, Lookup(buckets, key).None?))
    }

    function Set(key: string, value: V): Table<V>
      requires |buckets| > 1
    {
      Grow().Insert(key, value)
    }

    /** The table represents `m`, and its growth is exactly accounted for: the size is 32 doubled
        `doublings` times, the table is at most half full plus one and, once grown, more than a
        quarter full, and the moved nodes add up. */
    ghost predicate Sound(m: map<string, V>) {
      && Refines(buckets, keys, m)
      && Account(|m|, |buckets|, doublings, moved)
    }
  }

  function InitialTable<V>(): Table<V> {
    Table(Empty(INITIAL_SIZE), [], 0, 0)
  }

  ghost predicate Account(size: nat, maxSize: nat, k: nat, moved: nat) {
    && TableSize(maxSize, k)
    && size <= maxSize / 2 + 1
    && (maxSize == 32 || size > maxSize / 4)
    && moved == (maxSize - 32) / 2 + k
  }

  lemma AccountDoubles(size: nat, maxSize: nat, k: nat, moved: nat)
    requires Account(size, maxSize, k, moved) && size > maxSize / 2
    ensures Account(size, 2 * maxSize, k + 1, moved + size)
  {
    hide TableSize;
    var half := SizeDoubles(maxSize, k);
  }

  lemma SizeDoubles(maxSize: nat, k: nat) returns (half: nat)
    requires TableSize(maxSize, k)
    ensures half >= 16 && maxSize == 2 * half && TableSize(2 * maxSize, k + 1)
  {
    var p := Pow2(k);
    assert Pow2(k + 1) == 2 * p;
    half := 16 * p;
  }

  /** Amortisation: all rehashes together moved fewer than three nodes per key. */
  lemma MovedIsLinear(size: nat, maxSize: nat, k: nat, moved: nat)
    requires Account(size, maxSize, k, moved) && k >= 1
    ensures moved < 3 * size
  {
  }

  lemma InitialTableSound<V>()
    ensures InitialTable<V>().Sound(map[])
  {
    EmptyRefines<V>(INITIAL_SIZE);
  }

  /** Growing keeps the map; a table that grew lists its keys in the old bucket order. */
  lemma GrowSound<V>(t: Table<V>, m: map<string, V>)
    requires t.Sound(m)
    ensures t.Grow().Sound(m) && |m| <= |t.Grow().buckets| / 2
    ensures |m| > |t.buckets| / 2 ==> t.Grow().moved == t.moved + |m|
  {
    if |t.keys| > |t.buckets| / 2 {
      RehashRefines(t.buckets, t.keys, m);
      AccountDoubles(|m|, |t.buckets|, t.doublings, t.moved);
    }
  }

  const INT_MAX := 0x7fff_ffff

  lemma PowerOf26()
    ensures Pow2(26) == 0x400_0000
  {
    assert Pow2(6) == 64;
    Pow2Add(6, 7);
    Pow2Add(13, 13);
    assert Pow2(7) == 128;
  }

  /** A table size within `int` is at most 2^30. */
  lemma SizeWithinInt(size: nat, k: nat)
    requires TableSize(size, k) && size <= INT_MAX
    ensures size <= 0x4000_0000
  {
    PowerOf26();
    if k >= 26 {
      Pow2Monotone(26, k);
    } else {
      Pow2Monotone(k, 25);
      assert Pow2(26) == 2 * Pow2(25);
    }
  }

  /** The loops of the rehash count up to the new size in an `int`. They can, exactly as long as the
      map has at most 2^29 keys. */
  lemma LoopsFitInt<V>(t: Table<V>, m: map<string, V>)
    requires t.Sound(m)
    ensures |t.Grow().buckets| <= INT_MAX <==> |m| <= 0x2000_0000
  {
    hide Refines, Table.Grow;
    GrowSound(t, m);
    var size := |t.Grow().buckets|;
    if size <= INT_MAX {
      SizeWithinInt(size, t.Grow().doublings);
    } else {
      assert |m| > size / 4;
    }
  }

  /** The entries that hash to a bucket, in their order. */
  function WithHash<V>(es: seq<Entry<V>>, n: nat, h: nat): seq<Entry<V>>
    requires n > 1
  {
    if es == [] then []
    else
      var last := es[|es| - 1];
      WithHash(es[..|es| - 1], n, h) + if Index(last.key, n) == h then [last] else []
  }

  lemma {:induction false} WithHashFrom<V>(es: seq<Entry<V>>, n: nat, h: nat, j: nat)
    requires n > 1 && j < |WithHash(es, n, h)|
    ensures exists i :: 0 <= i < |es| && es[i] == WithHash(es, n, h)[j]
  {
    hide Index;
    var front := es[..|es| - 1];
    if j < |WithHash(front, n, h)| {
      WithHashFrom(front, n, h, j);
      var i :| 0 <= i < |front| && front[i] == WithHash(front, n, h)[j];
      assert es[i] == front[i];
    }
  }

  /** A new table's chains list the inserted entries in the order of their insertion. */
  lemma {:induction false} ChainsInOrder<V>(n: nat, es: seq<Entry<V>>, h: nat)
    requires h < n && n > 1 && DistinctKeys(es)
    ensures PutAll(Empty(n), es)[h] == WithHash(es, n, h)
  {
    hide Index;
    if es != [] {
      var front, last := es[..|es| - 1], es[|es| - 1];
      ChainsInOrder(n, front, h);
      NewInChain(front, last.key, n, h);
    }
  }

  lemma NewInChain<V>(es: seq<Entry<V>>, key: string, n: nat, h: nat)
    requires n > 1 && forall i :: 0 <= i < |es| ==> es[i].key != key
    ensures Find(WithHash(es, n, h), key) == |WithHash(es, n, h)|
  {
    hide Index;
    var c := WithHash(es, n, h);
    var j := Find(c, key);
    if j < |c| {
      WithHashFrom(es, n, h, j);
    }
  }

  /** A set puts a new key at the end of the key list; otherwise it leaves the list as it is or, if the
      table had to grow, as the old buckets have it. */
  lemma KeysInOrder<V>(t: Table<V>, m: map<string, V>, key: string, value: V)
    requires t.Sound(m)
    ensures var before := if |m| > |t.buckets| / 2 then Keys(Entries(t.buckets)) else t.keys;
            t.Set(key, value).keys == before + if key in m then [] else [key]
  {
    hide Index;
    GrowSound(t, m);
    InsertSound(t.Grow(), m, key, value);
    assert Lookup(t.Grow().buckets, key) == MapGet(m, key);
  }

  lemma InsertSound<V>(t: Table<V>, m: map<string, V>, key: string, value: V)
    requires t.Sound(m) && |m| <= |t.buckets| / 2
    ensures |t.buckets| > 1
    ensures var t' := t.Insert(key, value);
            && t'.buckets == Put(t.buckets, Entry(key, value))
            && t'.keys == KeysAfter(t.keys, key, Lookup(t.buckets, key) == None)
            && t'.Sound(m[key := value])
            && |m[key := value]| == if Lookup(t.buckets, key) == None then |m| + 1 else |m|
  {
    PutRefines(t.buckets, t.keys, m, Entry(key, value));
  }

  /** Setting a key changes the represented map there and nowhere else, whether or not the
      table had to grow. */
  lemma SetSound<V>(t: Table<V>, m: map<string, V>, key: string, value: V)
    requires t.Sound(m)
    ensures t.Set(key, value).Sound(m[key := value])
  {
    GrowSound(t, m);
    InsertSound(t.Grow(), m, key, value);
  }

  /** Any run of sets from a new table refines the map those sets build. */
  function RunSets<V>(es: seq<Entry<V>>): (t: Table<V>)
    ensures |t.buckets| > 1
  {
    if es == [] then InitialTable()
    else RunSets(es[..|es| - 1]).Set(es[|es| - 1].key, es[|es| - 1].value)
  }

  lemma {:induction false} RunRefines<V>(es: seq<Entry<V>>)
    ensures RunSets(es).Sound(MapOf(es))
  {
    if es == [] {
      InitialTableSound<V>();
    } else {
      RunRefines(es[..|es| - 1]);
      SetSound(RunSets(es[..|es| - 1]), MapOf(es[..|es| - 1]), es[|es| - 1].key, es[|es| - 1].value);
    }
  }

  /** The value most recently set for the key. */
  function LastSet<V>(es: seq<Entry<V>>, key: string): Option<V> {
    if es == [] then None
    else if es[|es| - 1].key == key then Some(es[|es| - 1].value)
    else LastSet(es[..|es| - 1], key)
  }

  lemma {:induction false} MapOfGivesLast<V>(es: seq<Entry<V>>, key: string)
    ensures MapGet(MapOf(es), key) == LastSet(es, key)
  {
    if es != [] {
      MapOfGivesLast(es[..|es| - 1], key);
    }
  }

  /** After any run of sets a lookup gives the value last set for the key, or nothing. */
  lemma RunReturnsLast<V>(es: seq<Entry<V>>, key: string)
    ensures Lookup(RunSets(es).buckets, key) == LastSet(es, key)
  {
    RunRefines(es);
    MapOfGivesLast(es, key);
    assert Lookup(RunSets(es).buckets, key) == MapGet(MapOf(es), key);
  }

  /** Over any run of sets growth is amortised: the nodes moved so far are given exactly by the
      table's size, and are fewer than three per key. */
  lemma RunIsAmortised<V>(es: seq<Entry<V>>)
    ensures var t, n := RunSets(es), |MapOf(es)|;
            && |t.buckets| == 32 * Pow2(t.doublings)
            && n <= |t.buckets| / 2 + 1
            && (t.doublings >= 1 ==> n > |t.buckets| / 4)
            && t.moved == (|t.buckets| - 32) / 2 + t.doublings
            && (t.doublings >= 1 ==> t.moved < 3 * n)
  {
    hide Refines, Rehash;
    RunRefines(es);
    var t := RunSets(es);
    if t.doublings >= 1 {
      MovedIsLinear(|MapOf(es)|, |t.buckets|, t.doublings, t.moved);
    }
  }
}
