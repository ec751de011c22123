/**
  The hash table of lib/prom/src/prom_map.c: an array of chains, a key list for iteration,
  and a doubling rehash. A stored NULL pointer is the value `None`.
  */
module Maps {
  import opened Prelude
  import opened Hashing
  import opened Tables
  import opened LinkedLists

  type Item<V> = Entry<Option<V>>

  /** The chain stands in `list`, and its nodes are among `repr`. */
  ghost predicate ChainAt<V>(list: LinkedList?<Item<V>>, chain: Chain<Option<V>>, repr: set<object>)
    reads repr
  {
    list != null && list in repr && list.Repr <= repr && list.Valid() && list.items == chain
  }

  /** The array and the key list hold the table `b` and the keys `ks`, in separate objects. */
  ghost predicate TableAt<V>(addrs: array<LinkedList?<Item<V>>>, keys: LinkedList<string>, repr: set<object>,
                             b: Chains<Option<V>>, ks: seq<string>)
    reads repr
  {
    && addrs in repr && keys in repr && keys.Repr <= repr && addrs !in keys.Repr
    && keys.Valid() && keys.items == ks
    && addrs.Length == |b|
    && (forall i {:trigger addrs[i]} :: 0 <= i < |b| ==> ChainAt(addrs[i], b[i], repr))
    && (forall i {:trigger addrs[i].Repr} :: 0 <= i < |b| ==> addrs !in addrs[i].Repr && addrs[i].Repr !! keys.Repr)
    && (forall i, j {:trigger addrs[i].Repr, addrs[j].Repr} :: 0 <= i < j < |b| ==> addrs[i].Repr !! addrs[j].Repr)
  }

  /** The walk along a chain that get and set share. */
  method Scan<V>(list: LinkedList<Item<V>>, key: string) returns (node: Node?<Item<V>>, ghost k: nat)
    requires list.Valid()
    ensures node == list.NodeAt(list.spine, Find(list.items, key))
    ensures k == Find(list.items, key)
  {
    node, k := list.head, 0;
    while node != null && node.item.key != key
      invariant k <= |list.spine| && node == list.NodeAt(list.spine, k)
      invariant forall j :: 0 <= j < k ==> list.items[j].key != key
      decreases |list.spine| - k
    {
      node := node.next;
      k := k + 1;
    }
  }

  /** The replacing branch of prom_map_set_internal. */
  method ReplaceIn<V>(node: Node<Item<V>>, entry: Item<V>, index: nat, ghost k: nat,
                      keys: LinkedList<string>, addrs: array<LinkedList?<Item<V>>>,
                      ghost repr: set<object>, ghost b: Chains<Option<V>>, ghost ks: seq<string>)
    requires index < |b| && k < |b[index]| && TableAt(addrs, keys, repr, b, ks)
    requires node == addrs[index].NodeAt(addrs[index].spine, k)
    modifies addrs[index].Repr
    ensures TableAt(addrs, keys, repr, b[index := b[index][k := entry]], ks)
  {
    addrs[index].Replace(node, entry, k);
  }

  /** The appending branch of prom_map_set_internal. */
  method AppendTo<V>(list: LinkedList<Item<V>>, entry: Item<V>, index: nat,
                     keys: LinkedList<string>, addrs: array<LinkedList?<Item<V>>>,
                     ghost repr: set<object>, ghost b: Chains<Option<V>>, ghost ks: seq<string>)
    returns (ghost repr': set<object>)
    requires index < |b| && TableAt(addrs, keys, repr, b, ks) && list == addrs[index]
    modifies list.Repr, keys.Repr
    ensures repr <= repr' && fresh(repr' - repr)
    ensures TableAt(addrs, keys, repr', b[index := b[index] + [entry]], ks + [entry.key])
  {
    list.Append(entry);
    keys.Append(entry.key);
    repr' := repr + list.Repr + keys.Repr;
  }

  /** prom_map_set_internal: replace in place, or append to the chain and to the key list. */
  method SetInternal<V>(key: string, value: Option<V>, size: nat, maxSize: nat, keys: LinkedList<string>,
                        addrs: array<LinkedList?<Item<V>>>, ghost repr: set<object>,
                        ghost b: Chains<Option<V>>, ghost ks: seq<string>)
    returns (newSize: nat, ghost repr': set<object>)
    requires maxSize == |b| > 1 && TableAt(addrs, keys, repr, b, ks)
    modifies repr
    ensures repr <= repr' && fresh(repr' - repr)
    ensures TableAt(addrs, keys, repr', Put(b, Entry(key, value)), KeysAfter(ks, key, Lookup(b, key) == None))
    ensures newSize == if Lookup(b, key) == None then size + 1 else size
  {
    var entry := Entry(key, value);
    var index := GetIndex(key, maxSize);
    var list: LinkedList<Item<V>> := addrs[index];
    var node, k := Scan(list, key);
    if node != null {
      ReplaceIn(node, entry, index, k, keys, addrs, repr, b, ks);
      return size, repr;
    }
    newSize := size + 1;
    repr' := AppendTo(list, entry, index, keys, addrs, repr, b, ks);
  }

  method NewTable<V>(n: nat)
    returns (keys: LinkedList<string>, addrs: array<LinkedList?<Item<V>>>, ghost repr: set<object>)
    ensures fresh(repr) && TableAt(addrs, keys, repr, Empty(n), [])
  {
    addrs, repr := NewChains(n);
    keys := new LinkedList((a, b) => a == b);
    repr := repr + keys.Repr;
  }

  method NewChains<V>(n: nat) returns (addrs: array<LinkedList?<Item<V>>>, ghost repr: set<object>)
    ensures fresh(repr) && addrs in repr && addrs.Length == n
    ensures forall i :: 0 <= i < n ==> ChainAt(addrs[i], [], repr)
    ensures forall i :: 0 <= i < n ==> addrs[i] != null && addrs !in addrs[i].Repr
    ensures forall i, j :: 0 <= i < j < n ==> addrs[i].Repr !! addrs[j].Repr
  {
    addrs := new LinkedList?<Item<V>>[n];
    repr := {addrs};
    for i := 0 to n
      invariant fresh(repr) && addrs in repr
      invariant forall j :: 0 <= j < i ==> ChainAt(addrs[j], [], repr) && addrs !in addrs[j].Repr
      invariant forall j, l :: 0 <= j < l < i ==> addrs[j].Repr !! addrs[l].Repr
    {
      var list := new LinkedList<Item<V>>((a: Item<V>, b: Item<V>) => a.key == b.key);
      addrs[i] := list;
      repr := repr + list.Repr;
    }
  }

  /** The inner loop of the rehash: every node of one old chain goes into the new table. As no
      insertion finds its key there (`AllNew`), each one appends to the chain and the key list. */
  method MoveChain<V>(list: LinkedList<Item<V>>, size: nat, maxSize: nat, keys: LinkedList<string>,
                      addrs: array<LinkedList?<Item<V>>>, ghost repr: set<object>, ghost done: Chain<Option<V>>)
    returns (newSize: nat, ghost repr': set<object>)
    requires list.Valid() && list.Repr !! repr
    requires maxSize > 1 && AllNew(maxSize, done, list.items)
    requires TableAt(addrs, keys, repr, PutAll(Empty(maxSize), done), Keys(done))
    modifies repr
    ensures repr <= repr' && fresh(repr' - repr) && newSize == size + |list.items|
    ensures TableAt(addrs, keys, repr', PutAll(Empty(maxSize), done + list.items), Keys(done + list.items))
  {
    hide TableAt, PutAll, Keys;
    newSize, repr' := size, repr;
    var node := list.head;
    ghost var k: nat, es := 0, list.items;
    assert done + es[..0] == done;
    while node != null
      invariant list.Valid() && list.items == es && list.Repr !! repr'
      invariant k <= |es| && node == list.NodeAt(list.spine, k) && newSize == size + k
      invariant repr <= repr' && fresh(repr' - repr)
      invariant TableAt(addrs, keys, repr', PutAll(Empty(maxSize), done + es[..k]), Keys(done + es[..k]))
      decreases |es| - k
    {
      TakeOneMore(done, es, k);
      newSize, repr' := MoveNode(node.item, newSize, maxSize, keys, addrs, repr', done + es[..k]);
      node, k := node.next, k + 1;
    }
    assert es[..k] == es;
  }

  method MoveNode<V>(entry: Item<V>, size: nat, maxSize: nat, keys: LinkedList<string>,
                     addrs: array<LinkedList?<Item<V>>>, ghost repr: set<object>, ghost done: Chain<Option<V>>)
    returns (newSize: nat, ghost repr': set<object>)
    requires maxSize > 1 && Lookup(PutAll(Empty(maxSize), done), entry.key) == None
    requires TableAt(addrs, keys, repr, PutAll(Empty(maxSize), done), Keys(done))
    modifies repr
    ensures repr <= repr' && fresh(repr' - repr) && newSize == size + 1
    ensures TableAt(addrs, keys, repr', PutAll(Empty(maxSize), done + [entry]), Keys(done + [entry]))
  {
    newSize, repr' := SetInternal(entry.key, entry.value, size, maxSize, keys, addrs, repr,
                                  PutAll(Empty(maxSize), done), Keys(done));
    PutAllOneMore(maxSize, done, entry);
  }

  /** The chains from `from` on still stand in their slots, away from the array and from `other`. */
  ghost predicate OldChains<V>(addrs: array<LinkedList?<Item<V>>>, b: Chains<Option<V>>, from: nat, other: set<object>)
    reads addrs, set i | 0 <= i < addrs.Length && addrs[i] != null :: addrs[i],
          set i, o | 0 <= i < addrs.Length && addrs[i] != null && o in addrs[i].Repr :: o
  {
    addrs.Length == |b| &&
    forall i {:trigger addrs[i]} :: from <= i < |b| ==>
      addrs[i] != null && addrs[i].Valid() && addrs[i].items == b[i]
      && addrs !in addrs[i].Repr && addrs[i].Repr !! other
  }

  /** The outer loop of the rehash: builds the doubled table chain by chain, clearing each old
      slot behind it, while the map's own fields still point at the table being torn down. */
  method MoveAll<V>(addrs: array<LinkedList?<Item<V>>>, maxSize: nat, ghost b: Chains<Option<V>>)
    returns (newKeys: LinkedList<string>, newAddrs: array<LinkedList?<Item<V>>>,
             newSize: nat, ghost repr: set<object>)
    requires maxSize == |b| > 1 && AllChainsNew(b) && OldChains(addrs, b, 0, {})
    modifies addrs
    ensures fresh(repr) && newSize == |Entries(b)|
    ensures TableAt(newAddrs, newKeys, repr, PutAll(Empty(2 * |b|), Entries(b)), Keys(Entries(b)))
  {
    newKeys, newAddrs, repr := NewTable<V>(2 * maxSize);
    newSize := 0;
    assert Entries(b[..0]) == [] && Keys(Entries(b[..0])) == [];
    assert PutAll(Empty<Option<V>>(2 * |b|), Entries(b[..0])) == Empty(2 * |b|);
    hide PutAll, Keys, Entries, TableAt, AllChainsNew;
    assert OldChains(addrs, b, 0, repr);
    hide OldChains;
    for i := 0 to maxSize
      invariant fresh(repr) && newSize == |Entries(b[..i])|
      invariant OldChains(addrs, b, i, repr)
      invariant TableAt(newAddrs, newKeys, repr, PutAll(Empty(2 * |b|), Entries(b[..i])), Keys(Entries(b[..i])))
    {
      newSize, repr := MoveSlot(addrs, i, newSize, 2 * maxSize, newKeys, newAddrs, repr, b);
    }
    assert b[..maxSize] == b;
  }

  method MoveSlot<V>(addrs: array<LinkedList?<Item<V>>>, i: nat, size: nat, maxSize: nat, keys: LinkedList<string>,
                     newAddrs: array<LinkedList?<Item<V>>>, ghost repr: set<object>, ghost b: Chains<Option<V>>)
    returns (newSize: nat, ghost repr': set<object>)
    requires i < |b| && maxSize == 2 * |b| && AllChainsNew(b) && OldChains(addrs, b, i, repr)
    requires addrs !in repr && size == |Entries(b[..i])|
    requires TableAt(newAddrs, keys, repr, PutAll(Empty(maxSize), Entries(b[..i])), Keys(Entries(b[..i])))
    modifies addrs, repr
    ensures repr <= repr' && fresh(repr' - repr) && newSize == |Entries(b[..i + 1])|
    ensures OldChains(addrs, b, i + 1, repr')
    ensures TableAt(newAddrs, keys, repr', PutAll(Empty(maxSize), Entries(b[..i + 1])), Keys(Entries(b[..i + 1])))
  {
    hide PutAll, Keys, Entries, TableAt, AllChainsNew;
    NextChainIsNew(b, i);
    newSize, repr' := MoveChain(addrs[i], size, maxSize, keys, newAddrs, repr, Entries(b[..i]));
    addrs[i] := null;
  }

  class PromMap<V> {
    var size: nat
    var maxSize: nat
    var keys: LinkedList<string>
    var addrs: array<LinkedList?<Item<V>>>

    ghost var M: map<string, Option<V>>       // the abstract value
    ghost var T: Table<Option<V>>             // the chains and the key list, by content
    ghost var Repr: set<object>               // the objects below the map, without the map itself

    ghost predicate Valid()
      reads this, Repr
    {
      && this !in Repr
      && TableAt(addrs, keys, Repr, T.buckets, T.keys)
      && T.Sound(M)
      && size == |M|
      && maxSize == |T.buckets|
    }

    constructor ()
      ensures Valid() && fresh(Repr)
      ensures M == map[] && T == InitialTable()
    {
      size, maxSize := 0, INITIAL_SIZE;
      M, T := map[], InitialTable();
      InitialTableSound<Option<V>>();
      var newKeys, newAddrs, repr := NewTable<V>(INITIAL_SIZE);
      keys, addrs, Repr := newKeys, newAddrs, repr;
    }

    /** prom_map_get: the value last set, or NULL. */
    method Get(key: string) returns (value: Option<V>)
      requires Valid()
      ensures value == if key in M then M[key] else None
    {
      var index := GetIndex(key, maxSize);
      var list: LinkedList<Item<V>> := addrs[index];
      var node, k := Scan(list, key);
      assert Lookup(T.buckets, key) == MapGet(M, key);
      value := if node != null then node.item.value else None;
    }

    /** prom_map_set: make room, then insert or replace. */
    method Set(key: string, value: Option<V>)
      requires Valid()
      modifies this, Repr
      ensures Valid() && fresh(Repr - old(Repr))
      ensures M == old(M)[key := value] && T == old(T).Set(key, value)
    {
      EnsureSpace();
      Insert(key, value);
    }

    /** The insertion after room has been made. */
    method Insert(key: string, value: Option<V>)
      requires Valid() && size <= maxSize / 2
      modifies this, Repr
      ensures Valid() && fresh(Repr - old(Repr))
      ensures M == old(M)[key := value] && T == old(T).Insert(key, value)
    {
      hide TableAt, Put, Refines, Account, Lookup, KeysAfter, Table.Insert, Table.Sound;
      InsertSound(T, M, key, value);
      ghost var t, m, repr := T.Insert(key, value), M[key := value], Repr;
      var newSize;
      newSize, repr := SetInternal(key, value, size, maxSize, keys, addrs, Repr, T.buckets, T.keys);
      size := newSize;
      T, M, Repr := t, m, repr;
    }

    /** prom_map_ensure_space: over half full, the table is rebuilt at twice the size. */
    method EnsureSpace()
      requires Valid()
      modifies this, Repr
      ensures Valid() && fresh(Repr - old(Repr))
      ensures M == old(M) && T == old(T).Grow() && size <= maxSize / 2
    {
      if size <= maxSize / 2 {
        return;
      }
      GrowSound(T, M);
      AllNewToRehash(T.buckets, T.keys, M);
      var newKeys, newAddrs, newSize, newRepr := MoveAll(addrs, maxSize, T.buckets);
      Install(newKeys, newAddrs, newSize, newRepr, T.Grow());
    }

    /** The end of the rehash: the map's fields are pointed at the new table. */
    method Install(newKeys: LinkedList<string>, newAddrs: array<LinkedList?<Item<V>>>, newSize: nat,
                   ghost newRepr: set<object>, ghost t: Table<Option<V>>)
      requires this !in newRepr && TableAt(newAddrs, newKeys, newRepr, t.buckets, t.keys) && t.Sound(M)
      requires newSize == |M| && |t.buckets| == 2 * maxSize
      modifies this
      ensures Valid() && Repr == newRepr && T == t
      ensures M == old(M) && maxSize == 2 * old(maxSize)
    {
      hide TableAt, Refines, Account;
      size, maxSize, keys, addrs := newSize, maxSize * 2, newKeys, newAddrs;
      T, Repr := t, newRepr;
    }

    /** The key list, by content, holds each key of the map exactly once. */
    lemma KeysListed()
      requires Valid()
      ensures keys.Valid() && keys.items == T.keys && keys in Repr && keys.Repr <= Repr
      ensures Distinct(T.keys) && |T.keys| == size == |M| && forall k :: k in T.keys <==> k in M
    {
      hide LinkedList.Valid;
    }
  }
}
