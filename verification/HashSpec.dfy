/**
 What the hash table means: a dictionary that remembers insertion order, seen as the
 sequence of its items from oldest to newest.
 */
module HashSpec {
  import Bytes

  type Byte = Bytes.Byte
  type Key = seq<Byte>

  /** A key and its data pointer; NULL is zero and is never stored. */
  datatype Item = Item(key: Key, data: nat)

  const NULL := 0

  // ---- The dictionary -----------------------------------------------------

  predicate KeysApart(items: seq<Item>, i: nat, j: nat) { i < j < |items| ==> items[i].key != items[j].key }

  ghost predicate UniqueKeys(items: seq<Item>) {
    forall i: nat, j: nat {:trigger KeysApart(items, i, j)} :: KeysApart(items, i, j)
  }

  predicate HasData(items: seq<Item>, i: nat) { i < |items| ==> items[i].data != NULL }

  /** NULL is nobody's data, so that a lookup can return it for a missing key. */
  ghost predicate AllData(items: seq<Item>) {
    forall i: nat {:trigger HasData(items, i)} :: HasData(items, i)
  }

  /** The position of a key, or the number of items when it is absent. */
  function Find(items: seq<Item>, key: Key): (i: nat)
    ensures i <= |items|
    ensures i < |items| ==> items[i].key == key
    ensures forall j | 0 <= j < i :: items[j].key != key
  {
    if items == [] || items[0].key == key then 0 else 1 + Find(items[1..], key)
  }

  function Lookup(items: seq<Item>, key: Key): nat {
    if Find(items, key) < |items| then items[Find(items, key)].data else NULL
  }

  function Without<T>(s: seq<T>, i: nat): (r: seq<T>)
    requires i < |s|
    ensures |r| == |s| - 1
  {
    s[..i] + s[i + 1..]
  }

  function Removed(items: seq<Item>, key: Key): seq<Item> {
    if Find(items, key) < |items| then Without(items, Find(items, key)) else items
  }

  function Replaced(items: seq<Item>, key: Key, data: nat): seq<Item> {
    if Find(items, key) < |items| then items[Find(items, key) := Item(key, data)] else items
  }

  // ---- It is a plain map --------------------------------------------------

  function AsMap(items: seq<Item>): map<Key, nat> {
    if items == [] then map[]
    else AsMap(items[..|items| - 1])[items[|items| - 1].key := items[|items| - 1].data]
  }

  /** Unique keys sit where `Find` says. */
  lemma {:induction false} FoundAt(items: seq<Item>, i: nat)
    requires UniqueKeys(items) && i < |items|
    ensures Find(items, items[i].key) == i
  {
    assert KeysApart(items, Find(items, items[i].key), i);
  }

  lemma {:induction false} PrefixUnique(items: seq<Item>, n: nat)
    requires UniqueKeys(items) && n <= |items|
    ensures UniqueKeys(items[..n])
  {
    forall i: nat, j: nat
      ensures KeysApart(items[..n], i, j)
    {
      assert KeysApart(items, i, j);
    }
  }

  lemma {:induction false} AppendedUnique(items: seq<Item>, item: Item)
    requires UniqueKeys(items) && Find(items, item.key) == |items|
    ensures UniqueKeys(items + [item])
  {
    forall i: nat, j: nat
      ensures KeysApart(items + [item], i, j)
    {
      assert KeysApart(items, i, j);
    }
  }

  lemma {:induction false} SameKeysUnique(items: seq<Item>, other: seq<Item>)
    requires UniqueKeys(items) && |other| == |items| && forall i | 0 <= i < |items| :: other[i].key == items[i].key
    ensures UniqueKeys(other)
  {
    forall i: nat, j: nat
      ensures KeysApart(other, i, j)
    {
      assert KeysApart(items, i, j);
    }
  }

  /** Membership and value of one key in the map and in the items. */
  ghost predicate SameAt(items: seq<Item>, m: map<Key, nat>, key: Key) {
    && (key in m <==> Find(items, key) < |items|)
    && (key in m ==> m[key] == Lookup(items, key))
  }

  lemma {:induction false} AsMapAt(items: seq<Item>, key: Key)
    requires UniqueKeys(items)
    ensures SameAt(items, AsMap(items), key)
  {
    if items != [] {
      var front, last := items[..|items| - 1], items[|items| - 1];
      PrefixUnique(items, |front|);
      AsMapAt(front, key);
      FoundAt(items, |items| - 1);
      if Find(front, key) < |front| {
        FoundAt(items, Find(front, key));
      }
      if Find(items, key) < |front| {
        FoundAt(front, Find(items, key));
      }
    }
  }

  /** A map that agrees with the items key by key is the map of the items. */
  lemma {:induction false} MapOfItems(items: seq<Item>, m: map<Key, nat>)
    requires UniqueKeys(items) && forall k {:trigger SameAt(items, m, k)} :: SameAt(items, m, k)
    ensures AsMap(items) == m
  {
    forall k
      ensures k in m <==> k in AsMap(items)
      ensures k in m ==> m[k] == AsMap(items)[k]
    {
      AsMapAt(items, k);
      assert SameAt(items, m, k);
    }
  }

  lemma {:induction false} LookupIsMapLookup(items: seq<Item>, key: Key)
    requires UniqueKeys(items)
    ensures Lookup(items, key) == if key in AsMap(items) then AsMap(items)[key] else NULL
  {
    AsMapAt(items, key);
  }

  lemma {:induction false} InsertIsMapUpdate(items: seq<Item>, key: Key, data: nat)
    requires UniqueKeys(items) && Find(items, key) == |items|
    ensures UniqueKeys(items + [Item(key, data)])
    ensures key !in AsMap(items) && AsMap(items + [Item(key, data)]) == AsMap(items)[key := data]
  {
    var longer := items + [Item(key, data)];
    assert longer[..|longer| - 1] == items;
    AppendedUnique(items, Item(key, data));
    AsMapAt(items, key);
  }

  lemma {:induction false} WithoutIndex(items: seq<Item>, p: nat)
    requires UniqueKeys(items) && p < |items|
    ensures UniqueKeys(Without(items, p))
    ensures forall i | 0 <= i < p :: Without(items, p)[i] == items[i]
    ensures forall i | p <= i < |items| - 1 :: Without(items, p)[i] == items[i + 1]
  {
    forall i: nat, j: nat
      ensures KeysApart(Without(items, p), i, j)
    {
      assert KeysApart(items, if i < p then i else i + 1, if j < p then j else j + 1);
    }
  }

  lemma {:induction false} WithoutAt(items: seq<Item>, p: nat, k: Key)
    requires UniqueKeys(items) && p < |items|
    ensures UniqueKeys(Without(items, p))
    ensures k == items[p].key ==> Find(Without(items, p), k) == |Without(items, p)|
    ensures k != items[p].key ==>
              && Find(Without(items, p), k) == (if Find(items, k) < p then Find(items, k) else Find(items, k) - 1)
              && Lookup(Without(items, p), k) == Lookup(items, k)
  {
    var shorter := Without(items, p);
    WithoutIndex(items, p);
    FoundAt(items, p);
    var i, j := Find(items, k), Find(shorter, k);
    if j < |shorter| {
      var j' := if j < p then j else j + 1;
      assert items[j'] == shorter[j];
      FoundAt(items, j');
    }
    if i < |items| && k != items[p].key {
      var i' := if i < p then i else i - 1;
      assert shorter[i'] == items[i];
      FoundAt(shorter, i');
    }
  }

  lemma {:induction false} FindAfterRemove(items: seq<Item>, key: Key, k: Key)
    requires UniqueKeys(items)
    ensures UniqueKeys(Removed(items, key))
    ensures var shorter := Removed(items, key);
            && (Find(shorter, k) < |shorter| <==> k != key && Find(items, k) < |items|)
            && (k != key ==> Lookup(shorter, k) == Lookup(items, k))
  {
    var p := Find(items, key);
    if p < |items| {
      WithoutAt(items, p, k);
    }
  }

  lemma {:induction false} WithoutData(items: seq<Item>, p: nat)
    requires AllData(items) && p < |items|
    ensures AllData(Without(items, p))
  {
    forall i: nat
      ensures HasData(Without(items, p), i)
    {
      assert HasData(items, if i < p then i else i + 1);
    }
  }

  lemma {:induction false} RemoveIsMapRemove(items: seq<Item>, key: Key)
    requires UniqueKeys(items)
    ensures UniqueKeys(Removed(items, key)) && AsMap(Removed(items, key)) == AsMap(items) - {key}
  {
    FindAfterRemove(items, key, key);
    forall k
      ensures SameAt(Removed(items, key), AsMap(items) - {key}, k)
    {
      FindAfterRemove(items, key, k);
      AsMapAt(items, k);
    }
    MapOfItems(Removed(items, key), AsMap(items) - {key});
  }

  lemma {:induction false} FindAfterReplace(items: seq<Item>, key: Key, data: nat, k: Key)
    requires UniqueKeys(items)
    ensures UniqueKeys(Replaced(items, key, data))
    ensures var other := Replaced(items, key, data);
            && Find(other, k) == Find(items, k)
            && Lookup(other, k) == if k == key && Find(items, k) < |items| then data else Lookup(items, k)
  {
    var other := Replaced(items, key, data);
    SameKeysUnique(items, other);
    if Find(other, k) < |other| {
      FoundAt(items, Find(other, k));
    }
    if Find(items, k) < |items| {
      FoundAt(other, Find(items, k));
    }
  }

  lemma {:induction false} ReplaceIsMapUpdate(items: seq<Item>, key: Key, data: nat)
    requires UniqueKeys(items)
    ensures UniqueKeys(Replaced(items, key, data))
    ensures AsMap(Replaced(items, key, data)) == if key in AsMap(items) then AsMap(items)[key := data] else AsMap(items)
  {
    var m := if key in AsMap(items) then AsMap(items)[key := data] else AsMap(items);
    FindAfterReplace(items, key, data, key);
    AsMapAt(items, key);
    forall k
      ensures SameAt(Replaced(items, key, data), m, k)
    {
      FindAfterReplace(items, key, data, k);
      AsMapAt(items, k);
    }
    MapOfItems(Replaced(items, key, data), m);
  }
}
