/**
 The two doubly linked lists that thread through the entries of a hash table: the chain of a
 bucket (pNext, pPrev) and the list of all entries by age (pNewer, pOlder).
 */
module HashLists {
  import opened HashSpec
  import opened HashChains

  class Entry {
    var pNext: Entry?
    var pPrev: Entry?
    const key: Key
    var pData: nat
    var pOlder: Entry?
    var pNewer: Entry?

    /** he_create */
    constructor (key: Key, data: nat)
      ensures this.key == key && pData == data
      ensures pNext == null && pPrev == null && pOlder == null && pNewer == null
    {
      this.key, pData := key, data;
      pNext, pPrev, pOlder, pNewer := null, null, null, null;
    }
  }

  function At(s: seq<Entry>, i: int): Entry? { if 0 <= i < |s| then s[i] else null }

  ghost predicate ChainedAt(s: seq<Entry>, i: nat)
    requires i < |s|
    reads s[i]
  {
    s[i].pNext == At(s, i + 1) && s[i].pPrev == At(s, i - 1)
  }

  /** `s` is a bucket chain, first to last. */
  ghost predicate Chained(s: seq<Entry>)
    reads s
  {
    forall i {:trigger ChainedAt(s, i)} | 0 <= i < |s| :: ChainedAt(s, i)
  }

  ghost predicate AgedAt(s: seq<Entry>, i: nat)
    requires i < |s|
    reads s[i]
  {
    s[i].pNewer == At(s, i + 1) && s[i].pOlder == At(s, i - 1)
  }

  /** `s` is the age list, oldest to newest. */
  ghost predicate Aged(s: seq<Entry>)
    reads s
  {
    forall i {:trigger AgedAt(s, i)} | 0 <= i < |s| :: AgedAt(s, i)
  }

  // ---- Keys ---------------------------------------------------------------

  function KeysOf(s: seq<Entry>): (keys: seq<Key>)
    ensures |keys| == |s| && forall i | 0 <= i < |s| :: keys[i] == s[i].key
  {
    Mapped((e: Entry) => e.key, s)
  }

  /** The entries have the keys of the items, in their order. */
  predicate SameKeys(s: seq<Entry>, n: seq<Item>) {
    |s| == |n| && forall i | 0 <= i < |s| :: s[i].key == n[i].key
  }

  /** A chain and the items it should list stay in step when both get a new first element. */
  lemma {:induction false} SameKeysPrepended(s: seq<Entry>, n: seq<Item>, e: Entry, x: Item)
    requires SameKeys(s, n) && e.key == x.key
    ensures SameKeys([e] + s, [x] + n)
  {
  }

  lemma {:induction false} SameKeysCut(s: seq<Entry>, n: seq<Item>)
    requires SameKeys(s, n) && s != []
    ensures SameKeys(s[..|s| - 1], n[..|n| - 1])
  {
  }

  lemma {:induction false} SameKeysWithout(s: seq<Entry>, n: seq<Item>, i: nat)
    requires SameKeys(s, n) && i < |s|
    ensures SameKeys(Without(s, i), Without(n, i))
  {
  }

  function AllKeysOf(chains: seq<seq<Entry>>): (keys: seq<seq<Key>>)
    ensures |keys| == |chains| && forall b | 0 <= b < |chains| :: keys[b] == KeysOf(chains[b])
  {
    Mapped(KeysOf, chains)
  }

  /** One chain has changed. */
  lemma {:induction false} KeysOfChanged(was: seq<seq<Entry>>, now: seq<seq<Entry>>, b: nat)
    requires b < |now| == |was| && forall c | 0 <= c < |now| && c != b :: now[c] == was[c]
    ensures AllKeysOf(now) == AllKeysOf(was)[b := KeysOf(now[b])]
  {
  }

  lemma {:induction false} KeysSearched(was: seq<seq<Entry>>, now: seq<seq<Entry>>, b: nat, h: Heuristics, key: Key)
    requires b < |now| == |was|
    requires var s := was[b];
             var i := PlaceIn(KeysOf(s), key);
             now == was[b := if i < |s| then Reordered(h, s, i) else s]
    ensures AllKeysOf(now) == AllKeysOf(was)[b := Sought(h, KeysOf(was[b]), key)]
  {
    assert KeysOf(now[b]) == Sought(h, KeysOf(was[b]), key);
    KeysOfChanged(was, now, b);
  }

  lemma {:induction false} KeysDropped(was: seq<seq<Entry>>, now: seq<seq<Entry>>, b: nat, key: Key)
    requires b < |now| == |was|
    requires var s := was[b];
             var i := PlaceIn(KeysOf(s), key);
             now == was[b := if i < |s| then Without(s, i) else s]
    ensures AllKeysOf(now) == AllKeysOf(was)[b := Dropped(KeysOf(was[b]), key)]
  {
    assert KeysOf(now[b]) == Dropped(KeysOf(was[b]), key);
    KeysOfChanged(was, now, b);
  }
}
