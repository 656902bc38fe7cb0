/** The hash table as it is updated in place: buckets of chained entries, and all entries by age. */
module HashTable {
  import opened HashSpec
  import opened HashBuckets
  import opened HashChains
  import opened HashLists
  import opened PowersOfTwo

  datatype Status = Ok | AlreadyInHash | Error

  /** What the bucket's free callback is given when an insert pushes an item out. */
  datatype Evicted = Nothing | Gone(item: Item)

  /** Where an entry sits: position `i` in bucket `b`, position `j` by age. */
  datatype Place = Place(b: nat, i: nat, j: nat)

  function ItemsOf(age: seq<Entry>): (items: seq<Item>)
    reads age
    ensures |items| == |age|
    ensures forall i | 0 <= i < |age| :: items[i] == Item(age[i].key, age[i].pData)
  {
    seq(|age|, i requires 0 <= i < |age| reads age => Item(age[i].key, age[i].pData))
  }

  /** A place in a walk over a table: the current entry and the one to visit next. */
  class Iterator {
    var pEntry: Entry?
    var pNext: Entry?

    constructor () {
      pEntry, pNext := null, null;
    }

    /** The walk is at the `k`-th oldest entry. */
    ghost predicate Current(t: Table, k: nat)
      reads this, t
    {
      pEntry == At(t.age, k) && pNext == At(t.age, k + 1)
    }

    /** ght_first */
    method First(t: Table) returns (data: nat, key: Key)
      requires t.pOldest == At(t.age, 0) && (t.age != [] ==> AgedAt(t.age, 0))
      modifies this
      ensures Current(t, 0)
      ensures if t.age == [] then data == NULL else key == t.age[0].key && data == t.age[0].pData
    {
      pEntry := t.pOldest;
      if pEntry != null {
        pNext := pEntry.pNewer;
        return pEntry.pData, pEntry.key;
      }
      pNext := null;
      return NULL, [];
    }

    /** ght_next; `k` is the age of the entry to visit. */
    method Next(t: Table, ghost k: nat) returns (data: nat, key: Key)
      requires k <= |t.age| && pNext == At(t.age, k) && (k < |t.age| ==> AgedAt(t.age, k))
      modifies this
      ensures Current(t, k)
      ensures if k == |t.age| then data == NULL else key == t.age[k].key && data == t.age[k].pData
    {
      if pNext != null {
        pEntry := pNext;
        pNext := pNext.pNewer;
        return pEntry.pData, pEntry.key;
      }
      pEntry, pNext := null, null;
      return NULL, [];
    }
  }

  /** `size` is the least power of two not below `n`. */
  ghost predicate RoundedUp(size: nat, n: nat) {
    && (exists k: nat :: size == Pow2(k))
    && size >= n && (size == 1 || size / 2 < n)
  }

  method TableSize(n: nat) returns (size: nat, mask: nat)
    ensures RoundedUp(size, n) && mask == size - 1
  {
    var i := 1;
    size := 1;
    while size < n
      invariant i >= 1 && size == Pow2(i - 1) && (size == 1 || size / 2 < n)
      decreases n - size
    {
      size := Pow2(i);
      i := i + 1;
    }
    mask := Pow2(i - 1) - 1;
  }

  class Table {
    const fnHash: Key -> nat
    var iItems: nat
    var iSize: nat
    var iSizeMask: nat
    var ppEntries: array<Entry?>
    var pNr: array<nat>
    var pOldest: Entry?
    var pNewest: Entry?
    var iHeuristics: Heuristics
    var iAutomaticRehash: bool
    var bucketLimit: nat

    /** The chains of all buckets, and all entries from oldest to newest. */
    ghost var chains: seq<seq<Entry>>
    ghost var age: seq<Entry>

    ghost predicate Sized()
      reads this
    {
      && 0 < iSize == |chains| == ppEntries.Length == pNr.Length
      && iSizeMask == iSize - 1
      && (exists k: nat :: iSize == Pow2(k))
    }

    ghost predicate InPlace(b: nat)
      requires Sized() && b < iSize
      reads this
    {
      forall i | 0 <= i < |chains[b]| :: chains[b][i] in age && Slot(fnHash, iSize, chains[b][i].key) == b
    }

    ghost predicate BucketOk(b: nat)
      requires Sized() && b < iSize && InPlace(b)
      reads this, ppEntries, pNr, age
    {
      && Distinct(chains[b])
      && (forall i {:trigger ChainedAt(chains[b], i)} | 0 <= i < |chains[b]| :: ChainedAt(chains[b], i))
      && ppEntries[b] == At(chains[b], 0)
      && pNr[b] == |chains[b]|
    }

    ghost predicate HasPlace(j: nat)
      requires Sized() && j < |age|
      reads this
    {
      age[j] in chains[Slot(fnHash, iSize, age[j].key)]
    }

    ghost predicate AgeOk()
      reads this, age
    {
      && Distinct(age) && Aged(age)
      && pOldest == At(age, 0) && pNewest == At(age, |age| - 1)
    }

    ghost function Items(): seq<Item>
      reads this, age
    {
      ItemsOf(age)
    }

    ghost predicate Valid()
      reads this, ppEntries, pNr, age
    {
      && Sized()
      && (forall b {:trigger InPlace(b)} {:trigger BucketOk(b)} | 0 <= b < iSize :: InPlace(b) && BucketOk(b))
      && (forall j {:trigger HasPlace(j)} | 0 <= j < |age| :: HasPlace(j))
      && AgeOk()
      && UniqueKeys(Items()) && AllData(Items())
      && iItems == |age|
    }

    ghost predicate ChainNewestFirst(b: nat)
      requires Sized() && b < iSize
      reads this, age
    {
      SameKeys(chains[b], Newest(fnHash, iSize, Items(), b))
    }

    /** Every chain lists its entries from newest to oldest, as it does when no heuristic reorders it. */
    ghost predicate NewestFirst()
      requires Sized()
      reads this, age
    {
      forall b {:trigger ChainNewestFirst(b)} | 0 <= b < iSize :: ChainNewestFirst(b)
    }

    /** search_in_bucket, up to the heuristic: the first entry of the chain that has the key. */
    method FindInBucket(b: nat, key: Key) returns (p: Entry?, ghost i: nat)
      requires Valid() && b == Slot(fnHash, iSize, key)
      ensures p != null ==> i < |chains[b]| && p == chains[b][i] && p.key == key
      ensures p == null ==> i == |chains[b]| && forall e | e in chains[b] :: e.key != key
      ensures i == PlaceIn(KeysOf(chains[b]), key)
    {
      assert InPlace(b) && BucketOk(b);
      p, i := ppEntries[b], 0;
      while p != null
        invariant i <= |chains[b]| && p == At(chains[b], i)
        invariant forall k | 0 <= k < i :: chains[b][k].key != key
        decreases |chains[b]| - i
      {
        if p.key == key {
          PlaceIs(KeysOf(chains[b]), key, i);
          return;
        }
        assert ChainedAt(chains[b], i);
        p := p.pNext;
        i := i + 1;
      }
      PlaceIs(KeysOf(chains[b]), key, i);
    }

    /** What finding an entry in its bucket, or not finding one, says about the whole table. */
    lemma {:induction false} FoundMeans(b: nat, key: Key, p: Entry?)
      requires Valid() && b == Slot(fnHash, iSize, key)
      requires p != null ==> p in chains[b] && p.key == key
      requires p == null ==> forall e | e in chains[b] :: e.key != key
      ensures p == null ==> Find(Items(), key) == |age|
      ensures p != null ==> Find(Items(), key) < |age| && age[Find(Items(), key)] == p
    {
      if p == null {
        forall j | 0 <= j < |age|
          ensures Items()[j].key != key
        {
          assert HasPlace(j);
        }
      } else {
        assert InPlace(b);
        var k :| 0 <= k < |age| && age[k] == p;
        FoundAt(Items(), k);
      }
    }

    // ---- Reordering a chain -----------------------------------------------

    /** Who follows the `j`-th entry once the `i`-th has gone to the front. */
    static function NextOfMoved(s: seq<Entry>, i: nat, j: nat): Entry?
      requires 0 < i < |s| && j < |s|
    {
      if j == i then s[0] else if j == i - 1 then At(s, i + 1) else At(s, j + 1)
    }

    static function PrevOfMoved(s: seq<Entry>, i: nat, j: nat): Entry?
      requires 0 < i < |s| && j < |s|
    {
      if j == i then null else if j == 0 then s[i] else if j == i + 1 then s[i - 1] else s[j - 1]
    }

    static lemma {:induction false} MovedIsChained(s: seq<Entry>, i: nat)
      requires 0 < i < |s|
      requires forall j | 0 <= j < |s| :: s[j].pNext == NextOfMoved(s, i, j) && s[j].pPrev == PrevOfMoved(s, i, j)
      ensures Chained(MovedToFront(s, i))
    {
      ghost var r := MovedToFront(s, i);
      forall k | 0 <= k < |r|
        ensures ChainedAt(r, k)
      {
        assert r[k] == s[if k == 0 then i else if k <= i then k - 1 else k];
      }
    }

    /** move_to_front */
    method MoveToFront(b: nat, p: Entry, ghost i: nat, ghost s: seq<Entry>)
      requires b < ppEntries.Length && i < |s| && s[i] == p
      requires Distinct(s) && Chained(s) && ppEntries[b] == s[0]
      modifies ppEntries, s`pNext, s`pPrev
      ensures Chained(MovedToFront(s, i)) && ppEntries[..] == old(ppEntries[..])[b := p]
    {
      assert ChainedAt(s, 0) && ChainedAt(s, i) && Apart(s, 0, i);
      assert (i > 0 ==> ChainedAt(s, i - 1)) && (i + 1 < |s| ==> ChainedAt(s, i + 1));
      if p == ppEntries[b] {
        assert MovedToFront(s, i) == s;
        return;
      }
      p.pPrev.pNext := p.pNext;
      if p.pNext != null {
        p.pNext.pPrev := p.pPrev;
      }
      p.pNext := ppEntries[b];
      p.pPrev := null;
      ppEntries[b].pPrev := p;
      ppEntries[b] := p;
      forall j | 0 <= j < |s|
        ensures s[j].pNext == NextOfMoved(s, i, j) && s[j].pPrev == PrevOfMoved(s, i, j)
      {
        assert old(ChainedAt(s, j)) && Apart(s, j, i - 1) && Apart(s, j, i) && Apart(s, j, i + 1) && Apart(s, j, 0);
      }
      MovedIsChained(s, i);
    }

    /** Who follows the `j`-th entry once the `i`-th has changed places with the one before it. */
    static function NextOfTransposed(s: seq<Entry>, i: nat, j: nat): Entry?
      requires 0 < i < |s| && j < |s|
    {
      if j == i then s[i - 1] else if j == i - 1 then At(s, i + 1) else if j == i - 2 then s[i] else At(s, j + 1)
    }

    static function PrevOfTransposed(s: seq<Entry>, i: nat, j: nat): Entry?
      requires 0 < i < |s| && j < |s|
    {
      if j == i then At(s, i - 2) else if j == i - 1 then s[i] else if j == i + 1 then s[i - 1] else At(s, j - 1)
    }

    static lemma {:induction false} TransposedIsChained(s: seq<Entry>, i: nat)
      requires 0 < i < |s|
      requires forall j | 0 <= j < |s| ::
                 s[j].pNext == NextOfTransposed(s, i, j) && s[j].pPrev == PrevOfTransposed(s, i, j)
      ensures Chained(Transposed(s, i))
    {
      ghost var r := Transposed(s, i);
      forall k | 0 <= k < |r|
        ensures ChainedAt(r, k)
      {
        assert r[k] == s[if k == i - 1 then i else if k == i then i - 1 else k];
      }
    }

    /** The part of transpose that relinks an entry that is not the first. */
    method SwapWithPrevious(b: nat, p: Entry, ghost i: nat, ghost s: seq<Entry>)
      requires b < ppEntries.Length && 0 < i < |s| && s[i] == p
      requires Distinct(s) && Chained(s) && ppEntries[b] == s[0]
      modifies ppEntries, s`pNext, s`pPrev
      ensures forall j | 0 <= j < |s| ::
                s[j].pNext == NextOfTransposed(s, i, j) && s[j].pPrev == PrevOfTransposed(s, i, j)
      ensures ppEntries[..] == old(ppEntries[..])[b := if i == 1 then p else s[0]]
    {
      assert ChainedAt(s, i) && ChainedAt(s, i - 1) && (i + 1 < |s| ==> ChainedAt(s, i + 1));
      assert i > 1 ==> ChainedAt(s, i - 2);
      var x := p.pPrev;
      var a := x.pPrev;
      var y := p.pNext;
      if a != null {
        a.pNext := p;
      } else {
        ppEntries[b] := p;
      }
      if y != null {
        y.pPrev := x;
      }
      x.pNext := p.pNext;
      x.pPrev := p;
      p.pNext := x;
      p.pPrev := a;
      assert Apart(s, i, i - 1) && Apart(s, i, i + 1) && Apart(s, i - 1, i + 1);
      assert i > 1 ==> Apart(s, i - 2, i - 1) && Apart(s, i - 2, i) && Apart(s, i - 2, i + 1);
      assert p.pNext == s[i - 1] && p.pPrev == At(s, i - 2) && x.pNext == At(s, i + 1) && x.pPrev == p;
      assert (i > 1 ==> s[i - 2].pNext == p) && (i + 1 < |s| ==> s[i + 1].pPrev == x);
      forall j | 0 <= j < |s|
        ensures s[j].pNext == NextOfTransposed(s, i, j) && s[j].pPrev == PrevOfTransposed(s, i, j)
      {
        if j < i - 2 || j > i + 1 {
          assert old(ChainedAt(s, j)) && Apart(s, j, i - 1) && Apart(s, j, i) && Apart(s, j, i + 1);
          assert i > 1 ==> Apart(s, j, i - 2);
        }
      }
    }

    /** transpose */
    method Transpose(b: nat, p: Entry, ghost i: nat, ghost s: seq<Entry>)
      requires b < ppEntries.Length && i < |s| && s[i] == p
      requires Distinct(s) && Chained(s) && ppEntries[b] == s[0]
      modifies ppEntries, s`pNext, s`pPrev
      ensures Chained(Transposed(s, i)) && ppEntries[..] == old(ppEntries[..])[b := Transposed(s, i)[0]]
    {
      assert ChainedAt(s, i);
      if p.pPrev != null {
        SwapWithPrevious(b, p, i, s);
        TransposedIsChained(s, i);
      }
    }

    /** Nothing but the chain pointers of the entries of bucket `b` and its head has changed. */
    twostate predicate OnlyChainChanged(b: nat)
      reads this, ppEntries, pNr, age
    {
      && age == old(age) && iSize == old(iSize) && iSizeMask == old(iSizeMask) && iItems == old(iItems)
      && ppEntries == old(ppEntries) && pNr == old(pNr) && pOldest == old(pOldest) && pNewest == old(pNewest)
      && pNr[..] == old(pNr[..])
      && b < ppEntries.Length == old(|chains|)
      && (forall c | 0 <= c < ppEntries.Length && c != b :: ppEntries[c] == old(ppEntries[c]))
      && (forall e | e in age :: e.pNewer == old(e.pNewer) && e.pOlder == old(e.pOlder) && e.pData == old(e.pData))
      && (forall e | e in age && e !in old(chains[b]) :: e.pNext == old(e.pNext) && e.pPrev == old(e.pPrev))
    }

    /** A bucket may be kept in any order: its chain can be replaced by one with the same entries. */
    twostate lemma {:induction false} BucketReordered(b: nat)
      requires old(Valid()) && b < old(iSize) && OnlyChainChanged(b)
      requires |chains| == |old(chains)| && chains == old(chains)[b := chains[b]]
      requires |chains[b]| == |old(chains)[b]| && Distinct(chains[b]) && Chained(chains[b])
      requires ppEntries[b] == At(chains[b], 0)
      requires forall e :: e in chains[b] <==> e in old(chains)[b]
      ensures Valid()
    {
      ghost var s := chains[b];
      forall c | 0 <= c < iSize
        ensures InPlace(c) && BucketOk(c)
      {
        assert old(InPlace(c) && BucketOk(c));
        if c == b {
          forall i | 0 <= i < |s|
            ensures s[i] in age && Slot(fnHash, iSize, s[i].key) == b
          {
            assert s[i] in old(chains)[b];
          }
        } else {
          forall i | 0 <= i < |chains[c]|
            ensures ChainedAt(chains[c], i)
          {
            assert old(ChainedAt(chains[c], i)) && old(InPlace(b));
          }
        }
      }
      forall j | 0 <= j < |age|
        ensures HasPlace(j) && AgedAt(age, j)
      {
        assert old(HasPlace(j)) && old(AgedAt(age, j));
      }
      assert Items() == old(Items());
    }

    // ---- Lookup -----------------------------------------------------------

    method Relink(b: nat, p: Entry, ghost i: nat, ghost s: seq<Entry>, h: Heuristics)
      requires b < ppEntries.Length && i < |s| && s[i] == p
      requires Distinct(s) && Chained(s) && ppEntries[b] == s[0]
      modifies ppEntries, s`pNext, s`pPrev
      ensures Chained(Reordered(h, s, i)) && ppEntries[..] == old(ppEntries[..])[b := Reordered(h, s, i)[0]]
    {
      if h == MoveFoundToFront {
        MoveToFront(b, p, i, s);
      } else if h == TransposeFound {
        Transpose(b, p, i, s);
      }
    }

    method Rearrange(b: nat, p: Entry, ghost i: nat, h: Heuristics)
      requires Valid() && b < iSize && InPlace(b) && BucketOk(b) && i < |chains[b]| && chains[b][i] == p
      modifies this`chains, ppEntries, age`pNext, age`pPrev
      ensures Valid() && chains == old(chains)[b := Reordered(h, old(chains[b]), i)]
      ensures Items() == old(Items())
    {
      ghost var s := chains[b];
      Relink(b, p, i, s, h);
      SameMembers(s, i);
      chains := chains[b := Reordered(h, s, i)];
      BucketReordered(b);
    }

    /** Apply the heuristic to an entry that was found. */
    method Reorder(b: nat, p: Entry, ghost i: nat, h: Heuristics)
      requires Valid() && b < iSize && i < |chains[b]| && chains[b][i] == p
      modifies this`chains, ppEntries, age`pNext, age`pPrev
      ensures Valid() && chains == old(chains)[b := Reordered(h, old(chains[b]), i)]
      ensures Items() == old(Items())
      ensures h == NoHeuristics ==> unchanged(this) && unchanged(ppEntries) && unchanged(age)
    {
      assert InPlace(b) && BucketOk(b);
      if h == NoHeuristics {
        assert chains[b := chains[b]] == chains;
      } else {
        Rearrange(b, p, i, h);
      }
    }

    /** search_in_bucket */
    method SearchInBucket(b: nat, key: Key, h: Heuristics) returns (p: Entry?, ghost i: nat)
      requires Valid() && b == Slot(fnHash, iSize, key)
      modifies this`chains, ppEntries, age`pNext, age`pPrev
      ensures Valid() && Items() == old(Items())
      ensures i == PlaceIn(KeysOf(old(chains[b])), key)
      ensures p == null ==> i == |old(chains[b])| && chains == old(chains) && Find(Items(), key) == |age|
      ensures p != null ==>
                && Find(Items(), key) < |age| && age[Find(Items(), key)] == p
                && i < |old(chains[b])| && old(chains[b])[i] == p
                && chains == old(chains)[b := Reordered(h, old(chains[b]), i)]
      ensures h == NoHeuristics ==> unchanged(this) && unchanged(ppEntries) && unchanged(age)
    {
      p, i := FindInBucket(b, key);
      FoundMeans(b, key, p);
      if p != null {
        Reorder(b, p, i, h);
      }
    }

    /** The masked hash value that the code computes is the bucket index. */
    lemma {:induction false} MaskedIsSlot(key: Key)
      requires Sized()
      ensures BitAnd(fnHash(key), iSizeMask) == Slot(fnHash, iSize, key)
    {
      var k: nat :| iSize == Pow2(k);
      MaskIsModulo(fnHash(key), k);
    }

    /** What a lookup does to the chains: an entry that has the key moves in its own as the heuristic says. */
    twostate predicate Searched(key: Key)
      requires old(Sized())
      reads this
    {
      var b := Slot(fnHash, old(iSize), key);
      var s := old(chains)[b];
      var i := PlaceIn(KeysOf(s), key);
      && |chains| == |old(chains)|
      && chains == old(chains)[b := if i < |s| then Reordered(iHeuristics, s, i) else s]
    }

    /** Chains that stay as they are stay newest first while the keys and their order do. */
    twostate lemma {:induction false} NewestKept()
      requires old(Sized()) && Sized() && iSize == old(iSize) && |age| == |old(age)|
      requires forall k | 0 <= k < |age| :: age[k].key == old(age)[k].key
      ensures chains == old(chains) && old(NewestFirst()) ==> NewestFirst()
    {
      if chains == old(chains) && old(NewestFirst()) {
        forall b | 0 <= b < iSize
          ensures ChainNewestFirst(b)
        {
          assert old(ChainNewestFirst(b));
          NewestByKeys(fnHash, iSize, old(Items()), Items(), b);
        }
      }
    }

    /** ght_get; without a heuristic it writes nothing, so that several threads may look things up at once. */
    method Get(key: Key) returns (data: nat)
      requires Valid()
      modifies this`chains, ppEntries, age`pNext, age`pPrev
      ensures Valid() && Searched(key)
      ensures Items() == old(Items()) && data == Lookup(Items(), key)
      ensures iHeuristics == NoHeuristics ==> unchanged(this) && unchanged(ppEntries) && unchanged(age)
      ensures iHeuristics == NoHeuristics && old(NewestFirst()) ==> NewestFirst()
    {
      var lKey := BitAnd(fnHash(key), iSizeMask);
      MaskedIsSlot(key);
      assert InPlace(lKey);
      var p, i := SearchInBucket(lKey, key, iHeuristics);
      data := if p != null then p.pData else NULL;
      NewestKept();
    }

    twostate lemma {:induction false} DataReplaced(j: nat)
      requires old(Valid()) && j < |age| && age[j].pData != NULL
      requires unchanged(this) && ppEntries[..] == old(ppEntries[..]) && pNr[..] == old(pNr[..])
      requires forall e | e in age ::
                 && e.pNext == old(e.pNext) && e.pPrev == old(e.pPrev) && e.pNewer == old(e.pNewer)
                 && e.pOlder == old(e.pOlder) && (e == age[j] || e.pData == old(e.pData))
      ensures Valid()
    {
      forall c | 0 <= c < iSize
        ensures InPlace(c) && BucketOk(c)
      {
        assert old(InPlace(c) && BucketOk(c));
        forall i | 0 <= i < |chains[c]|
          ensures ChainedAt(chains[c], i)
        {
          assert old(ChainedAt(chains[c], i));
          var k :| 0 <= k < |age| && age[k] == chains[c][i];
        }
      }
      forall k | 0 <= k < |age|
        ensures HasPlace(k) && AgedAt(age, k)
      {
        assert old(HasPlace(k)) && old(AgedAt(age, k));
      }
      SameKeysUnique(old(Items()), Items());
      forall k: nat
        ensures HasData(Items(), k)
      {
        assert old(HasData(Items(), k));
      }
    }

    /** Overwriting the data of an entry changes that item and nothing else. */
    method SetData(p: Entry, data: nat, ghost j: nat)
      requires Valid() && data != NULL && j < |age| && age[j] == p
      modifies p`pData
      ensures Valid() && Items() == old(Items())[j := Item(p.key, data)]
    {
      p.pData := data;
      DataReplaced(j);
      forall k | 0 <= k < |age|
        ensures Items()[k] == old(Items())[j := Item(p.key, data)][k]
      {
        assert Apart(age, k, j);
      }
    }

    /** ght_replace */
    method Replace(key: Key, data: nat) returns (previous: nat)
      requires Valid() && data != NULL
      modifies this`chains, ppEntries, age`pNext, age`pPrev, age`pData
      ensures Valid() && Searched(key)
      ensures previous == old(Lookup(Items(), key)) && Items() == Replaced(old(Items()), key, data)
      ensures iHeuristics == NoHeuristics && old(NewestFirst()) ==> NewestFirst()
    {
      var lKey := BitAnd(fnHash(key), iSizeMask);
      MaskedIsSlot(key);
      assert InPlace(lKey);
      var p, i := SearchInBucket(lKey, key, iHeuristics);
      NewestKept();
      if p == null {
        return NULL;
      }
      previous := p.pData;
      label Found:
      SetData(p, data, Find(Items(), key));
      NewestKept@Found();
    }

    // ---- Creation ---------------------------------------------------------

    /** ght_create: the size is the nearest power of two not below `n`. */
    constructor (hash: Key -> nat, n: nat)
      ensures Valid() && fresh(ppEntries) && fresh(pNr)
      ensures fnHash == hash && age == [] && Items() == [] && forall b | 0 <= b < iSize :: chains[b] == []
      ensures RoundedUp(iSize, n) && NewestFirst()
      ensures iHeuristics == NoHeuristics && !iAutomaticRehash && bucketLimit == 0
    {
      fnHash := hash;
      var size, mask := TableSize(n);
      iItems := 0;
      iSize, iSizeMask := size, mask;
      ppEntries := new Entry?[size](_ => null);
      pNr := new nat[size](_ => 0);
      pOldest, pNewest := null, null;
      iHeuristics, iAutomaticRehash, bucketLimit := NoHeuristics, false, 0;
      chains, age := seq(size, _ => []), [];
    }

    /** Everything but the settings is as it was. */
    twostate lemma {:induction false} SettingsChanged()
      requires old(Valid())
      requires chains == old(chains) && age == old(age) && iItems == old(iItems)
      requires iSize == old(iSize) && iSizeMask == old(iSizeMask)
      requires ppEntries == old(ppEntries) && pNr == old(pNr) && pOldest == old(pOldest) && pNewest == old(pNewest)
      requires unchanged(ppEntries) && unchanged(pNr) && unchanged(age)
      ensures Valid() && (old(NewestFirst()) ==> NewestFirst())
    {
      forall b | 0 <= b < iSize
        ensures InPlace(b) && BucketOk(b)
      {
        assert old(InPlace(b) && BucketOk(b));
      }
      forall j | 0 <= j < |age|
        ensures HasPlace(j)
      {
        assert old(HasPlace(j));
      }
      if old(NewestFirst()) {
        forall b | 0 <= b < iSize
          ensures ChainNewestFirst(b)
        {
          assert old(ChainNewestFirst(b));
        }
      }
    }

    /** ght_set_heuristics, ght_set_rehash, ght_set_bounded_buckets */
    method Configure(heuristics: Heuristics, automaticRehash: bool, limit: nat)
      requires Valid()
      modifies this`iHeuristics, this`iAutomaticRehash, this`bucketLimit
      ensures Valid() && (old(NewestFirst()) ==> NewestFirst())
      ensures iHeuristics == heuristics && iAutomaticRehash == automaticRehash && bucketLimit == limit
    {
      iHeuristics := heuristics;
      iAutomaticRehash := automaticRehash;
      bucketLimit := limit;
      SettingsChanged();
    }

    // ---- Removal ----------------------------------------------------------

    /** remove_from_chain, the bucket half. */
    method Unchain(b: nat, p: Entry, ghost i: nat, ghost s: seq<Entry>)
      requires b < ppEntries.Length && i < |s| && s[i] == p
      requires Distinct(s) && Chained(s) && ppEntries[b] == s[0]
      modifies ppEntries, s`pNext, s`pPrev
      ensures Chained(Without(s, i)) && ppEntries[..] == old(ppEntries[..])[b := At(Without(s, i), 0)]
    {
      assert ChainedAt(s, i) && (i > 0 ==> ChainedAt(s, i - 1)) && (i + 1 < |s| ==> ChainedAt(s, i + 1));
      if p.pPrev != null {
        p.pPrev.pNext := p.pNext;
      } else {
        ppEntries[b] := p.pNext;
      }
      if p.pNext != null {
        p.pNext.pPrev := p.pPrev;
      }
      ghost var r := Without(s, i);
      forall k | 0 <= k < |r|
        ensures ChainedAt(r, k)
      {
        ghost var j := if k < i then k else k + 1;
        assert old(ChainedAt(s, j)) && Apart(s, j, i + 1) && (i > 0 ==> Apart(s, j, i - 1) && Apart(s, i - 1, i + 1));
      }
    }

    /** remove_from_chain, the age half. */
    method Unage(p: Entry, ghost j: nat, ghost a: seq<Entry>)
      requires j < |a| && a[j] == p && Distinct(a) && Aged(a)
      requires pOldest == a[0] && pNewest == a[|a| - 1]
      modifies this`pOldest, this`pNewest, a`pNewer, a`pOlder
      ensures Aged(Without(a, j))
      ensures pOldest == At(Without(a, j), 0) && pNewest == At(Without(a, j), |a| - 2)
    {
      assert AgedAt(a, j) && (j > 0 ==> AgedAt(a, j - 1)) && (j + 1 < |a| ==> AgedAt(a, j + 1));
      if p.pOlder != null {
        p.pOlder.pNewer := p.pNewer;
      } else {
        pOldest := p.pNewer;
      }
      if p.pNewer != null {
        p.pNewer.pOlder := p.pOlder;
      } else {
        pNewest := p.pOlder;
      }
      ghost var r := Without(a, j);
      forall k | 0 <= k < |r|
        ensures AgedAt(r, k)
      {
        ghost var m := if k < j then k else k + 1;
        assert old(AgedAt(a, m)) && Apart(a, m, j + 1) && (j > 0 ==> Apart(a, m, j - 1) && Apart(a, j - 1, j + 1));
      }
    }

    /** remove_from_chain */
    method RemoveFromChain(b: nat, p: Entry, ghost at: Place, ghost s: seq<Entry>, ghost a: seq<Entry>)
      requires b < ppEntries.Length && at.i < |s| && s[at.i] == p && at.j < |a| && a[at.j] == p
      requires Distinct(s) && Chained(s) && ppEntries[b] == s[0]
      requires Distinct(a) && Aged(a) && pOldest == a[0] && pNewest == a[|a| - 1]
      modifies this`pOldest, this`pNewest, ppEntries, s`pNext, s`pPrev, a`pNewer, a`pOlder
      ensures Chained(Without(s, at.i)) && ppEntries[..] == old(ppEntries[..])[b := At(Without(s, at.i), 0)]
      ensures Aged(Without(a, at.j)) && pOldest == At(Without(a, at.j), 0) && pNewest == At(Without(a, at.j), |a| - 2)
    {
      ghost var r := Without(s, at.i);
      Unchain(b, p, at.i, s);
      forall k | 0 <= k < |a|
        ensures AgedAt(a, k)
      {
        assert old(AgedAt(a, k));
      }
      label Unchained:
      Unage(p, at.j, a);
      forall k | 0 <= k < |r|
        ensures ChainedAt(r, k)
      {
        assert old@Unchained(ChainedAt(r, k));
      }
    }

    /** What a removal does to the chains. */
    twostate predicate Unlisted(key: Key)
      requires old(Sized())
      reads this
    {
      var b := Slot(fnHash, old(iSize), key);
      var s := old(chains)[b];
      var i := PlaceIn(KeysOf(s), key);
      && |chains| == |old(chains)|
      && chains == old(chains)[b := if i < |s| then Without(s, i) else s]
    }

    /** ght_remove */
    method Remove(key: Key) returns (data: nat)
      requires Valid()
      modifies this`chains, this`age, this`pOldest, this`pNewest, this`iItems, ppEntries, pNr
      modifies age`pNext, age`pPrev, age`pNewer, age`pOlder
      ensures Valid() && data == old(Lookup(Items(), key)) && Items() == Removed(old(Items()), key)
      ensures Unlisted(key)
      ensures age == if old(Find(Items(), key)) < |old(age)| then Without(old(age), old(Find(Items(), key)))
                     else old(age)
      ensures forall i | 0 <= i < |age| :: age[i] in old(age)
      ensures old(NewestFirst()) ==> NewestFirst()
    {
      var lKey := BitAnd(fnHash(key), iSizeMask);
      MaskedIsSlot(key);
      var p, i := FindInBucket(lKey, key);
      FoundMeans(lKey, key, p);
      if p == null {
        return NULL;
      }
      data := p.pData;
      RemoveFound(lKey, p, i, key);
    }

    /** ght_remove, once the entry is found. */
    method RemoveFound(b: nat, p: Entry, ghost i: nat, ghost key: Key)
      requires Valid() && b < iSize && i < |chains[b]| && chains[b][i] == p
      requires Find(Items(), key) < |age| && age[Find(Items(), key)] == p
      modifies this`chains, this`age, this`pOldest, this`pNewest, this`iItems, ppEntries, pNr
      modifies age`pNext, age`pPrev, age`pNewer, age`pOlder
      ensures Valid() && Items() == Removed(old(Items()), key)
      ensures chains == old(chains)[b := Without(old(chains[b]), i)]
      ensures age == Without(old(age), old(Find(Items(), key)))
      ensures forall k | 0 <= k < |age| :: age[k] in old(age)
      ensures old(NewestFirst()) ==> NewestFirst()
    {
      ghost var j := Find(Items(), key);
      RemoveEntry(b, p, i, j);
    }

    /** Position `i` of bucket `b` and position `j` of the age list were the same entry, now unlinked from both. */
    twostate predicate Unlinked(at: Place)
      reads this, ppEntries, pNr, age
    {
      var Place(b, i, j) := at;
      && b < old(|chains|) && i < |old(chains)[b]| && j < |old(age)| && old(chains)[b][i] == old(age)[j]
      && chains == old(chains)[b := Without(old(chains)[b], i)] && age == Without(old(age), j)
      && iSize == old(iSize) && iSizeMask == old(iSizeMask) && iItems == old(iItems) - 1
      && ppEntries == old(ppEntries) && pNr == old(pNr)
      && b < ppEntries.Length == old(ppEntries.Length) && b < pNr.Length == old(pNr.Length)
      && ppEntries[..] == old(ppEntries[..])[b := At(chains[b], 0)]
      && pNr[..] == old(pNr[..])[b := |chains[b]|]
      && (forall e | e in age :: e.pData == old(e.pData))
      && (forall e | e in age && e !in old(chains)[b] :: e.pNext == old(e.pNext) && e.pPrev == old(e.pPrev))
    }

    /** What ght_remove does to the counts. */
    method CountRemoved(b: nat)
      requires iItems > 0 && b < pNr.Length && pNr[b] > 0
      modifies this`iItems, pNr
      ensures iItems == old(iItems) - 1 && pNr[..] == old(pNr[..])[b := old(pNr[b]) - 1]
    {
      iItems := iItems - 1;
      pNr[b] := pNr[b] - 1;
    }

    /** remove_from_chain and the counts that ght_remove corrects after it. */
    method RemoveAndCount(b: nat, p: Entry, ghost at: Place, ghost s: seq<Entry>, ghost a: seq<Entry>)
      requires b < ppEntries.Length && at.i < |s| && s[at.i] == p && at.j < |a| && a[at.j] == p
      requires Distinct(s) && Chained(s) && ppEntries[b] == s[0]
      requires Distinct(a) && Aged(a) && pOldest == a[0] && pNewest == a[|a| - 1]
      requires iItems > 0 && b < pNr.Length && pNr[b] > 0
      modifies this`pOldest, this`pNewest, this`iItems, ppEntries, pNr
      modifies s`pNext, s`pPrev, a`pNewer, a`pOlder
      ensures Chained(Without(s, at.i)) && ppEntries[..] == old(ppEntries[..])[b := At(Without(s, at.i), 0)]
      ensures Aged(Without(a, at.j)) && pOldest == At(Without(a, at.j), 0) && pNewest == At(Without(a, at.j), |a| - 2)
      ensures iItems == old(iItems) - 1 && pNr[..] == old(pNr[..])[b := old(pNr[b]) - 1]
    {
      RemoveFromChain(b, p, at, s, a);
      CountRemoved(b);
    }

    /** Take one entry out of both lists and out of the counts. */
    method Detach(b: nat, p: Entry, ghost i: nat, ghost j: nat)
      requires b < iSize == |chains| == ppEntries.Length == pNr.Length
      requires Distinct(chains[b]) && Chained(chains[b]) && ppEntries[b] == At(chains[b], 0) && pNr[b] == |chains[b]|
      requires forall k | 0 <= k < |chains[b]| :: chains[b][k] in age
      requires AgeOk() && iItems == |age|
      requires i < |chains[b]| && chains[b][i] == p && j < |age| && age[j] == p
      modifies this`chains, this`age, this`pOldest, this`pNewest, this`iItems, ppEntries, pNr
      modifies age`pNext, age`pPrev, age`pNewer, age`pOlder
      ensures Unlinked(Place(b, i, j))
      ensures Chained(chains[b]) && Aged(age) && pOldest == At(age, 0) && pNewest == At(age, |age| - 1)
    {
      ghost var s, a := chains[b], age;
      WithoutMembers(a, j);
      RemoveAndCount(b, p, Place(b, i, j), s, a);
      chains := chains[b := Without(s, i)];
      age := Without(a, j);
    }

    method RemoveEntry(b: nat, p: Entry, ghost i: nat, ghost j: nat)
      requires Valid() && b < iSize && i < |chains[b]| && chains[b][i] == p && j < |age| && age[j] == p
      modifies this`chains, this`age, this`pOldest, this`pNewest, this`iItems, ppEntries, pNr
      modifies age`pNext, age`pPrev, age`pNewer, age`pOlder
      ensures Valid() && age == Without(old(age), j) && chains == old(chains)[b := Without(old(chains[b]), i)]
      ensures Items() == Without(old(Items()), j)
      ensures old(NewestFirst()) ==> NewestFirst()
    {
      assert InPlace(b) && BucketOk(b);
      Detach(b, p, i, j);
      EntryRemoved(Place(b, i, j));
      if old(NewestFirst()) {
        NewestAfterRemoval(Place(b, i, j));
      }
    }

    twostate lemma {:induction false} OtherBucketAfterRemoval(at: (Place, nat))
      requires old(Valid()) && Unlinked(at.0) && Sized() && at.1 < iSize && at.1 != at.0.b
      ensures InPlace(at.1) && BucketOk(at.1)
    {
      var (Place(b, i, j), c) := at;
      assert old(InPlace(b) && BucketOk(b)) && old(InPlace(c) && BucketOk(c));
      var p := old(age)[j];
      assert Slot(fnHash, iSize, p.key) == b;
      forall k | 0 <= k < |chains[c]|
        ensures chains[c][k] in age && ChainedAt(chains[c], k)
      {
        var x := chains[c][k];
        assert old(ChainedAt(chains[c], k));
        assert Slot(fnHash, iSize, x.key) == c;
        WithoutKeeps(old(age), j, x);
      }
    }

    twostate lemma {:induction false} OwnPlacesAfterRemoval(at: Place)
      requires old(Valid()) && Unlinked(at) && Sized() && at.b < iSize
      ensures InPlace(at.b)
    {
      var Place(b, i, j) := at;
      var s := old(chains)[b];
      assert old(InPlace(b) && BucketOk(b));
      forall k | 0 <= k < |chains[b]|
        ensures chains[b][k] in age && Slot(fnHash, iSize, chains[b][k].key) == b
      {
        assert chains[b][k] == s[if k < i then k else k + 1];
        assert Apart(s, if k < i then k else k + 1, i);
        WithoutKeeps(old(age), j, chains[b][k]);
      }
    }

    twostate lemma {:induction false} OwnBucketAfterRemoval(at: Place)
      requires old(Valid()) && Unlinked(at) && Sized() && at.b < iSize && Chained(chains[at.b])
      ensures InPlace(at.b) && BucketOk(at.b)
    {
      assert old(InPlace(at.b) && BucketOk(at.b));
      OwnPlacesAfterRemoval(at);
      WithoutDistinct(old(chains)[at.b], at.i);
    }

    twostate lemma {:induction false} PlacesAfterRemoval(at: Place)
      requires old(Valid()) && Unlinked(at) && Sized()
      ensures forall k {:trigger HasPlace(k)} | 0 <= k < |age| :: HasPlace(k)
    {
      var Place(b, i, j) := at;
      var s, a := old(chains)[b], old(age);
      assert old(InPlace(b) && BucketOk(b));
      forall k | 0 <= k < |age|
        ensures HasPlace(k)
      {
        var m := if k < j then k else k + 1;
        assert age[k] == a[m] && Apart(a, m, j);
        assert old(HasPlace(m));
        if age[k] in s {
          WithoutKeeps(s, i, age[k]);
        }
      }
    }

    twostate lemma {:induction false} ItemsAfterRemoval(at: Place)
      requires old(Valid()) && Unlinked(at)
      ensures Items() == Without(old(Items()), at.j) && UniqueKeys(Items()) && Distinct(age)
      ensures AllData(Items())
    {
      forall k | 0 <= k < |age|
        ensures Items()[k] == Without(old(Items()), at.j)[k]
      {
        assert age[k] in age && age[k] == old(age)[if k < at.j then k else k + 1];
      }
      WithoutDistinct(old(age), at.j);
      WithoutIndex(old(Items()), at.j);
      WithoutData(old(Items()), at.j);
    }

    twostate lemma {:induction false} EntryRemoved(at: Place)
      requires old(Valid()) && Unlinked(at) && Chained(chains[at.b])
      requires Aged(age) && pOldest == At(age, 0) && pNewest == At(age, |age| - 1)
      ensures Valid() && Items() == Without(old(Items()), at.j)
    {
      assert Sized();
      forall c | 0 <= c < iSize
        ensures InPlace(c) && BucketOk(c)
      {
        if c == at.b {
          OwnBucketAfterRemoval(at);
        } else {
          OtherBucketAfterRemoval((at, c));
        }
      }
      PlacesAfterRemoval(at);
      ItemsAfterRemoval(at);
    }

    // ---- Placing a new entry ------------------------------------------------

    /** Put a new entry first in its chain. */
    method LinkFirst(b: nat, entry: Entry, ghost s: seq<Entry>)
      requires b < ppEntries.Length && Distinct(s) && Chained(s) && ppEntries[b] == At(s, 0)
      requires entry !in s && entry.pNext == null && entry.pPrev == null
      modifies ppEntries, entry`pNext, entry`pPrev, s`pPrev
      ensures Chained([entry] + s) && ppEntries[..] == old(ppEntries[..])[b := entry]
    {
      assert |s| > 0 ==> ChainedAt(s, 0);
      entry.pNext := ppEntries[b];
      entry.pPrev := null;
      if ppEntries[b] != null {
        ppEntries[b].pPrev := entry;
      }
      ppEntries[b] := entry;
      ghost var r := [entry] + s;
      forall k | 0 <= k < |r|
        ensures ChainedAt(r, k)
      {
        assert k > 0 ==> old(ChainedAt(s, k - 1)) && Apart(s, k - 1, 0);
      }
    }

    /** The loop that walks to the last entry of a chain. */
    method LastInChain(b: nat, ghost s: seq<Entry>) returns (p: Entry)
      requires b < ppEntries.Length && |s| > 0 && Chained(s) && ppEntries[b] == s[0]
      ensures p == s[|s| - 1]
    {
      p := ppEntries[b];
      ghost var i := 0;
      assert ChainedAt(s, 0);
      while p.pNext != null
        invariant i < |s| && p == s[i] && ChainedAt(s, i)
        decreases |s| - i
      {
        p := p.pNext;
        i := i + 1;
        assert ChainedAt(s, i);
      }
    }

    /** Put a new entry last in the age list. */
    method AppendNewest(entry: Entry, ghost a: seq<Entry>)
      requires Distinct(a) && Aged(a) && pOldest == At(a, 0) && pNewest == At(a, |a| - 1)
      requires entry !in a && entry.pNewer == null
      modifies this`pOldest, this`pNewest, entry`pOlder, a`pNewer
      ensures Aged(a + [entry]) && pOldest == (a + [entry])[0] && pNewest == entry
    {
      assert |a| > 0 ==> AgedAt(a, |a| - 1);
      if pOldest == null {
        pOldest := entry;
      }
      entry.pOlder := pNewest;
      if pNewest != null {
        pNewest.pNewer := entry;
      }
      pNewest := entry;
      ghost var r := a + [entry];
      forall k | 0 <= k < |r|
        ensures AgedAt(r, k)
      {
        assert k < |a| ==> old(AgedAt(a, k)) && Apart(a, k, |a| - 1);
      }
    }

    /**
     A new entry, now newest of all, went in front of its bucket, and the last entry of the bucket went out if `victim`
     says so.
     */
    twostate predicate Placed(victim: int)
      reads this, ppEntries, pNr, age
    {
      && |age| > 0 && 0 < iSize == old(iSize) == old(|chains|) && iSizeMask == old(iSizeMask)
      && ppEntries == old(ppEntries) && pNr == old(pNr) && ppEntries.Length == pNr.Length == iSize
      && victim < |old(age)|
      && var e := age[|age| - 1];
      var b := Slot(fnHash, iSize, e.key);
      var s := old(chains)[b];
      && e !in old(age) && e.pData != NULL
      && age == (if victim < 0 then old(age) else Without(old(age), victim)) + [e]
      && (victim >= 0 ==> |s| > 0 && s[|s| - 1] == old(age)[victim])
      && chains == old(chains)[b := [e] + if victim < 0 then s else s[..|s| - 1]]
      && ppEntries[..] == old(ppEntries[..])[b := e] && pNr[..] == old(pNr[..])[b := |chains[b]|]
      && iItems == |age|
      && (forall x | x in age && x in old(age) :: x.pData == old(x.pData))
      && (forall x | x in age && x in old(age) && x !in s :: x.pNext == old(x.pNext) && x.pPrev == old(x.pPrev))
    }

    static lemma {:induction false} StillThere(victim: int, x: Entry, a: seq<Entry>, a': seq<Entry>)
      requires victim < |a| && |a'| > 0 && a' == (if victim < 0 then a else Without(a, victim)) + [a'[|a'| - 1]]
      requires x in a && (victim >= 0 ==> x != a[victim])
      ensures x in a'
    {
    }

    twostate lemma {:induction false} OtherBucketAfterPlacing(at: (int, nat))
      requires old(Valid()) && Placed(at.0) && Sized() && at.1 < iSize
      requires at.1 != Slot(fnHash, iSize, age[|age| - 1].key)
      ensures InPlace(at.1) && BucketOk(at.1)
    {
      var (victim, c) := at;
      var e := age[|age| - 1];
      var b := Slot(fnHash, iSize, e.key);
      var s := old(chains)[b];
      assert old(InPlace(c) && BucketOk(c)) && old(InPlace(b) && BucketOk(b));
      forall k | 0 <= k < |chains[c]|
        ensures chains[c][k] in age && ChainedAt(chains[c], k)
      {
        var x := chains[c][k];
        assert old(ChainedAt(chains[c], k));
        assert Slot(fnHash, iSize, x.key) == c;
        assert x !in s;
        StillThere(at.0, x, old(age), age);
      }
    }

    twostate lemma {:induction false} OwnPlacesAfterPlacing(victim: int)
      requires old(Valid()) && Placed(victim) && Sized()
      ensures InPlace(Slot(fnHash, iSize, age[|age| - 1].key))
    {
      var b := Slot(fnHash, iSize, age[|age| - 1].key);
      var s, r := old(chains)[b], chains[b];
      assert old(InPlace(b) && BucketOk(b));
      forall k | 0 <= k < |r|
        ensures r[k] in age && Slot(fnHash, iSize, r[k].key) == b
      {
        if k > 0 {
          assert r[k] == s[k - 1];
          assert victim >= 0 ==> Apart(s, k - 1, |s| - 1);
          StillThere(victim, r[k], old(age), age);
        }
      }
    }

    static lemma {:induction false} DistinctFront(entry: Entry, s: seq<Entry>, a: seq<Entry>)
      requires Distinct(s) && entry !in a && forall k | 0 <= k < |s| :: s[k] in a
      ensures Distinct([entry] + s)
    {
      forall j: nat, k: nat
        ensures Apart([entry] + s, j, k)
      {
        assert j > 0 && k > 0 ==> Apart(s, j - 1, k - 1);
      }
    }

    twostate lemma {:induction false} OwnBucketAfterPlacing(victim: int)
      requires old(Valid()) && Placed(victim) && Sized() && Chained(chains[Slot(fnHash, iSize, age[|age| - 1].key)])
      ensures var b := Slot(fnHash, iSize, age[|age| - 1].key); InPlace(b) && BucketOk(b)
    {
      var e := age[|age| - 1];
      var b := Slot(fnHash, iSize, e.key);
      var s, r := old(chains)[b], chains[b];
      assert old(InPlace(b) && BucketOk(b));
      OwnPlacesAfterPlacing(victim);
      DistinctFront(e, s, old(age));
      PrefixDistinct([e] + s, |r|);
      assert r == ([e] + s)[..|r|];
    }

    twostate lemma {:induction false} PlacesAfterPlacing(victim: int)
      requires old(Valid()) && Placed(victim) && Sized()
      ensures forall k {:trigger HasPlace(k)} | 0 <= k < |age| :: HasPlace(k)
    {
      var e := age[|age| - 1];
      var b := Slot(fnHash, iSize, e.key);
      var s, r := old(chains)[b], chains[b];
      forall k | 0 <= k < |age|
        ensures HasPlace(k)
      {
        if k == |age| - 1 {
          assert r[0] == e;
        } else {
          var m := if victim < 0 || k < victim then k else k + 1;
          assert age[k] == old(age)[m] && old(HasPlace(m));
          if age[k] in s {
            var q :| 0 <= q < |s| && s[q] == age[k];
            assert victim >= 0 ==> Apart(old(age), m, victim);
            assert r[q + 1] == age[k];
          }
        }
      }
    }

    static lemma {:induction false} NewNotKept(a: seq<Entry>, j: nat, e: Entry)
      requires j < |a| && e !in a
      ensures e !in Without(a, j)
    {
    }

    twostate lemma {:induction false} AgeAfterPlacing(victim: int)
      requires old(Valid()) && Placed(victim)
      ensures Distinct(age) && forall k | 0 <= k < |age| - 1 :: age[k] in old(age)
    {
      var e := age[|age| - 1];
      if victim < 0 {
        AppendedDistinct(old(age), e);
      } else {
        WithoutDistinct(old(age), victim);
        NewNotKept(old(age), victim, e);
        assert forall k | 0 <= k < |age| - 1 :: age[k] == Without(old(age), victim)[k];
        AppendedDistinct(Without(old(age), victim), e);
      }
    }

    static lemma {:induction false} ItemsJoined(was: seq<Item>, now: seq<Item>, victim: int)
      requires victim < |was| && |now| == |was| + if victim < 0 then 1 else 0
      requires forall k | 0 <= k < |now| - 1 :: now[k] == was[if victim < 0 || k < victim then k else k + 1]
      ensures now == (if victim < 0 then was else Without(was, victim)) + if now == [] then [] else [now[|now| - 1]]
    {
    }

    twostate lemma {:induction false} ItemsAfterPlacing(victim: int)
      requires Placed(victim) && forall k | 0 <= k < |age| - 1 :: age[k] in old(age)
      ensures Items() == (if victim < 0 then old(Items()) else Without(old(Items()), victim))
                         + [Item(age[|age| - 1].key, age[|age| - 1].pData)]
    {
      forall k | 0 <= k < |age| - 1
        ensures Items()[k] == old(Items())[if victim < 0 || k < victim then k else k + 1]
      {
        var x := age[k];
        assert x == old(age)[if victim < 0 || k < victim then k else k + 1];
        assert x.pData == old(x.pData);
      }
      ItemsJoined(old(Items()), Items(), victim);
    }

    static lemma {:induction false} ItemsStayProper(items: seq<Item>, victim: int, item: Item)
      requires UniqueKeys(items) && AllData(items) && victim < |items|
      requires Find(items, item.key) == |items| && item.data != NULL
      ensures var now := (if victim < 0 then items else Without(items, victim)) + [item];
              UniqueKeys(now) && AllData(now)
    {
      if victim >= 0 {
        WithoutIndex(items, victim);
        WithoutData(items, victim);
      }
      var rest := if victim < 0 then items else Without(items, victim);
      AppendedUnique(rest, item);
      forall i: nat
        ensures HasData(rest + [item], i)
      {
        assert HasData(rest, i);
      }
    }

    twostate lemma {:induction false} EntryPlaced(victim: int)
      requires old(Valid()) && Placed(victim) && Find(old(Items()), age[|age| - 1].key) == |old(age)|
      requires Chained(chains[Slot(fnHash, iSize, age[|age| - 1].key)])
      requires Aged(age) && pOldest == At(age, 0) && pNewest == At(age, |age| - 1)
      ensures Valid()
      ensures Items() == (if victim < 0 then old(Items()) else Without(old(Items()), victim))
                         + [Item(age[|age| - 1].key, age[|age| - 1].pData)]
    {
      assert Sized();
      AgeAfterPlacing(victim);
      ItemsAfterPlacing(victim);
      ItemsStayProper(old(Items()), victim, Item(age[|age| - 1].key, age[|age| - 1].pData));
      PlacesAfterPlacing(victim);
      forall c | 0 <= c < iSize
        ensures InPlace(c) && BucketOk(c)
      {
        if c == Slot(fnHash, iSize, age[|age| - 1].key) {
          OwnBucketAfterPlacing(victim);
        } else {
          OtherBucketAfterPlacing((victim, c));
        }
      }
    }

    method AppendAndRecord(b: nat, entry: Entry, ghost r: seq<Entry>, ghost a: seq<Entry>)
      requires b < |chains| && Chained(r)
      requires Distinct(a) && Aged(a) && pOldest == At(a, 0) && pNewest == At(a, |a| - 1)
      requires entry !in a && entry.pNewer == null
      modifies this`pOldest, this`pNewest, this`chains, this`age, entry`pOlder, a`pNewer
      ensures chains == old(chains)[b := r] && age == a + [entry]
      ensures Chained(r) && Aged(age) && pOldest == At(age, 0) && pNewest == At(age, |age| - 1)
    {
      AppendNewest(entry, a);
      chains := chains[b := r];
      age := a + [entry];
      forall k | 0 <= k < |r|
        ensures ChainedAt(r, k)
      {
        assert old(ChainedAt(r, k));
      }
    }

    twostate lemma {:induction false} AgedKept(a: seq<Entry>)
      requires old(Aged(a)) && forall x | x in a :: x.pNewer == old(x.pNewer) && x.pOlder == old(x.pOlder)
      ensures Aged(a)
    {
      forall k | 0 <= k < |a|
        ensures AgedAt(a, k)
      {
        assert old(AgedAt(a, k));
      }
    }

    /** Insert's last part when the bucket has room. */
    method Attach(b: nat, entry: Entry)
      requires b < iSize == |chains| == ppEntries.Length == pNr.Length
      requires Distinct(chains[b]) && Chained(chains[b]) && ppEntries[b] == At(chains[b], 0) && pNr[b] == |chains[b]|
      requires forall k | 0 <= k < |chains[b]| :: chains[b][k] in age
      requires AgeOk() && iItems == |age|
      requires entry !in age && entry.pData != NULL && b == Slot(fnHash, iSize, entry.key)
      requires entry.pNext == null && entry.pPrev == null && entry.pNewer == null
      modifies this`chains, this`age, this`pOldest, this`pNewest, this`iItems, ppEntries, pNr
      modifies entry`pNext, entry`pPrev, entry`pOlder, age`pPrev, age`pNewer
      ensures age == old(age) + [entry] && Placed(-1)
      ensures Chained(chains[b]) && Aged(age) && pOldest == At(age, 0) && pNewest == At(age, |age| - 1)
    {
      ghost var s, a := chains[b], age;
      LinkFirst(b, entry, s);
      AgedKept(a);
      ghost var r := [entry] + s;
      pNr[b] := pNr[b] + 1;
      iItems := iItems + 1;
      AppendAndRecord(b, entry, r, a);
    }

    /** With the new entry already in front of chain `s`, take the last entry of the chain out of both lists. */
    method EvictLast(b: nat, ghost s: seq<Entry>, ghost a: seq<Entry>, ghost j: nat) returns (p: Entry)
      requires b < ppEntries.Length && |s| > 1 && j < |a| && a[j] == s[|s| - 1]
      requires Distinct(s) && Chained(s) && ppEntries[b] == s[0]
      requires Distinct(a) && Aged(a) && pOldest == a[0] && pNewest == a[|a| - 1]
      modifies this`pOldest, this`pNewest, ppEntries, s`pNext, s`pPrev, a`pNewer, a`pOlder
      ensures p == s[|s| - 1]
      ensures Chained(s[..|s| - 1]) && ppEntries[..] == old(ppEntries[..])
      ensures Aged(Without(a, j)) && pOldest == At(Without(a, j), 0) && pNewest == At(Without(a, j), |a| - 2)
    {
      p := LastInChain(b, s);
      RemoveFromChain(b, p, Place(b, |s| - 1, j), s, a);
      assert Without(s, |s| - 1) == s[..|s| - 1];
    }

    method LinkAndEvict(b: nat, entry: Entry, ghost s: seq<Entry>, ghost a: seq<Entry>, ghost j: nat) returns (p: Entry)
      requires b < ppEntries.Length && |s| > 0 && j < |a| && a[j] == s[|s| - 1]
      requires Distinct(s) && Chained(s) && ppEntries[b] == s[0] && forall k | 0 <= k < |s| :: s[k] in a
      requires Distinct(a) && Aged(a) && pOldest == a[0] && pNewest == a[|a| - 1]
      requires entry !in a && entry.pNext == null && entry.pPrev == null && entry.pNewer == null
      modifies this`pOldest, this`pNewest, ppEntries
      modifies entry`pNext, entry`pPrev, a`pNext, a`pPrev, a`pNewer, a`pOlder
      ensures p == s[|s| - 1] && entry.pNewer == null
      ensures forall e | e in a && e !in s :: e.pNext == old(e.pNext) && e.pPrev == old(e.pPrev)
      ensures Chained([entry] + s[..|s| - 1]) && ppEntries[..] == old(ppEntries[..])[b := entry]
      ensures Aged(Without(a, j)) && pOldest == At(Without(a, j), 0) && pNewest == At(Without(a, j), |a| - 2)
    {
      LinkFirst(b, entry, s);
      AgedKept(a);
      DistinctFront(entry, s, a);
      p := EvictLast(b, [entry] + s, a, j);
      assert ([entry] + s)[..|s|] == [entry] + s[..|s| - 1];
    }

    /** Insert's last part when the bucket is full: the counts stay as they are. */
    method AttachEvicting(b: nat, entry: Entry, ghost j: nat) returns (p: Entry)
      requires b < iSize == |chains| == ppEntries.Length == pNr.Length
      requires Distinct(chains[b]) && Chained(chains[b]) && ppEntries[b] == At(chains[b], 0) && pNr[b] == |chains[b]|
      requires forall k | 0 <= k < |chains[b]| :: chains[b][k] in age
      requires AgeOk() && iItems == |age|
      requires entry !in age && entry.pData != NULL && b == Slot(fnHash, iSize, entry.key)
      requires entry.pNext == null && entry.pPrev == null && entry.pNewer == null
      requires |chains[b]| > 0 && j < |age| && age[j] == chains[b][|chains[b]| - 1]
      modifies this`chains, this`age, this`pOldest, this`pNewest, ppEntries
      modifies entry`pNext, entry`pPrev, entry`pOlder, age`pNext, age`pPrev, age`pOlder, age`pNewer
      ensures p == old(age)[j] && age == Without(old(age), j) + [entry] && Placed(j)
      ensures Chained(chains[b]) && Aged(age) && pOldest == At(age, 0) && pNewest == At(age, |age| - 1)
    {
      ghost var s, a := chains[b], age;
      ghost var r := [entry] + s[..|s| - 1];
      p := LinkAndEvict(b, entry, s, a, j);
      WithoutDistinct(a, j);
      NewNotKept(a, j, entry);
      AppendAndRecord(b, entry, r, Without(a, j));
    }

    // ---- Chains newest first ------------------------------------------------

    /** The keys of all chains. */
    ghost function AllKeys(): (keys: seq<seq<Key>>)
      reads this
      ensures |keys| == |chains| && forall b | 0 <= b < |chains| :: keys[b] == KeysOf(chains[b])
    {
      AllKeysOf(chains)
    }

    lemma {:induction false} NewestIsListed()
      requires Sized() && NewestFirst()
      ensures AllKeys() == Listed(fnHash, iSize, Items())
    {
      forall b | 0 <= b < iSize
        ensures AllKeys()[b] == Listed(fnHash, iSize, Items())[b]
      {
        assert ChainNewestFirst(b);
      }
    }

    /** The last entry of a chain that is newest first is the oldest item of the bucket. */
    lemma {:induction false} LastInChainIsOldest(b: nat, j: nat)
      requires Valid() && NewestFirst() && b < iSize && |chains[b]| > 0
      requires j < |age| && age[j] == chains[b][|chains[b]| - 1]
      ensures j == OldestIn(fnHash, iSize, Items(), b)
    {
      assert ChainNewestFirst(b);
      var n := Newest(fnHash, iSize, Items(), b);
      SameKeysWithout(chains[b], n, |chains[b]| - 1);
      LastIsOldest(fnHash, iSize, Items(), b);
      FoundAt(Items(), j);
      FoundAt(Items(), OldestIn(fnHash, iSize, Items(), b));
    }

    /**
     The chain of bucket `c` after `x` went in, and the oldest of its bucket out if `victim` says so, is still newest
     first.
     */
    static lemma {:induction false} ChainKeys(hash: Key -> nat, size: nat, items: seq<Item>, victim: int,
                                              s: seq<Entry>, c: nat, e: Entry, x: Item)
      requires size > 0 && victim < |items| && e.key == x.key
      requires SameKeys(s, Newest(hash, size, items, c))
      requires victim >= 0 ==> victim == OldestIn(hash, size, items, Slot(hash, size, x.key))
      requires victim >= 0 && c == Slot(hash, size, x.key) ==> s != []
      ensures var n := Newest(hash, size, (if victim < 0 then items else Without(items, victim)) + [x], c);
              var s' := if c == Slot(hash, size, x.key) then [e] + (if victim < 0 then s else s[..|s| - 1]) else s;
              SameKeys(s', n)
    {
      var rest := if victim < 0 then items else Without(items, victim);
      NewestOfAppended(hash, size, rest, x, c);
      if victim >= 0 {
        NewestOfWithout(hash, size, items, victim, c);
      }
      if c == Slot(hash, size, x.key) {
        if victim >= 0 {
          SameKeysCut(s, Newest(hash, size, items, c));
        }
        SameKeysPrepended(if victim < 0 then s else s[..|s| - 1], Newest(hash, size, rest, c), e, x);
      }
    }

    twostate lemma {:induction false} ChainAfterPlacing(at: (int, nat))
      requires Placed(at.0) && Sized() && old(Sized()) && at.1 < iSize && old(ChainNewestFirst(at.1))
      requires var b := Slot(fnHash, iSize, age[|age| - 1].key);
               at.0 >= 0 ==> at.0 == OldestIn(fnHash, iSize, old(Items()), b)
      requires Items() == (if at.0 < 0 then old(Items()) else Without(old(Items()), at.0))
                          + [Item(age[|age| - 1].key, age[|age| - 1].pData)]
      ensures ChainNewestFirst(at.1)
    {
      var e := age[|age| - 1];
      ChainKeys(fnHash, iSize, old(Items()), at.0, old(chains)[at.1], at.1, e, Item(e.key, e.pData));
    }

    twostate lemma {:induction false} NewestAfterPlacing(victim: int)
      requires Placed(victim) && Sized() && old(Sized()) && old(NewestFirst())
      requires victim >= 0 ==> victim == OldestIn(fnHash, iSize, old(Items()), Slot(fnHash, iSize, age[|age| - 1].key))
      requires Items() == (if victim < 0 then old(Items()) else Without(old(Items()), victim))
                          + [Item(age[|age| - 1].key, age[|age| - 1].pData)]
      ensures NewestFirst()
    {
      forall c | 0 <= c < iSize
        ensures ChainNewestFirst(c)
      {
        assert old(ChainNewestFirst(c));
        ChainAfterPlacing((victim, c));
      }
    }

    /** Entries of the table with the same key are the same entry. */
    static lemma {:induction false} SameKeySameEntry(a: seq<Entry>, items: seq<Item>, s: seq<Entry>, i: nat, k: nat)
      requires |items| == |a| && UniqueKeys(items) && forall j | 0 <= j < |a| :: items[j].key == a[j].key
      requires Distinct(s) && i < |s| && k < |s| && s[i] in a && s[k] in a && s[i].key == s[k].key
      ensures i == k
    {
      var j :| 0 <= j < |a| && a[j] == s[i];
      var m :| 0 <= m < |a| && a[m] == s[k];
      FoundAt(items, j);
      FoundAt(items, m);
      assert Apart(s, i, k);
    }

    twostate lemma {:induction false} NewestAfterRemoval(at: Place)
      requires old(Valid()) && old(NewestFirst()) && Unlinked(at) && Sized() && Items() == Without(old(Items()), at.j)
      ensures NewestFirst()
    {
      var Place(b, i, j) := at;
      var items := old(Items());
      assert old(InPlace(b)) && old(ChainNewestFirst(b));
      assert Slot(fnHash, iSize, items[j].key) == b;
      var n := Newest(fnHash, iSize, items, b);
      var k := NewestWithoutPlace(fnHash, iSize, items, j);
      SameKeysWithout(old(chains)[b], n, i);
      SameKeysWithout(old(chains)[b], n, k);
      assert k == i by {
        assert old(BucketOk(b));
        SameKeySameEntry(old(age), items, old(chains)[b], i, k);
      }
      forall c | 0 <= c < iSize
        ensures ChainNewestFirst(c)
      {
        assert old(ChainNewestFirst(c));
        NewestOfWithout(fnHash, iSize, items, j, c);
      }
    }

    // ---- Chain lengths ------------------------------------------------------

    /** The chain `s` has just the entries of `a` that belong in bucket `b`. */
    static ghost predicate Fills(hash: Key -> nat, size: nat, a: seq<Entry>, s: seq<Entry>, b: nat)
      requires size > 0
    {
      && Distinct(s)
      && (forall e | e in s :: e in a && Slot(hash, size, e.key) == b)
      && (forall e | e in a && Slot(hash, size, e.key) == b :: e in s)
    }

    static lemma {:induction false} SomeMember(s: seq<Entry>) returns (e: Entry?)
      ensures s != [] ==> e != null && e in s
    {
      e := At(s, 0);
    }

    static lemma {:induction false} NothingToFill(hash: Key -> nat, size: nat, s: seq<Entry>, b: nat)
      requires size > 0 && Fills(hash, size, [], s, b)
      ensures s == []
    {
      var e := SomeMember(s);
    }

    static lemma {:induction false} FillsWithoutLast(hash: Key -> nat, size: nat, a: seq<Entry>, s: seq<Entry>, b: nat)
      returns (s': seq<Entry>)
      requires size > 0 && a != [] && Distinct(a) && Fills(hash, size, a, s, b)
      ensures Distinct(a[..|a| - 1]) && Fills(hash, size, a[..|a| - 1], s', b)
      ensures |s| == |s'| + if Slot(hash, size, a[|a| - 1].key) == b then 1 else 0
    {
      var e := a[|a| - 1];
      assert Without(a, |a| - 1) == a[..|a| - 1];
      SameMembers(a, |a| - 1);
      if Slot(hash, size, e.key) == b {
        assert e in s;
        var i :| 0 <= i < |s| && s[i] == e;
        SameMembers(s, i);
        s' := Without(s, i);
      } else {
        s' := s;
      }
    }

    /** In whatever order a chain is, it is as long as its bucket has items. */
    static lemma {:induction false} AsManyAsItems(hash: Key -> nat, size: nat, a: seq<Entry>, items: seq<Item>,
                                                  s: seq<Entry>, b: nat)
      requires size > 0 && |items| == |a| && forall j | 0 <= j < |a| :: items[j].key == a[j].key
      requires Distinct(a) && Fills(hash, size, a, s, b)
      ensures |s| == |Newest(hash, size, items, b)|
      decreases |a|
    {
      if a == [] {
        NothingToFill(hash, size, s, b);
      } else {
        var s' := FillsWithoutLast(hash, size, a, s, b);
        AsManyAsItems(hash, size, a[..|a| - 1], items[..|a| - 1], s', b);
      }
    }

    lemma {:induction false} ChainLength(b: nat)
      requires Valid() && b < iSize
      ensures pNr[b] == |chains[b]| == |Newest(fnHash, iSize, Items(), b)|
    {
      assert InPlace(b) && BucketOk(b);
      forall e | e in age && Slot(fnHash, iSize, e.key) == b
        ensures e in chains[b]
      {
        var j :| 0 <= j < |age| && age[j] == e;
        assert HasPlace(j);
      }
      AsManyAsItems(fnHash, iSize, age, Items(), chains[b], b);
    }

    /** The number of items is the sum of the chain lengths. */
    lemma {:induction false} ChainsSumUp()
      requires Valid()
      ensures iItems == Sum(pNr[..]) == |Items()|
    {
      forall b | 0 <= b < iSize
        ensures pNr[..][b] == |Newest(fnHash, iSize, Items(), b)|
      {
        ChainLength(b);
      }
      BucketsSumUp(fnHash, iSize, Items(), pNr[..]);
    }

    // ---- Insert and rehash --------------------------------------------------

    /** The new key is in front of its chain, and the item pushed out was the last of the chain. */
    static ghost predicate InFrontOf(was: seq<seq<Entry>>, now: seq<seq<Entry>>, b: nat, key: Key, evicted: Evicted) {
      && b < |now| == |was|
      && var s := was[b];
      && (evicted.Gone? ==> s != [] && evicted.item.key == s[|s| - 1].key)
      && (forall c | 0 <= c < |now| && c != b :: now[c] == was[c])
      && KeysOf(now[b]) == Entered(KeysOf(s), key, evicted.Gone?)
    }

    twostate predicate InFront(b: nat, key: Key, evicted: Evicted)
      reads this
    {
      InFrontOf(old(chains), chains, b, key, evicted)
    }

    twostate lemma {:induction false} PlacedInFront(victim: int)
      requires Placed(victim)
      ensures var e := age[|age| - 1];
              InFront(Slot(fnHash, iSize, e.key), e.key, if victim < 0 then Nothing else Gone(old(Items())[victim]))
    {
      var e := age[|age| - 1];
      var b := Slot(fnHash, iSize, e.key);
      var s := old(chains)[b];
      assert KeysOf(chains[b]) == Entered(KeysOf(s), e.key, victim >= 0);
    }

    /** Place a new entry in a bucket that has room. */
    method PlaceWithRoom(b: nat, entry: Entry)
      requires Valid() && b == Slot(fnHash, iSize, entry.key)
      requires entry !in age && entry.pData != NULL && Find(Items(), entry.key) == |age|
      requires entry.pNext == null && entry.pPrev == null && entry.pNewer == null
      modifies this`chains, this`age, this`pOldest, this`pNewest, this`iItems, ppEntries, pNr
      modifies entry`pNext, entry`pPrev, entry`pOlder, age`pPrev, age`pNewer
      ensures Valid() && age == old(age) + [entry] && iItems == old(iItems) + 1
      ensures Items() == old(Items()) + [Item(entry.key, entry.pData)]
      ensures InFront(b, entry.key, Nothing)
      ensures old(NewestFirst()) ==> NewestFirst()
    {
      assert InPlace(b) && BucketOk(b);
      Attach(b, entry);
      EntryPlaced(-1);
      PlacedInFront(-1);
      if old(NewestFirst()) {
        NewestAfterPlacing(-1);
      }
    }

    static lemma {:induction false} StillOurs(a: seq<Entry>, j: nat, entry: Entry)
      requires j < |a|
      ensures var r := Without(a, j) + [entry];
              forall i | 0 <= i < |r| :: r[i] == entry || r[i] in a
    {
    }

    /** Place a new entry in a full bucket; the last entry of its chain, the `j`-th by age, goes. */
    method PlaceEvicting(b: nat, entry: Entry, ghost j: nat) returns (p: Entry)
      requires Valid() && b == Slot(fnHash, iSize, entry.key)
      requires entry !in age && entry.pData != NULL && Find(Items(), entry.key) == |age|
      requires entry.pNext == null && entry.pPrev == null && entry.pNewer == null
      requires |chains[b]| > 0 && j < |age| && age[j] == chains[b][|chains[b]| - 1]
      requires NewestFirst() ==> j == OldestIn(fnHash, iSize, Items(), b)
      modifies this`chains, this`age, this`pOldest, this`pNewest, ppEntries, pNr
      modifies entry`pNext, entry`pPrev, entry`pOlder, age`pNext, age`pPrev, age`pOlder, age`pNewer
      ensures Valid() && p == old(age)[j] && forall i | 0 <= i < |age| :: age[i] == entry || age[i] in old(age)
      ensures Items() == Without(old(Items()), j) + [Item(entry.key, entry.pData)]
      ensures InFront(b, entry.key, Gone(old(Items())[j]))
      ensures old(NewestFirst()) ==> NewestFirst()
    {
      assert InPlace(b) && BucketOk(b);
      StillOurs(age, j, entry);
      p := AttachEvicting(b, entry, j);
      EntryPlaced(j);
      PlacedInFront(j);
      if old(NewestFirst()) {
        NewestAfterPlacing(j);
      }
    }

    /** What an insert does to the items, and which item it pushes out: one of the same bucket, if that is full. */
    static predicate Result(hash: Key -> nat, size: nat, limit: nat, was: seq<Item>, now: seq<Item>, item: Item,
                            evicted: Evicted)
      requires size > 0
    {
      var b := Slot(hash, size, item.key);
      && (evicted.Gone? <==> limit != 0 && |Newest(hash, size, was, b)| >= limit)
      && (evicted.Gone? ==> evicted.item in was && Slot(hash, size, evicted.item.key) == b)
      && now == (if evicted.Gone? then Removed(was, evicted.item.key) else was) + [item]
    }

    /** And if the chains are newest first, it is the oldest of them. */
    static predicate Outcome(hash: Key -> nat, size: nat, limit: nat, was: seq<Item>, now: seq<Item>, item: Item,
                             evicted: Evicted, newestFirst: bool)
      requires size > 0
    {
      && Result(hash, size, limit, was, now, item, evicted)
      && (newestFirst ==> now == Inserted(hash, size, limit, was, item))
    }

    static lemma {:induction false} EvictionOutcome(hash: Key -> nat, size: nat, limit: nat, was: seq<Item>, item: Item,
                                                    j: nat, newestFirst: bool)
      requires size > 0 && UniqueKeys(was) && Overflows(hash, size, limit, was, item)
      requires j < |was| && Slot(hash, size, was[j].key) == Slot(hash, size, item.key)
      requires newestFirst ==> j == OldestIn(hash, size, was, Slot(hash, size, item.key))
      ensures Outcome(hash, size, limit, was, Without(was, j) + [item], item, Gone(was[j]), newestFirst)
    {
      FoundAt(was, j);
    }

    lemma {:induction false} PlaceOf(b: nat, i: nat) returns (j: nat)
      requires Sized() && b < iSize && InPlace(b) && i < |chains[b]|
      ensures j < |age| && age[j] == chains[b][i] && Slot(fnHash, iSize, age[j].key) == b
    {
      assert chains[b][i] in age;
      j :| 0 <= j < |age| && age[j] == chains[b][i];
    }

    /** Where the last of a full chain is by age. */
    lemma {:induction false} LastOfFull(b: nat, item: Item) returns (j: nat)
      requires Valid() && b < iSize && b == Slot(fnHash, iSize, item.key)
      requires bucketLimit != 0 && pNr[b] >= bucketLimit
      ensures |chains[b]| > 0 && j < |age| && age[j] == chains[b][|chains[b]| - 1]
      ensures Overflows(fnHash, iSize, bucketLimit, Items(), item) && Slot(fnHash, iSize, Items()[j].key) == b
      ensures NewestFirst() ==> j == OldestIn(fnHash, iSize, Items(), b)
    {
      ChainLength(b);
      j := PlaceOf(b, |chains[b]| - 1);
      if NewestFirst() {
        LastInChainIsOldest(b, j);
      }
    }

    lemma {:induction false} WillFit(b: nat, item: Item)
      requires Valid() && b < iSize && b == Slot(fnHash, iSize, item.key)
      requires bucketLimit == 0 || pNr[b] < bucketLimit
      ensures Result(fnHash, iSize, bucketLimit, Items(), Items() + [item], item, Nothing)
      ensures Items() + [item] == Inserted(fnHash, iSize, bucketLimit, Items(), item)
    {
      ChainLength(b);
    }

    method PlaceInFull(b: nat, entry: Entry) returns (evicted: Evicted)
      requires Valid() && b == Slot(fnHash, iSize, entry.key) && bucketLimit != 0 && pNr[b] >= bucketLimit
      requires entry !in age && entry.pData != NULL && Find(Items(), entry.key) == |age|
      requires entry.pNext == null && entry.pPrev == null && entry.pNewer == null
      modifies this`chains, this`age, this`pOldest, this`pNewest, this`iItems, ppEntries, pNr
      modifies entry`pNext, entry`pPrev, entry`pOlder, age`pNext, age`pPrev, age`pOlder, age`pNewer
      ensures Valid() && forall i | 0 <= i < |age| :: age[i] == entry || age[i] in old(age)
      ensures Outcome(fnHash, iSize, bucketLimit, old(Items()), Items(), Item(entry.key, entry.pData), evicted,
                      old(NewestFirst()))
      ensures InFront(b, entry.key, evicted)
      ensures old(NewestFirst()) ==> NewestFirst()
    {
      ghost var was, plain, item := Items(), NewestFirst(), Item(entry.key, entry.pData);
      ghost var j := LastOfFull(b, item);
      var p := PlaceEvicting(b, entry, j);
      evicted := Gone(Item(p.key, p.pData));
      EvictionOutcome(fnHash, iSize, bucketLimit, was, item, j, plain);
    }

    /** ght_insert, once the bucket is known: place the entry, evicting the last of a full chain. */
    method PlaceEntry(b: nat, entry: Entry) returns (evicted: Evicted)
      requires Valid() && b == Slot(fnHash, iSize, entry.key)
      requires entry !in age && entry.pData != NULL && Find(Items(), entry.key) == |age|
      requires entry.pNext == null && entry.pPrev == null && entry.pNewer == null
      modifies this`chains, this`age, this`pOldest, this`pNewest, this`iItems, ppEntries, pNr
      modifies entry`pNext, entry`pPrev, entry`pOlder, age`pNext, age`pPrev, age`pOlder, age`pNewer
      ensures Valid() && forall i | 0 <= i < |age| :: age[i] == entry || age[i] in old(age)
      ensures Result(fnHash, iSize, bucketLimit, old(Items()), Items(), Item(entry.key, entry.pData), evicted)
      ensures InFront(b, entry.key, evicted)
      ensures old(NewestFirst()) ==>
                && NewestFirst()
                && Items() == Inserted(fnHash, iSize, bucketLimit, old(Items()), Item(entry.key, entry.pData))
    {
      if bucketLimit != 0 && pNr[b] >= bucketLimit {
        evicted := PlaceInFull(b, entry);
      } else {
        WillFit(b, Item(entry.key, entry.pData));
        PlaceWithRoom(b, entry);
        evicted := Nothing;
      }
    }

    /** Doubling a power of two gives that power of two, whatever the rounding. */
    static lemma {:induction false} DoubleRounds(size: nat, n: nat, k: nat)
      requires RoundedUp(size, 2 * n) && n == Pow2(k)
      ensures size == 2 * n
    {
      var m: nat :| size == Pow2(m);
      if m <= k {
        Pow2Monotone(m, k);
      } else if m > k + 1 {
        Pow2Monotone(k + 1, m - 1);
      }
    }

    /** ght_rehash: everything moves into a new table, oldest first. */
    method Rehash(n: nat) returns (ghost moved: nat)
      requires Valid()
      modifies this`chains, this`age, this`pOldest, this`pNewest, this`iItems, this`iSize, this`iSizeMask
      modifies this`ppEntries, this`pNr
      ensures Valid() && RoundedUp(iSize, n) && NewestFirst()
      ensures Items() == old(Items()) && iItems == old(iItems) && moved == iItems
      ensures fresh(ppEntries) && fresh(pNr) && fresh(age)
      decreases 1, 0
    {
      var tmp;
      tmp, moved := Refilled(n);
      TakeOver(tmp);
    }

    /** A table that has taken over all structures of another is as good as the other was. */
    twostate lemma {:induction false} TookOver(tmp: Table)
      requires old(tmp.Valid()) && old(tmp.NewestFirst()) && fnHash == tmp.fnHash
      requires iSize == old(tmp.iSize) && iSizeMask == old(tmp.iSizeMask) && iItems == old(tmp.iItems)
      requires ppEntries == old(tmp.ppEntries) && pNr == old(tmp.pNr)
      requires pOldest == old(tmp.pOldest) && pNewest == old(tmp.pNewest)
      requires chains == old(tmp.chains) && age == old(tmp.age)
      requires ppEntries[..] == old(tmp.ppEntries[..]) && pNr[..] == old(tmp.pNr[..])
      requires forall e | e in age ::
                 && e.pNext == old(e.pNext) && e.pPrev == old(e.pPrev) && e.pNewer == old(e.pNewer)
                 && e.pOlder == old(e.pOlder) && e.pData == old(e.pData)
      ensures Valid() && NewestFirst() && Items() == old(tmp.Items())
    {
      assert Items() == old(tmp.Items()) by {
        assert forall j | 0 <= j < |age| :: Items()[j] == old(tmp.Items())[j];
      }
      forall b | 0 <= b < iSize
        ensures InPlace(b) && BucketOk(b) && ChainNewestFirst(b)
      {
        assert old(tmp.InPlace(b)) && old(tmp.BucketOk(b)) && old(tmp.ChainNewestFirst(b));
        forall i | 0 <= i < |chains[b]|
          ensures ChainedAt(chains[b], i)
        {
          assert old(ChainedAt(tmp.chains[b], i));
        }
      }
      forall j | 0 <= j < |age|
        ensures HasPlace(j) && AgedAt(age, j)
      {
        assert old(tmp.HasPlace(j)) && old(AgedAt(tmp.age, j));
      }
    }

    method TakeOver(tmp: Table)
      requires tmp != this && tmp.Valid() && tmp.NewestFirst() && fnHash == tmp.fnHash
      modifies this`chains, this`age, this`pOldest, this`pNewest, this`iItems, this`iSize, this`iSizeMask
      modifies this`ppEntries, this`pNr
      ensures Valid() && NewestFirst() && Items() == old(tmp.Items()) && iItems == |Items()|
      ensures iSize == tmp.iSize && ppEntries == tmp.ppEntries && pNr == tmp.pNr && age == tmp.age
    {
      iSize, iSizeMask, iItems := tmp.iSize, tmp.iSizeMask, tmp.iItems;
      ppEntries, pNr := tmp.ppEntries, tmp.pNr;
      pOldest, pNewest := tmp.pOldest, tmp.pNewest;
      chains, age := tmp.chains, tmp.age;
      TookOver(tmp);
    }

    static lemma {:induction false} PrefixHasNot(items: seq<Item>, k: nat)
      requires UniqueKeys(items) && k < |items|
      ensures Find(items[..k], items[k].key) == k && items[..k + 1] == items[..k] + [items[k]]
    {
      assert Find(items[..k], items[k].key) < k ==> KeysApart(items, Find(items[..k], items[k].key), k);
    }

    /** One turn of the loop of ght_rehash: insert the current entry into the new table and go to the next. */
    method MoveEntry(tmp: Table, walk: Iterator, ghost k: nat, ghost items: seq<Item>, ghost repr: set<object>)
      returns (p: nat, ghost larger: set<object>)
      requires k < |age| == |items| && walk.Current(this, k) && age[k].pData != NULL
      requires items[k] == Item(age[k].key, age[k].pData) && (k + 1 < |age| ==> AgedAt(age, k + 1))
      requires tmp.Refilling(items, k) && tmp.Holds(repr)
      requires this !in repr && walk !in repr && forall j | 0 <= j < |age| :: age[j] !in repr
      modifies repr, walk
      ensures tmp.Refilling(items, k + 1) && tmp.iSize == old(tmp.iSize)
      ensures repr <= larger && fresh(larger - repr) && tmp.Holds(larger)
      ensures walk.Current(this, k + 1) && p == (if k + 1 < |age| then age[k + 1].pData else NULL)
      decreases 0, 5
    {
      PrefixHasNot(items, k);
      larger := tmp.Append(walk.pEntry.key, walk.pEntry.pData, repr);
      var key;
      p, key := walk.Next(this, k + 1);
    }

    /** The table has got the oldest `k` of the items. */
    ghost predicate Refilling(items: seq<Item>, k: nat)
      requires k <= |items|
      reads this, ppEntries, pNr, age
    {
      && Valid() && NewestFirst() && bucketLimit == 0 && !iAutomaticRehash
      && UniqueKeys(items) && Items() == items[..k]
    }

    /** The loop of ght_rehash. */
    method MoveAll(tmp: Table, ghost items: seq<Item>, ghost repr: set<object>)
      returns (ghost larger: set<object>, ghost moved: nat)
      requires Aged(age) && pOldest == At(age, 0) && items == Items() && AllData(items)
      requires tmp.Refilling(items, 0) && tmp.Holds(repr)
      requires this !in repr && forall j | 0 <= j < |age| :: age[j] !in repr
      modifies repr
      ensures tmp.Refilling(items, |items|) && tmp.iSize == old(tmp.iSize) && moved == |items|
      ensures repr <= larger && fresh(larger - repr) && tmp.Holds(larger)
      decreases 0, 6
    {
      larger := repr;
      var walk := new Iterator();
      assert age != [] ==> AgedAt(age, 0);
      var p, key := walk.First(this);
      moved := 0;
      while p != NULL
        invariant moved <= |age| && walk.Current(this, moved) && p == (if moved < |age| then age[moved].pData else NULL)
        invariant fresh(walk) && walk !in larger && repr <= larger && fresh(larger - repr) && tmp.Holds(larger)
        invariant forall j | 0 <= j < |age| :: age[j] !in larger
        invariant tmp.Refilling(items, moved) && tmp.iSize == old(tmp.iSize)
        decreases |age| - moved
      {
        assert old(Items()[moved] == Item(age[moved].key, age[moved].pData));
        assert moved + 1 < |age| ==> old(AgedAt(age, moved + 1));
        p, larger := MoveEntry(tmp, walk, moved, items, larger);
        moved := moved + 1;
      }
      assert HasData(items, moved);
    }

    /** ght_rehash up to where the old table is given up. */
    method Refilled(n: nat) returns (tmp: Table, ghost moved: nat)
      requires AgeOk() && UniqueKeys(Items()) && AllData(Items())
      ensures fresh(tmp) && fresh(tmp.ppEntries) && fresh(tmp.pNr) && fresh(tmp.age)
      ensures tmp.Valid() && tmp.NewestFirst() && tmp.fnHash == fnHash && RoundedUp(tmp.iSize, n)
      ensures tmp.Items() == old(Items()) && moved == |old(Items())|
      decreases 0, 7
    {
      tmp := new Table(fnHash, n);
      ghost var repr;
      repr, moved := MoveAll(tmp, Items(), {tmp, tmp.ppEntries, tmp.pNr});
      assert forall i | 0 <= i < |tmp.age| :: tmp.age[i] in repr;
    }

    /** The table, its arrays and its entries. */
    ghost function Objects(): set<object>
      reads this
    {
      {this, ppEntries, pNr} + set e | e in age
    }

    /** Arrays and entries that were not there before are new. */
    twostate lemma {:induction false} ObjectsNew()
      requires ppEntries == old(ppEntries) || fresh(ppEntries)
      requires pNr == old(pNr) || fresh(pNr)
      requires forall e | e in age :: e in old(age) || fresh(e)
      ensures fresh(Objects() - old(Objects()))
    {
    }

    /** All objects of the table are in `repr`. */
    ghost predicate Holds(repr: set<object>)
      reads this
    {
      this in repr && ppEntries in repr && pNr in repr && forall e | e in age :: e in repr
    }

    /** ght_insert as ght_rehash uses it: no bound, no automatic rehash, a key that is not there yet. */
    method Append(key: Key, data: nat, ghost repr: set<object>) returns (ghost larger: set<object>)
      requires Valid() && NewestFirst() && data != NULL && Find(Items(), key) == |Items()|
      requires bucketLimit == 0 && !iAutomaticRehash && Holds(repr)
      modifies repr
      ensures Valid() && NewestFirst() && Items() == old(Items()) + [Item(key, data)]
      ensures iSize == old(iSize) && bucketLimit == 0 && !iAutomaticRehash
      ensures repr <= larger && fresh(larger - repr) && Holds(larger)
      decreases 0, 4
    {
      var status, evicted, moved := Insert(key, data, true);
      larger := repr + set e | e in age;
    }

    /** The first part of ght_insert: whether the key is there already. */
    method IsPresent(key: Key) returns (present: bool)
      requires Valid()
      ensures present <==> Find(Items(), key) < |Items()|
    {
      var lKey := BitAnd(fnHash(key), iSizeMask);
      MaskedIsSlot(key);
      var found, i := FindInBucket(lKey, key);
      FoundMeans(lKey, key, found);
      present := found != null;
    }

    /** The middle part of ght_insert: double the table when it holds more than twice as many items as buckets. */
    method RehashIfFull() returns (ghost moved: nat)
      requires Valid()
      modifies this`chains, this`age, this`pOldest, this`pNewest, this`iItems, this`iSize, this`iSizeMask
      modifies this`ppEntries, this`pNr
      ensures Valid() && Items() == old(Items()) && iItems == old(iItems)
      ensures if iAutomaticRehash && iItems > 2 * old(iSize)
              then iSize == 2 * old(iSize) && moved == iItems && NewestFirst()
                   && fresh(ppEntries) && fresh(pNr) && fresh(age)
              else unchanged(this) && moved == 0
      decreases if iAutomaticRehash then 2 else 0, 0
    {
      if iAutomaticRehash && iItems > 2 * iSize {
        ghost var k: nat :| iSize == Pow2(k);
        moved := Rehash(2 * iSize);
        DoubleRounds(iSize, old(iSize), k);
      } else {
        moved := 0;
      }
    }

    /** The last part of ght_insert. */
    method Store(pEntry: Entry) returns (evicted: Evicted)
      requires Valid() && pEntry !in age && pEntry.pData != NULL && Find(Items(), pEntry.key) == |age|
      requires pEntry.pNext == null && pEntry.pPrev == null && pEntry.pNewer == null
      modifies this`chains, this`age, this`pOldest, this`pNewest, this`iItems, ppEntries, pNr
      modifies pEntry`pNext, pEntry`pPrev, pEntry`pOlder, age`pNext, age`pPrev, age`pOlder, age`pNewer
      ensures Valid() && forall i | 0 <= i < |age| :: age[i] == pEntry || age[i] in old(age)
      ensures Result(fnHash, iSize, bucketLimit, old(Items()), Items(), Item(pEntry.key, pEntry.pData), evicted)
      ensures InFront(Slot(fnHash, iSize, pEntry.key), pEntry.key, evicted)
      ensures old(NewestFirst()) ==>
                && NewestFirst()
                && Items() == Inserted(fnHash, iSize, bucketLimit, old(Items()), Item(pEntry.key, pEntry.pData))
    {
      var lKey := BitAnd(fnHash(pEntry.key), iSizeMask);
      MaskedIsSlot(pEntry.key);
      evicted := PlaceEntry(lKey, pEntry);
    }

    /** ght_insert from where the new entry exists. */
    method Enter(pEntry: Entry) returns (evicted: Evicted, ghost moved: nat)
      requires Valid() && pEntry !in age && pEntry.pData != NULL && Find(Items(), pEntry.key) == |age|
      requires pEntry.pNext == null && pEntry.pPrev == null && pEntry.pNewer == null
      modifies this`chains, this`age, this`pOldest, this`pNewest, this`iItems, this`iSize, this`iSizeMask
      modifies this`ppEntries, this`pNr, ppEntries, pNr
      modifies pEntry`pNext, pEntry`pPrev, pEntry`pOlder, age`pNext, age`pPrev, age`pOlder, age`pNewer
      ensures Valid()
      ensures Result(fnHash, iSize, bucketLimit, old(Items()), Items(), Item(pEntry.key, pEntry.pData), evicted)
      ensures iSize == if iAutomaticRehash && old(iItems) > 2 * old(iSize) then 2 * old(iSize) else old(iSize)
      ensures old(NewestFirst()) || iSize != old(iSize) ==>
                && NewestFirst()
                && Items() == Inserted(fnHash, iSize, bucketLimit, old(Items()), Item(pEntry.key, pEntry.pData))
      ensures iSize == old(iSize) ==> InFront(Slot(fnHash, iSize, pEntry.key), pEntry.key, evicted)
      ensures moved == if iSize == old(iSize) then 0 else old(iItems)
      ensures iSize == old(iSize) ==> ppEntries == old(ppEntries) && pNr == old(pNr)
      ensures iSize != old(iSize) ==> fresh(ppEntries) && fresh(pNr)
      ensures forall i | 0 <= i < |age| :: age[i] == pEntry || age[i] in old(age) || fresh(age[i])
      decreases if iAutomaticRehash then 2 else 0, 1
    {
      moved := RehashIfFull();
      evicted := Store(pEntry);
    }

    /** ght_insert of a key that is not there, once there is memory for the entry. */
    method InsertNew(key: Key, data: nat) returns (evicted: Evicted, ghost moved: nat)
      requires Valid() && data != NULL && Find(Items(), key) == |age|
      modifies this`chains, this`age, this`pOldest, this`pNewest, this`iItems, this`iSize, this`iSizeMask
      modifies this`ppEntries, this`pNr, ppEntries, pNr
      modifies age`pNext, age`pPrev, age`pOlder, age`pNewer
      ensures Valid()
      ensures Result(fnHash, iSize, bucketLimit, old(Items()), Items(), Item(key, data), evicted)
      ensures iSize == if iAutomaticRehash && old(iItems) > 2 * old(iSize) then 2 * old(iSize) else old(iSize)
      ensures old(NewestFirst()) || iSize != old(iSize) ==>
                NewestFirst() && Items() == Inserted(fnHash, iSize, bucketLimit, old(Items()), Item(key, data))
      ensures iSize == old(iSize) ==> InFront(Slot(fnHash, iSize, key), key, evicted)
      ensures moved == if iSize == old(iSize) then 0 else old(iItems)
      ensures iSize == old(iSize) ==> ppEntries == old(ppEntries) && pNr == old(pNr)
      ensures iSize != old(iSize) ==> fresh(ppEntries) && fresh(pNr)
      ensures forall i | 0 <= i < |age| :: age[i] in old(age) || fresh(age[i])
      decreases if iAutomaticRehash then 2 else 0, 2
    {
      var pEntry := new Entry(key, data);
      evicted, moved := Enter(pEntry);
    }

    /** ght_insert; `canAllocate` says whether memory for the entry is to be had. */
    method Insert(key: Key, data: nat, canAllocate: bool) returns (status: Status, evicted: Evicted, ghost moved: nat)
      requires Valid() && data != NULL
      modifies this`chains, this`age, this`pOldest, this`pNewest, this`iItems, this`iSize, this`iSizeMask
      modifies this`ppEntries, this`pNr, ppEntries, pNr
      modifies age`pNext, age`pPrev, age`pOlder, age`pNewer
      ensures Valid()
      ensures status == if Find(old(Items()), key) < |old(Items())| then AlreadyInHash
                        else if !canAllocate then Error else Ok
      ensures status != Ok ==> unchanged(this) && unchanged(ppEntries) && unchanged(pNr) && unchanged(age)
      ensures status == Ok ==> Result(fnHash, iSize, bucketLimit, old(Items()), Items(), Item(key, data), evicted)
      ensures status == Ok ==>
                iSize == if iAutomaticRehash && old(iItems) > 2 * old(iSize) then 2 * old(iSize) else old(iSize)
      ensures status == Ok && (old(NewestFirst()) || iSize != old(iSize)) ==>
                NewestFirst() && Items() == Inserted(fnHash, iSize, bucketLimit, old(Items()), Item(key, data))
      ensures status == Ok && iSize == old(iSize) ==> InFront(Slot(fnHash, iSize, key), key, evicted)
      ensures moved == if iSize == old(iSize) then 0 else old(iItems)
      ensures iSize == old(iSize) ==> ppEntries == old(ppEntries) && pNr == old(pNr)
      ensures iSize != old(iSize) ==> fresh(ppEntries) && fresh(pNr)
      ensures forall i | 0 <= i < |age| :: age[i] in old(age) || fresh(age[i])
      decreases if iAutomaticRehash then 2 else 0, 3
    {
      var present := IsPresent(key);
      if present {
        return AlreadyInHash, Nothing, 0;
      }
      if !canAllocate {
        return Error, Nothing, 0;
      }
      evicted, moved := InsertNew(key, data);
      status := Ok;
    }
  }
}
