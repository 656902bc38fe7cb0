/** Buckets seen as parts of the insertion-ordered items: bounds, eviction, doubling and rehash cost. */
module HashBuckets {
  import opened HashSpec
  import opened PowersOfTwo

  /** The index of a key's bucket in a table of `size` buckets. */
  function Slot(hash: Key -> nat, size: nat, key: Key): (b: nat)
    requires size > 0
    ensures b < size
  {
    hash(key) % size
  }

  /** The items of bucket `b`, newest first. */
  function Newest(hash: Key -> nat, size: nat, items: seq<Item>, b: nat): (r: seq<Item>)
    requires size > 0
    ensures |r| <= |items|
  {
    if items == [] then []
    else
      var front, last := items[..|items| - 1], items[|items| - 1];
      if Slot(hash, size, last.key) == b then [last] + Newest(hash, size, front, b) else Newest(hash, size, front, b)
  }

  /** The places of the items that hash to bucket `b`. */
  function PlacesOf(hash: Key -> nat, size: nat, items: seq<Item>, b: nat): set<nat>
    requires size > 0
  {
    set i: nat | 0 <= i < |items| && hash(items[i].key) % size == b
  }

  /** A bucket has as many items as there are places of it. */
  lemma {:induction false} NewestCounts(hash: Key -> nat, size: nat, items: seq<Item>, b: nat)
    requires size > 0
    ensures |Newest(hash, size, items, b)| == |PlacesOf(hash, size, items, b)|
  {
    if items != [] {
      var n := |items| - 1;
      NewestCounts(hash, size, items[..n], b);
      var before := PlacesOf(hash, size, items[..n], b);
      assert PlacesOf(hash, size, items, b) == if hash(items[n].key) % size == b then before + {n} else before;
    }
  }

  /** The position of the oldest item of bucket `b`, or the number of items when the bucket is empty. */
  function OldestIn(hash: Key -> nat, size: nat, items: seq<Item>, b: nat): (j: nat)
    requires size > 0
    ensures j <= |items|
    ensures j < |items| ==> Slot(hash, size, items[j].key) == b
    ensures forall k | 0 <= k < j :: Slot(hash, size, items[k].key) != b
  {
    if items == [] then 0
    else if Slot(hash, size, items[0].key) == b then 0
    else 1 + OldestIn(hash, size, items[1..], b)
  }

  /** The bucket of a new item is full, so that one of its items has to go. */
  predicate Overflows(hash: Key -> nat, size: nat, limit: nat, items: seq<Item>, item: Item)
    requires size > 0
  {
    limit != 0 && |Newest(hash, size, items, Slot(hash, size, item.key))| >= limit
  }

  /** What inserting a new item does: a full bucket gives up its item at `pick`, and the new one is newest of all. */
  function InsertedAt(hash: Key -> nat, size: nat, limit: nat, items: seq<Item>, item: Item, pick: nat): seq<Item>
    requires size > 0
  {
    if Overflows(hash, size, limit, items, item) && pick < |items| then Without(items, pick) + [item]
    else items + [item]
  }

  /** The item at `pick` is one of the bucket of the new item, if one has to go. */
  predicate MayGo(hash: Key -> nat, size: nat, limit: nat, items: seq<Item>, item: Item, pick: nat)
    requires size > 0
  {
    Overflows(hash, size, limit, items, item) ==>
      pick < |items| && Slot(hash, size, items[pick].key) == Slot(hash, size, item.key)
  }

  /** Without heuristics, it is the oldest of the bucket that goes. */
  function Inserted(hash: Key -> nat, size: nat, limit: nat, items: seq<Item>, item: Item): seq<Item>
    requires size > 0
  {
    InsertedAt(hash, size, limit, items, item, OldestIn(hash, size, items, Slot(hash, size, item.key)))
  }

  lemma {:induction false} NewestOfAppended(hash: Key -> nat, size: nat, items: seq<Item>, item: Item, b: nat)
    requires size > 0
    ensures Newest(hash, size, items + [item], b)
            == if Slot(hash, size, item.key) == b then [item] + Newest(hash, size, items, b)
               else Newest(hash, size, items, b)
  {
  }

  lemma {:induction false} OldestOfFront(hash: Key -> nat, size: nat, items: seq<Item>, b: nat)
    requires size > 0 && items != []
    ensures var front, j := items[..|items| - 1], OldestIn(hash, size, items, b);
            OldestIn(hash, size, front, b) == if j < |front| then j else |front|
  {
  }

  /** The last of a bucket's chain is its oldest item. */
  lemma {:induction false} LastIsOldest(hash: Key -> nat, size: nat, items: seq<Item>, b: nat)
    requires size > 0
    ensures Newest(hash, size, items, b) == [] <==> OldestIn(hash, size, items, b) == |items|
    ensures var n := Newest(hash, size, items, b);
            n != [] ==> n[|n| - 1] == items[OldestIn(hash, size, items, b)]
  {
    if items != [] {
      var front := items[..|items| - 1];
      LastIsOldest(hash, size, front, b);
      OldestOfFront(hash, size, items, b);
    }
  }

  lemma {:induction false} WithoutInFront<T>(s: seq<T>, j: nat)
    requires j < |s|
    ensures Without(s, j) == if j == |s| - 1 then s[..|s| - 1] else Without(s[..|s| - 1], j) + [s[|s| - 1]]
  {
  }

  /** Taking out one item takes it out of its own bucket and leaves the others alone. */
  lemma {:induction false} NewestOfWithout(hash: Key -> nat, size: nat, items: seq<Item>, j: nat, b: nat)
    requires size > 0 && j < |items|
    ensures Slot(hash, size, items[j].key) != b ==>
              Newest(hash, size, Without(items, j), b) == Newest(hash, size, items, b)
    ensures Slot(hash, size, items[j].key) == b ==>
              |Newest(hash, size, Without(items, j), b)| == |Newest(hash, size, items, b)| - 1
    ensures j == OldestIn(hash, size, items, b) ==>
              var n := Newest(hash, size, items, b);
              n != [] && Newest(hash, size, Without(items, j), b) == n[..|n| - 1]
  {
    var front, last := items[..|items| - 1], items[|items| - 1];
    WithoutInFront(items, j);
    OldestOfFront(hash, size, items, b);
    if j == |items| - 1 {
      LastIsOldest(hash, size, items, b);
      LastIsOldest(hash, size, front, b);
    } else {
      NewestOfAppended(hash, size, Without(front, j), last, b);
      NewestOfWithout(hash, size, front, j, b);
    }
  }

  lemma {:induction false} WithoutNext<T>(x: T, n: seq<T>, i: nat)
    requires i < |n|
    ensures Without([x] + n, i + 1) == [x] + Without(n, i)
  {
  }

  /** Where in its bucket an item is, and that removing it removes just that place. */
  lemma {:induction false} NewestWithoutPlace(hash: Key -> nat, size: nat, items: seq<Item>, j: nat) returns (i: nat)
    requires size > 0 && j < |items|
    ensures var b := Slot(hash, size, items[j].key);
            var n := Newest(hash, size, items, b);
            i < |n| && n[i] == items[j] && Newest(hash, size, Without(items, j), b) == Without(n, i)
  {
    var b := Slot(hash, size, items[j].key);
    var front, last := items[..|items| - 1], items[|items| - 1];
    if j == |items| - 1 {
      assert Without(items, j) == front;
      i := 0;
    } else {
      assert Without(items, j) == Without(front, j) + [last];
      NewestOfAppended(hash, size, Without(front, j), last, b);
      i := NewestWithoutPlace(hash, size, front, j);
      if Slot(hash, size, last.key) == b {
        WithoutNext(last, Newest(hash, size, front, b), i);
        i := i + 1;
      }
    }
  }

  /** Buckets depend on keys only. */
  lemma {:induction false} NewestByKeys(hash: Key -> nat, size: nat, items: seq<Item>, items': seq<Item>, b: nat)
    requires size > 0 && |items| == |items'| && forall k | 0 <= k < |items| :: items[k].key == items'[k].key
    ensures var n, n' := Newest(hash, size, items, b), Newest(hash, size, items', b);
            |n| == |n'| && forall k | 0 <= k < |n| :: n[k].key == n'[k].key
  {
    if items != [] {
      NewestByKeys(hash, size, items[..|items| - 1], items'[..|items| - 1], b);
    }
  }

  lemma {:induction false} NewestAreItems(hash: Key -> nat, size: nat, items: seq<Item>, b: nat)
    requires size > 0
    ensures forall x | x in Newest(hash, size, items, b) :: x in items && Slot(hash, size, x.key) == b
  {
    if items != [] {
      NewestAreItems(hash, size, items[..|items| - 1], b);
    }
  }

  // ---- All buckets together -----------------------------------------------

  function Sum(s: seq<nat>): nat {
    if s == [] then 0 else s[0] + Sum(s[1..])
  }

  lemma {:induction false} SumWithOneMore(s: seq<nat>, i: nat)
    requires i < |s|
    ensures Sum(s[i := s[i] + 1]) == Sum(s) + 1
  {
    if i == 0 {
      assert s[i := s[i] + 1][1..] == s[1..];
    } else {
      SumWithOneMore(s[1..], i - 1);
      assert s[i := s[i] + 1][1..] == s[1..][i - 1 := s[i] + 1];
    }
  }

  lemma {:induction false} SumOfZeros(s: seq<nat>)
    requires forall i | 0 <= i < |s| :: s[i] == 0
    ensures Sum(s) == 0
  {
    if s != [] {
      SumOfZeros(s[1..]);
    }
  }

  /** Every item is in exactly one bucket. */
  lemma {:induction false} BucketsSumUp(hash: Key -> nat, size: nat, items: seq<Item>, counts: seq<nat>)
    requires size == |counts| > 0
    requires forall b | 0 <= b < size :: counts[b] == |Newest(hash, size, items, b)|
    ensures Sum(counts) == |items|
    decreases |items|
  {
    if items == [] {
      SumOfZeros(counts);
    } else {
      var b := Slot(hash, size, items[|items| - 1].key);
      var fewer := counts[b := counts[b] - 1];
      BucketsSumUp(hash, size, items[..|items| - 1], fewer);
      SumWithOneMore(fewer, b);
      assert fewer[b := fewer[b] + 1] == counts;
    }
  }

  // ---- Bounded buckets ----------------------------------------------------

  ghost predicate Within(hash: Key -> nat, size: nat, limit: nat, items: seq<Item>)
    requires size > 0
  {
    forall b {:trigger Newest(hash, size, items, b)} | 0 <= b < size :: |Newest(hash, size, items, b)| <= limit
  }

  /** A bucket of the doubled table is part of one bucket of the old table. */
  lemma {:induction false} DoublingSplits(hash: Key -> nat, size: nat, items: seq<Item>, b: nat)
    requires size > 0 && b < 2 * size
    ensures |Newest(hash, 2 * size, items, b)| <= |Newest(hash, size, items, b % size)|
  {
    if items != [] {
      var front, last := items[..|items| - 1], items[|items| - 1];
      DoublingSplits(hash, size, front, b);
      DoubledModulo(hash(last.key), size, 2 * size);
    }
  }

  lemma {:induction false} DoublingStaysWithin(hash: Key -> nat, size: nat, limit: nat, items: seq<Item>)
    requires size > 0 && Within(hash, size, limit, items)
    ensures Within(hash, 2 * size, limit, items)
  {
    forall b | 0 <= b < 2 * size
      ensures |Newest(hash, 2 * size, items, b)| <= limit
    {
      DoublingSplits(hash, size, items, b);
    }
  }

  /** An insert keeps every bucket within the limit, whichever item of a full bucket goes. */
  lemma {:induction false} InsertedAtStaysWithin(hash: Key -> nat, size: nat, limit: nat, items: seq<Item>, item: Item,
                                                 pick: nat)
    requires size > 0 && limit > 0 && Within(hash, size, limit, items) && MayGo(hash, size, limit, items, item, pick)
    ensures Within(hash, size, limit, InsertedAt(hash, size, limit, items, item, pick))
  {
    forall c | 0 <= c < size
      ensures |Newest(hash, size, InsertedAt(hash, size, limit, items, item, pick), c)| <= limit
    {
      if Overflows(hash, size, limit, items, item) {
        NewestOfWithout(hash, size, items, pick, c);
        NewestOfAppended(hash, size, Without(items, pick), item, c);
      } else {
        NewestOfAppended(hash, size, items, item, c);
      }
    }
  }

  /**
   Bounded buckets: without heuristics an insert keeps every bucket within the limit, evicting exactly the oldest item
   of the bucket when that is full, and otherwise nothing.
   */
  lemma {:induction false} InsertStaysWithin(hash: Key -> nat, size: nat, limit: nat, items: seq<Item>, item: Item)
    requires size > 0 && limit > 0 && Within(hash, size, limit, items)
    ensures Within(hash, size, limit, Inserted(hash, size, limit, items, item))
    ensures var b := Slot(hash, size, item.key);
            if |Newest(hash, size, items, b)| == limit
            then OldestIn(hash, size, items, b) < |items|
                 && Inserted(hash, size, limit, items, item) == Without(items, OldestIn(hash, size, items, b)) + [item]
            else Inserted(hash, size, limit, items, item) == items + [item]
  {
    var b := Slot(hash, size, item.key);
    LastIsOldest(hash, size, items, b);
    InsertedAtStaysWithin(hash, size, limit, items, item, OldestIn(hash, size, items, b));
  }

  lemma {:induction false} RemoveStaysWithin(hash: Key -> nat, size: nat, limit: nat, items: seq<Item>, key: Key)
    requires size > 0 && Within(hash, size, limit, items)
    ensures Within(hash, size, limit, Removed(items, key))
  {
    if Find(items, key) < |items| {
      forall b | 0 <= b < size
        ensures |Newest(hash, size, Removed(items, key), b)| <= limit
      {
        NewestOfWithout(hash, size, items, Find(items, key), b);
      }
    }
  }

  // ---- The cost of automatic rehashing ------------------------------------

  /**
   With automatic rehashing from an empty table of `first` buckets: `inserts` succeeded so far, rehashes moved
   `moves` entries, and `items` are in the table now.
   */
  predicate Amortised(first: nat, size: nat, items: nat, inserts: nat, moves: nat) {
    && 1 <= first <= size
    && items <= inserts && items <= 2 * size + 1
    && moves <= 3 * size - 3
    && (if size == first then moves == 0 else inserts >= size + 2)
  }

  /** The entries moved by all rehashes total at most three times the successful inserts. */
  lemma {:induction false} MovesAreBounded(first: nat, size: nat, items: nat, inserts: nat, moves: nat)
    requires Amortised(first, size, items, inserts, moves)
    ensures moves <= 3 * inserts && items <= 2 * size + 1
  {
  }
}
