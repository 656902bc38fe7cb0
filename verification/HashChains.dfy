/** Chains seen as sequences of keys: how a heuristic reorders them, and how they start out. */
module HashChains {
  import opened HashSpec
  import opened HashBuckets

  datatype Heuristics = NoHeuristics | TransposeFound | MoveFoundToFront

  function MovedToFront<T>(s: seq<T>, i: nat): (r: seq<T>)
    requires i < |s|
    ensures |r| == |s|
  {
    [s[i]] + Without(s, i)
  }

  function Transposed<T>(s: seq<T>, i: nat): (r: seq<T>)
    requires i < |s|
    ensures |r| == |s|
  {
    if i == 0 then s else s[i - 1 := s[i]][i := s[i - 1]]
  }

  function Reordered<T>(h: Heuristics, s: seq<T>, i: nat): (r: seq<T>)
    requires i < |s|
    ensures |r| == |s|
  {
    match h
    case NoHeuristics => s
    case TransposeFound => Transposed(s, i)
    case MoveFoundToFront => MovedToFront(s, i)
  }

  ghost predicate Apart<T>(s: seq<T>, i: nat, j: nat) { i < |s| && j < |s| && i != j ==> s[i] != s[j] }

  /** Nothing occurs twice. */
  ghost predicate Distinct<T>(s: seq<T>) { forall i: nat, j: nat {:trigger Apart(s, i, j)} :: Apart(s, i, j) }

  lemma {:induction false} SameMembers<T>(s: seq<T>, i: nat)
    requires i < |s| && Distinct(s)
    ensures Distinct(MovedToFront(s, i)) && Distinct(Transposed(s, i)) && Distinct(Without(s, i))
    ensures forall e :: e in MovedToFront(s, i) <==> e in s
    ensures forall e :: e in Transposed(s, i) <==> e in s
    ensures forall e :: e in Without(s, i) <==> e in s && e != s[i]
  {
    var f, t, w := MovedToFront(s, i), Transposed(s, i), Without(s, i);
    forall e | e in s
      ensures e in f && e in t && (e == s[i] || e in w)
    {
      var k :| 0 <= k < |s| && s[k] == e;
      assert f[if k == i then 0 else if k < i then k + 1 else k] == e;
      assert t[if k == i && i > 0 then i - 1 else if k == i - 1 then i else k] == e;
      assert k == i || w[if k < i then k else k - 1] == e;
    }
    forall j: nat, k: nat
      ensures Apart(f, j, k)
    {
      assert Apart(s, if j == 0 then i else if j <= i then j - 1 else j,
                   if k == 0 then i else if k <= i then k - 1 else k);
    }
    forall j: nat, k: nat
      ensures Apart(t, j, k)
    {
      assert Apart(s, j, k) && Apart(s, j, i - 1 + if i == 0 then 1 else 0) && Apart(s, j, i);
      assert Apart(s, k, i - 1 + if i == 0 then 1 else 0) && Apart(s, k, i);
    }
    forall j: nat, k: nat
      ensures Apart(w, j, k)
    {
      assert Apart(s, if j < i then j else j + 1, if k < i then k else k + 1);
    }
    forall k | 0 <= k < |w|
      ensures w[k] != s[i]
    {
      assert Apart(s, if k < i then k else k + 1, i);
    }
  }

  lemma {:induction false} WithoutDistinct<T>(s: seq<T>, i: nat)
    requires i < |s| && Distinct(s)
    ensures Distinct(Without(s, i))
    ensures forall k | 0 <= k < |s| - 1 :: Without(s, i)[k] != s[i]
  {
    var w := Without(s, i);
    forall j: nat, k: nat
      ensures Apart(w, j, k)
    {
      assert Apart(s, if j < i then j else j + 1, if k < i then k else k + 1);
    }
    forall k | 0 <= k < |w|
      ensures w[k] != s[i]
    {
      assert Apart(s, if k < i then k else k + 1, i);
    }
  }

  lemma {:induction false} WithoutMembers<T>(s: seq<T>, i: nat)
    requires i < |s|
    ensures forall x | x in Without(s, i) :: x in s
  {
  }

  lemma {:induction false} WithoutKeeps<T>(s: seq<T>, i: nat, e: T)
    requires i < |s| && e in s && e != s[i]
    ensures e in Without(s, i)
  {
  }

  lemma {:induction false} PrependedDistinct<T>(s: seq<T>, x: T)
    requires Distinct(s) && x !in s
    ensures Distinct([x] + s)
  {
    forall i: nat, j: nat
      ensures Apart([x] + s, i, j)
    {
      assert i > 0 && j > 0 ==> Apart(s, i - 1, j - 1);
    }
  }

  lemma {:induction false} AppendedDistinct<T>(s: seq<T>, x: T)
    requires Distinct(s) && x !in s
    ensures Distinct(s + [x])
  {
    forall i: nat, j: nat
      ensures Apart(s + [x], i, j)
    {
      assert Apart(s, i, j);
    }
  }

  lemma {:induction false} PrefixDistinct<T>(s: seq<T>, n: nat)
    requires Distinct(s) && n <= |s|
    ensures Distinct(s[..n])
  {
    forall i: nat, j: nat
      ensures Apart(s[..n], i, j)
    {
      assert Apart(s, i, j);
    }
  }

  /** The position of a key in a chain, or the length of the chain when it is absent. */
  function PlaceIn(chain: seq<Key>, key: Key): (i: nat)
    ensures i <= |chain|
    ensures i < |chain| ==> chain[i] == key
    ensures forall j | 0 <= j < i :: chain[j] != key
  {
    if chain == [] || chain[0] == key then 0 else 1 + PlaceIn(chain[1..], key)
  }

  lemma {:induction false} PlaceIs(chain: seq<Key>, key: Key, i: nat)
    requires i <= |chain| && (i < |chain| ==> chain[i] == key) && forall j | 0 <= j < i :: chain[j] != key
    ensures PlaceIn(chain, key) == i
  {
  }

  /** What looking a key up does to its chain. */
  function Sought(h: Heuristics, chain: seq<Key>, key: Key): seq<Key> {
    var i := PlaceIn(chain, key);
    if i < |chain| then Reordered(h, chain, i) else chain
  }

  /** What removing a key does to its chain. */
  function Dropped(chain: seq<Key>, key: Key): seq<Key> {
    var i := PlaceIn(chain, key);
    if i < |chain| then Without(chain, i) else chain
  }

  /** What entering a new key does to its chain; `full` says that the last key goes. */
  function Entered(chain: seq<Key>, key: Key, full: bool): seq<Key> {
    [key] + if full && chain != [] then chain[..|chain| - 1] else chain
  }

  function Mapped<S, T>(f: S -> T, s: seq<S>): (r: seq<T>)
    ensures |r| == |s| && forall i | 0 <= i < |s| :: r[i] == f(s[i])
  {
    seq(|s|, i requires 0 <= i < |s| => f(s[i]))
  }

  function ItemKeys(items: seq<Item>): (keys: seq<Key>)
    ensures |keys| == |items| && forall i | 0 <= i < |items| :: keys[i] == items[i].key
  {
    Mapped((x: Item) => x.key, items)
  }

  /** The chains of a table that was filled from oldest to newest. */
  function Listed(hash: Key -> nat, size: nat, items: seq<Item>): (chains: seq<seq<Key>>)
    requires size > 0
    ensures |chains| == size
    ensures forall b | 0 <= b < size :: chains[b] == ItemKeys(Newest(hash, size, items, b))
  {
    seq(size, b requires 0 <= b < size => ItemKeys(Newest(hash, size, items, b)))
  }

  // ---- Well formed chains -------------------------------------------------

  /** A key is in the chain of bucket `b` exactly if an item of that bucket has it. */
  predicate InChain(hash: Key -> nat, size: nat, items: seq<Item>, chain: seq<Key>, b: nat, key: Key)
    requires size > 0
  {
    key in chain <==> Find(items, key) < |items| && Slot(hash, size, key) == b
  }

  /** The chain lists the keys of its bucket, each once, in whatever order. */
  ghost predicate Tidy(hash: Key -> nat, size: nat, items: seq<Item>, chain: seq<Key>, b: nat)
    requires size > 0
  {
    && Distinct(chain)
    && (forall k {:trigger InChain(hash, size, items, chain, b, k)} :: InChain(hash, size, items, chain, b, k))
  }

  ghost predicate AllTidy(hash: Key -> nat, size: nat, items: seq<Item>, chains: seq<seq<Key>>)
    requires size > 0
  {
    |chains| == size && UniqueKeys(items)
    && forall b {:trigger chains[b]} | 0 <= b < size :: Tidy(hash, size, items, chains[b], b)
  }

  lemma {:induction false} PlaceOfMember(chain: seq<Key>, key: Key)
    ensures PlaceIn(chain, key) < |chain| <==> key in chain
  {
    if key in chain {
      var i :| 0 <= i < |chain| && chain[i] == key;
    }
  }

  lemma {:induction false} FoundMember(items: seq<Item>, key: Key)
    ensures Find(items, key) < |items| <==> key in ItemKeys(items)
  {
    if key in ItemKeys(items) {
      var i :| 0 <= i < |items| && ItemKeys(items)[i] == key;
    }
  }

  lemma {:induction false} SoughtMembers(h: Heuristics, chain: seq<Key>, key: Key)
    requires Distinct(chain)
    ensures Distinct(Sought(h, chain, key)) && forall k :: k in Sought(h, chain, key) <==> k in chain
  {
    var i := PlaceIn(chain, key);
    if i < |chain| {
      SameMembers(chain, i);
    }
  }

  /** Where a key that was found is afterwards. */
  function PlaceAfter(h: Heuristics, i: nat): nat {
    match h
    case NoHeuristics => i
    case TransposeFound => if i > 0 then i - 1 else 0
    case MoveFoundToFront => 0
  }

  lemma {:induction false} ReorderedPlace(h: Heuristics, chain: seq<Key>, i: nat)
    requires Distinct(chain) && i < |chain|
    ensures var after := Reordered(h, chain, i);
            PlaceIn(after, chain[i]) == PlaceAfter(h, i) && Without(after, PlaceAfter(h, i)) == Without(chain, i)
  {
    var after, p := Reordered(h, chain, i), PlaceAfter(h, i);
    forall j | 0 <= j < p
      ensures after[j] != chain[i]
    {
      assert Apart(chain, j, i);
    }
    PlaceIs(after, chain[i], p);
  }

  /**
   What a lookup does to its chain: the key that is found stays where it is, goes one place nearer to the front, or
   goes to the front, and all others keep their order; a key that is not found changes nothing.
   */
  lemma {:induction false} SoughtMeans(h: Heuristics, chain: seq<Key>, key: Key)
    requires Distinct(chain)
    ensures var after, i := Sought(h, chain, key), PlaceIn(chain, key);
            && Dropped(after, key) == Dropped(chain, key)
            && (key in chain ==> PlaceIn(after, key) == match h
                                                        case NoHeuristics => i
                                                        case TransposeFound => if i > 0 then i - 1 else 0
                                                        case MoveFoundToFront => 0)
            && (key !in chain ==> after == chain)
  {
    PlaceOfMember(chain, key);
    if key in chain {
      ReorderedPlace(h, chain, PlaceIn(chain, key));
    }
  }

  lemma {:induction false} DroppedMembers(chain: seq<Key>, key: Key)
    requires Distinct(chain)
    ensures Distinct(Dropped(chain, key)) && forall k :: k in Dropped(chain, key) <==> k in chain && k != key
  {
    PlaceOfMember(chain, key);
    if PlaceIn(chain, key) < |chain| {
      SameMembers(chain, PlaceIn(chain, key));
    }
  }

  /** The last key of a full chain goes as if it had been removed. */
  lemma {:induction false} LastIsDropped(chain: seq<Key>)
    requires Distinct(chain) && chain != []
    ensures chain[..|chain| - 1] == Dropped(chain, chain[|chain| - 1])
  {
    var last := |chain| - 1;
    forall j | 0 <= j < last
      ensures chain[j] != chain[last]
    {
      assert Apart(chain, j, last);
    }
    PlaceIs(chain, chain[last], last);
  }

  lemma {:induction false} UniqueIsDistinct(items: seq<Item>)
    requires UniqueKeys(items)
    ensures Distinct(ItemKeys(items))
  {
    forall i: nat, j: nat
      ensures Apart(ItemKeys(items), i, j)
    {
      assert KeysApart(items, i, j) && KeysApart(items, j, i);
    }
  }

  lemma {:induction false} FindInFront(items: seq<Item>, key: Key)
    requires UniqueKeys(items) && items != []
    ensures var front, last := items[..|items| - 1], items[|items| - 1];
            && (Find(items, key) < |items| <==> Find(front, key) < |front| || key == last.key)
            && (Find(front, key) < |front| ==> key != last.key)
  {
    var front, last := items[..|items| - 1], items[|items| - 1];
    if Find(front, key) < |front| {
      FoundAt(items, Find(front, key));
      assert KeysApart(items, Find(front, key), |front|);
    }
  }

  /** The chain of a bucket after all items were put in from oldest to newest. */
  lemma {:induction false} ListedIsTidy(hash: Key -> nat, size: nat, items: seq<Item>, b: nat)
    requires size > 0 && UniqueKeys(items)
    ensures Tidy(hash, size, items, ItemKeys(Newest(hash, size, items, b)), b)
  {
    if items != [] {
      var front, last := items[..|items| - 1], items[|items| - 1];
      PrefixUnique(items, |front|);
      ListedIsTidy(hash, size, front, b);
      FoundAt(items, |front|);
      var rest, chain := ItemKeys(Newest(hash, size, front, b)), ItemKeys(Newest(hash, size, items, b));
      assert chain == if Slot(hash, size, last.key) == b then [last.key] + rest else rest;
      forall k
        ensures InChain(hash, size, items, chain, b, k)
      {
        assert InChain(hash, size, front, rest, b, k);
        FindInFront(items, k);
      }
      if Slot(hash, size, last.key) == b {
        assert InChain(hash, size, front, rest, b, last.key);
        FindInFront(items, last.key);
        PrependedDistinct(rest, last.key);
      }
    }
  }

  lemma {:induction false} TidyWithout(hash: Key -> nat, size: nat, items: seq<Item>, p: nat, chain: seq<Key>, b: nat)
    requires size > 0 && UniqueKeys(items) && p < |items| && Tidy(hash, size, items, chain, b)
    ensures UniqueKeys(Without(items, p))
    ensures Tidy(hash, size, Without(items, p), Dropped(chain, items[p].key), b)
  {
    WithoutIndex(items, p);
    DroppedMembers(chain, items[p].key);
    forall k
      ensures InChain(hash, size, Without(items, p), Dropped(chain, items[p].key), b, k)
    {
      assert InChain(hash, size, items, chain, b, k);
      WithoutAt(items, p, k);
    }
  }

  lemma {:induction false} TidyAppended(hash: Key -> nat, size: nat, items: seq<Item>, item: Item, chain: seq<Key>,
                                        b: nat)
    requires size > 0 && UniqueKeys(items) && Find(items, item.key) == |items| && Tidy(hash, size, items, chain, b)
    ensures UniqueKeys(items + [item])
    ensures Tidy(hash, size, items + [item], if Slot(hash, size, item.key) == b then [item.key] + chain else chain, b)
  {
    AppendedUnique(items, item);
    assert InChain(hash, size, items, chain, b, item.key);
    PrependedDistinct(chain, item.key);
    var chain' := if Slot(hash, size, item.key) == b then [item.key] + chain else chain;
    forall k
      ensures InChain(hash, size, items + [item], chain', b, k)
    {
      assert InChain(hash, size, items, chain, b, k);
      FindInFront(items + [item], k);
      assert (items + [item])[..|items|] == items;
    }
  }

  lemma {:induction false} TidySought(hash: Key -> nat, size: nat, items: seq<Item>, h: Heuristics, chain: seq<Key>,
                                      b: nat, key: Key)
    requires size > 0 && Tidy(hash, size, items, chain, b)
    ensures Tidy(hash, size, items, Sought(h, chain, key), b)
  {
    SoughtMembers(h, chain, key);
    forall k
      ensures InChain(hash, size, items, Sought(h, chain, key), b, k)
    {
      assert InChain(hash, size, items, chain, b, k);
    }
  }

  lemma {:induction false} TidyReplaced(hash: Key -> nat, size: nat, items: seq<Item>, key: Key, data: nat,
                                        chain: seq<Key>, b: nat)
    requires size > 0 && UniqueKeys(items) && Tidy(hash, size, items, chain, b)
    ensures UniqueKeys(Replaced(items, key, data)) && Tidy(hash, size, Replaced(items, key, data), chain, b)
  {
    FindAfterReplace(items, key, data, key);
    forall k
      ensures InChain(hash, size, Replaced(items, key, data), chain, b, k)
    {
      assert InChain(hash, size, items, chain, b, k);
      FindAfterReplace(items, key, data, k);
    }
  }
}
