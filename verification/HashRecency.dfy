/**
 Which item goes when a bucket is full: without heuristics the one of its bucket inserted longest ago, and when found
 entries move to the front, the one of its bucket used longest ago.  A rehash lists the chains by age again, so that
 only uses since the last one count.
 */
module HashRecency {
  import opened HashSpec
  import opened HashBuckets
  import opened HashChains
  import opened HashTable
  import opened HashRuns

  // ---- Keys by use --------------------------------------------------------------

  /** The keys of bucket `b`, the one used last first. */
  function Recent(hash: Key -> nat, size: nat, used: seq<Key>, b: nat): seq<Key>
    requires size > 0
  {
    if used == [] then []
    else
      var front, last := used[..|used| - 1], used[|used| - 1];
      if Slot(hash, size, last) == b then [last] + Recent(hash, size, front, b) else Recent(hash, size, front, b)
  }

  /** The item that an insert pushes out. */
  function GoneBy(c: Settings, s: State, op: Op): Evicted
    requires s.Shaped()
  {
    var answer := Step(c, s, op).1;
    if answer.Status? then answer.evicted else Nothing
  }

  /** The keys in the order of their use when an insert has made room. */
  function UsedFor(c: Settings, s: State, used: seq<Key>): seq<Key> {
    if SizeFor(c, s) != s.size then ItemKeys(s.items) else used
  }

  /** A use of a key; it counts only if found entries move to the front. */
  function Use(c: Settings, s: State, used: seq<Key>, key: Key): seq<Key> {
    if c.heuristics == MoveFoundToFront && Find(s.items, key) < |s.items| then Dropped(used, key) + [key] else used
  }

  /** The keys in the order of their use after one more call, the one used last at the end. */
  function UsedStep(c: Settings, s: State, used: seq<Key>, op: Op): seq<Key>
    requires s.Shaped()
  {
    match op
    case Insert(key, _, _) =>
      if !Enters(s, op) then used
      else
        var gone := GoneBy(c, s, op);
        (if gone.Gone? then Dropped(UsedFor(c, s, used), gone.item.key) else UsedFor(c, s, used)) + [key]
    case Get(key) => Use(c, s, used, key)
    case Replace(key, _) => Use(c, s, used, key)
    case Remove(key) => Dropped(used, key)
    case Rehash(_) => ItemKeys(s.items)
  }

  /** The same after any calls on a new table. */
  function UsedRun(c: Settings, size: nat, ops: seq<Op>): seq<Key>
    requires size > 0
    decreases |ops|
  {
    if ops == [] then []
    else
      var n := |ops| - 1;
      UsedStep(c, Run(c, Fresh(size), ops[..n]).0, UsedRun(c, size, ops[..n]), ops[n])
  }

  // ---- Buckets of keys by use -----------------------------------------------------

  lemma {:induction false} RecentAppended(hash: Key -> nat, size: nat, used: seq<Key>, key: Key, b: nat)
    requires size > 0
    ensures Recent(hash, size, used + [key], b)
            == if Slot(hash, size, key) == b then [key] + Recent(hash, size, used, b) else Recent(hash, size, used, b)
  {
  }

  lemma {:induction false} RecentMembers(hash: Key -> nat, size: nat, used: seq<Key>, b: nat)
    requires size > 0
    ensures forall k :: k in Recent(hash, size, used, b) <==> k in used && Slot(hash, size, k) == b
  {
    if used != [] {
      var front, last := used[..|used| - 1], used[|used| - 1];
      RecentMembers(hash, size, front, b);
      assert used == front + [last];
    }
  }

  lemma {:induction false} FrontDistinct(used: seq<Key>)
    requires Distinct(used) && used != []
    ensures var front, last := used[..|used| - 1], used[|used| - 1]; Distinct(front) && last !in front
  {
    var front, last := used[..|used| - 1], used[|used| - 1];
    PrefixDistinct(used, |front|);
    forall i | 0 <= i < |front|
      ensures front[i] != last
    {
      assert Apart(used, i, |used| - 1);
    }
  }

  /** Dropping from the end of a list, or from before it. */
  lemma {:induction false} DroppedFromFront(used: seq<Key>, key: Key)
    requires Distinct(used) && used != []
    ensures var front, last := used[..|used| - 1], used[|used| - 1];
            Dropped(used, key) == if key == last then front else Dropped(front, key) + [last]
  {
    var front, last := used[..|used| - 1], used[|used| - 1];
    FrontDistinct(used);
    var i := PlaceIn(front, key);
    if key == last {
      PlaceOfMember(front, key);
      PlaceIs(used, key, |front|);
    } else if i < |front| {
      PlaceIs(used, key, i);
      WithoutInFront(used, i);
    } else {
      PlaceIs(used, key, |used|);
      assert used == front + [last];
    }
  }

  lemma {:induction false} DroppedFromHead(chain: seq<Key>, head: Key, key: Key)
    ensures Dropped([head] + chain, key) == if key == head then chain else [head] + Dropped(chain, key)
  {
    var i, longer := PlaceIn(chain, key), [head] + chain;
    assert longer[1..] == chain;
    if key != head && i < |chain| {
      WithoutNext(head, chain, i);
    }
  }

  lemma {:induction false} DroppedAbsent(chain: seq<Key>, key: Key)
    requires key !in chain
    ensures Dropped(chain, key) == chain
  {
    PlaceOfMember(chain, key);
  }

  /** Dropping a key drops it from its bucket and from no other. */
  lemma {:induction false} RecentDropped(hash: Key -> nat, size: nat, used: seq<Key>, key: Key, b: nat)
    requires size > 0 && Distinct(used)
    ensures Recent(hash, size, Dropped(used, key), b) == Dropped(Recent(hash, size, used, b), key)
  {
    if used != [] {
      var front, last := used[..|used| - 1], used[|used| - 1];
      DroppedFromFront(used, key);
      FrontDistinct(used);
      RecentMembers(hash, size, front, b);
      if key == last {
        if Slot(hash, size, last) == b {
          DroppedFromHead(Recent(hash, size, front, b), last, key);
        } else {
          DroppedAbsent(Recent(hash, size, front, b), key);
        }
      } else {
        RecentDropped(hash, size, front, key, b);
        RecentAppended(hash, size, Dropped(front, key), last, b);
        DroppedFromHead(Recent(hash, size, front, b), last, key);
      }
    }
  }

  /** The last of a bucket is the first of all keys that belongs in it. */
  lemma {:induction false} LastOfRecent(hash: Key -> nat, size: nat, used: seq<Key>, b: nat) returns (j: nat)
    requires size > 0 && Recent(hash, size, used, b) != []
    ensures var chain := Recent(hash, size, used, b);
            j < |used| && used[j] == chain[|chain| - 1] && Slot(hash, size, used[j]) == b
    ensures forall k | 0 <= k < j :: Slot(hash, size, used[k]) != b
  {
    var front, last := used[..|used| - 1], used[|used| - 1];
    if Recent(hash, size, front, b) == [] {
      RecentMembers(hash, size, front, b);
      j := |front|;
      forall k | 0 <= k < j
        ensures Slot(hash, size, used[k]) != b
      {
        assert front[k] in front;
      }
    } else {
      j := LastOfRecent(hash, size, front, b);
    }
  }

  lemma {:induction false} RecentOfItems(hash: Key -> nat, size: nat, items: seq<Item>, b: nat)
    requires size > 0
    ensures Recent(hash, size, ItemKeys(items), b) == ItemKeys(Newest(hash, size, items, b))
  {
    if items != [] {
      var front := items[..|items| - 1];
      RecentOfItems(hash, size, front, b);
      assert ItemKeys(items)[..|items| - 1] == ItemKeys(front);
      var n := Newest(hash, size, front, b);
      assert ItemKeys([items[|items| - 1]] + n) == [items[|items| - 1].key] + ItemKeys(n);
    }
  }

  // ---- The chains are the buckets by use --------------------------------------------

  ghost predicate Traced(hash: Key -> nat, size: nat, chains: seq<seq<Key>>, used: seq<Key>)
    requires size > 0
  {
    |chains| == size && Distinct(used)
    && forall b {:trigger chains[b]} | 0 <= b < size :: chains[b] == Recent(hash, size, used, b)
  }

  ghost predicate TracedState(c: Settings, s: State, used: seq<Key>) {
    && TidyState(c, s) && Traced(c.hash, s.size, s.chains, used)
    && (c.heuristics == NoHeuristics ==> used == ItemKeys(s.items))
  }

  lemma {:induction false} ListedTraced(hash: Key -> nat, size: nat, items: seq<Item>)
    requires size > 0 && UniqueKeys(items)
    ensures Traced(hash, size, Listed(hash, size, items), ItemKeys(items))
  {
    UniqueIsDistinct(items);
    forall b | 0 <= b < size
      ensures Listed(hash, size, items)[b] == Recent(hash, size, ItemKeys(items), b)
    {
      RecentOfItems(hash, size, items, b);
    }
  }

  /** A key is among those used exactly if an item has it. */
  lemma {:induction false} UsedAreItems(c: Settings, s: State, used: seq<Key>, key: Key)
    requires TracedState(c, s, used)
    ensures key in used <==> Find(s.items, key) < |s.items|
  {
    var b := Slot(c.hash, s.size, key);
    RecentMembers(c.hash, s.size, used, b);
    assert InChain(c.hash, s.size, s.items, s.chains[b], b, key);
  }

  lemma {:induction false} DroppedTraced(hash: Key -> nat, size: nat, chains: seq<seq<Key>>, used: seq<Key>, key: Key)
    requires size > 0 && Traced(hash, size, chains, used)
    ensures var b := Slot(hash, size, key);
            Traced(hash, size, chains[b := Dropped(chains[b], key)], Dropped(used, key))
  {
    var own := Slot(hash, size, key);
    DroppedMembers(used, key);
    forall b | 0 <= b < size
      ensures chains[own := Dropped(chains[own], key)][b] == Recent(hash, size, Dropped(used, key), b)
    {
      RecentDropped(hash, size, used, key, b);
      if b != own {
        RecentMembers(hash, size, used, b);
        DroppedAbsent(chains[b], key);
      }
    }
  }

  lemma {:induction false} AppendedTraced(hash: Key -> nat, size: nat, chains: seq<seq<Key>>, used: seq<Key>, key: Key)
    requires size > 0 && Traced(hash, size, chains, used) && key !in used
    ensures var b := Slot(hash, size, key); Traced(hash, size, chains[b := [key] + chains[b]], used + [key])
  {
    AppendedDistinct(used, key);
    var own := Slot(hash, size, key);
    forall b | 0 <= b < size
      ensures chains[own := [key] + chains[own]][b] == Recent(hash, size, used + [key], b)
    {
      RecentAppended(hash, size, used, key, b);
    }
  }

  /** Moving a key to the front of its chain is dropping it and putting it in again. */
  lemma {:induction false} SoughtTraced(c: Settings, s: State, used: seq<Key>, key: Key)
    requires c.heuristics != TransposeFound && TracedState(c, s, used)
    ensures Traced(c.hash, s.size, Searched(c, s, key), Use(c, s, used, key))
  {
    var b := Slot(c.hash, s.size, key);
    var chain := s.chains[b];
    UsedAreItems(c, s, used, key);
    RecentMembers(c.hash, s.size, used, b);
    PlaceOfMember(chain, key);
    if c.heuristics == MoveFoundToFront && key in used {
      DroppedTraced(c.hash, s.size, s.chains, used, key);
      DroppedMembers(used, key);
      var without := s.chains[b := Dropped(chain, key)];
      AppendedTraced(c.hash, s.size, without, Dropped(used, key), key);
      assert Sought(c.heuristics, chain, key) == [key] + Dropped(chain, key);
      assert without[b := [key] + without[b]] == Searched(c, s, key);
    } else {
      assert Sought(c.heuristics, chain, key) == chain;
      assert Searched(c, s, key) == s.chains;
    }
  }

  /** Room for an insert keeps the trace, with the ages if it has doubled the table. */
  lemma {:induction false} RoomTraced(c: Settings, s: State, used: seq<Key>)
    requires TracedState(c, s, used)
    ensures Traced(c.hash, SizeFor(c, s), ChainsFor(c, s), UsedFor(c, s, used))
    ensures forall k :: k in UsedFor(c, s, used) <==> Find(s.items, k) < |s.items|
  {
    ListedTraced(c.hash, SizeFor(c, s), s.items);
    forall k
      ensures k in UsedFor(c, s, used) <==> Find(s.items, k) < |s.items|
    {
      UsedAreItems(c, s, used, k);
      FoundMember(s.items, k);
    }
  }

  lemma {:induction false} EnteredTraced(c: Settings, s: State, used: seq<Key>, op: Op)
    requires TracedState(c, s, used) && Enters(s, op)
    ensures var s' := Step(c, s, op).0; Traced(c.hash, s'.size, s'.chains, UsedStep(c, s, used, op))
  {
    var size, chains, start := SizeFor(c, s), ChainsFor(c, s), UsedFor(c, s, used);
    var b, chain := Slot(c.hash, size, op.key), ChainFor(c, s, op.key);
    RoomTraced(c, s, used);
    RoomIsTidy(c, s);
    VictimMayGo(c, s, op.key, op.data);
    if Full(c, s, op.key, op.data) {
      var gone := s.items[Victim(c, s, op.key)].key;
      assert InChain(c.hash, size, s.items, chain, b, gone);
      LastIsDropped(chain);
      DroppedTraced(c.hash, size, chains, start, gone);
      DroppedMembers(start, gone);
      var without := chains[b := Dropped(chain, gone)];
      AppendedTraced(c.hash, size, without, Dropped(start, gone), op.key);
      assert without[b := [op.key] + without[b]] == Step(c, s, op).0.chains;
    } else {
      AppendedTraced(c.hash, size, chains, start, op.key);
    }
  }

  lemma {:induction false} KeysOfRemoved(items: seq<Item>, key: Key)
    ensures ItemKeys(Removed(items, key)) == Dropped(ItemKeys(items), key)
  {
    PlaceIs(ItemKeys(items), key, Find(items, key));
  }

  lemma {:induction false} KeysAppended(items: seq<Item>, item: Item)
    ensures ItemKeys(items + [item]) == ItemKeys(items) + [item.key]
  {
  }

  lemma {:induction false} EnteredByAge(c: Settings, s: State, used: seq<Key>, op: Op)
    requires c.heuristics == NoHeuristics && TracedState(c, s, used) && Enters(s, op)
    ensures UsedStep(c, s, used, op) == ItemKeys(Step(c, s, op).0.items)
  {
    var item, pick := Item(op.key, op.data), Victim(c, s, op.key);
    VictimMayGo(c, s, op.key, op.data);
    if Full(c, s, op.key, op.data) {
      FoundAt(s.items, pick);
      KeysOfRemoved(s.items, s.items[pick].key);
      KeysAppended(Without(s.items, pick), item);
    } else {
      KeysAppended(s.items, item);
    }
  }

  /** Without heuristics the keys in the order of their use are the items by age. */
  lemma {:induction false} UsedByAge(c: Settings, s: State, used: seq<Key>, op: Op)
    requires c.heuristics == NoHeuristics && TracedState(c, s, used)
    ensures UsedStep(c, s, used, op) == ItemKeys(Step(c, s, op).0.items)
  {
    match op
    case Insert(_, _, _) =>
      if Enters(s, op) {
        EnteredByAge(c, s, used, op);
      }
    case Get(_) =>
    case Replace(key, data) => assert ItemKeys(Replaced(s.items, key, data)) == ItemKeys(s.items);
    case Remove(key) => KeysOfRemoved(s.items, key);
    case Rehash(_) =>
  }

  lemma {:induction false} StepTraced(c: Settings, s: State, used: seq<Key>, op: Op)
    requires c.heuristics != TransposeFound && TracedState(c, s, used)
    ensures TracedState(c, Step(c, s, op).0, UsedStep(c, s, used, op))
  {
    StepIsTidy(c, s, op);
    if c.heuristics == NoHeuristics {
      UsedByAge(c, s, used, op);
    }
    match op
    case Insert(_, _, _) =>
      if Enters(s, op) {
        EnteredTraced(c, s, used, op);
      }
    case Get(key) => SoughtTraced(c, s, used, key);
    case Replace(key, _) => SoughtTraced(c, s, used, key);
    case Remove(key) => DroppedTraced(c.hash, s.size, s.chains, used, key);
    case Rehash(n) => ListedTraced(c.hash, RoundUp(1, n), s.items);
  }

  lemma {:induction false} RunTraced(c: Settings, size: nat, ops: seq<Op>)
    requires size > 0 && c.heuristics != TransposeFound
    ensures TracedState(c, Run(c, Fresh(size), ops).0, UsedRun(c, size, ops))
    decreases |ops|
  {
    FreshMeans(c, size);
    if ops != [] {
      var n := |ops| - 1;
      RunTraced(c, size, ops[..n]);
      StepTraced(c, Run(c, Fresh(size), ops[..n]).0, UsedRun(c, size, ops[..n]), ops[n]);
    }
  }

  /** Of the keys in the bucket of `key`, the one at `j` comes first. */
  predicate FirstOf(hash: Key -> nat, size: nat, order: seq<Key>, key: Key, j: nat)
    requires size > 0
  {
    && j < |order| && Slot(hash, size, order[j]) == Slot(hash, size, key)
    && forall k | 0 <= k < j :: Slot(hash, size, order[k]) != Slot(hash, size, key)
  }

  /** The key that an insert pushes out, if any, is the first of its bucket in this order. */
  ghost predicate FirstGoes(c: Settings, s: State, order: seq<Key>, op: Op)
    requires s.Shaped()
  {
    GoneBy(c, s, op).Gone? ==>
      exists j: nat {:trigger order[j]} ::
        j < |order| && order[j] == GoneBy(c, s, op).item.key && FirstOf(c.hash, SizeFor(c, s), order, op.key, j)
  }

  lemma {:induction false} LeastRecentNow(c: Settings, s: State, used: seq<Key>, op: Op)
    requires TracedState(c, s, used)
    ensures FirstGoes(c, s, UsedFor(c, s, used), op)
  {
    if GoneBy(c, s, op).Gone? {
      RoomTraced(c, s, used);
      VictimMayGo(c, s, op.key, op.data);
      var j := LastOfRecent(c.hash, SizeFor(c, s), UsedFor(c, s, used), Slot(c.hash, SizeFor(c, s), op.key));
    }
  }

  /**
   After any calls on a new table, an insert that finds its bucket full pushes out the key of that bucket used longest
   ago: all keys used before it belong in other buckets.  Without heuristics the order of use is that of age.
   */
  lemma {:induction false} LeastRecentGoes(c: Settings, size: nat, ops: seq<Op>, op: Op)
    requires size > 0 && c.heuristics != TransposeFound
    ensures var s := Run(c, Fresh(size), ops).0;
            var order := UsedFor(c, s, UsedRun(c, size, ops));
            FirstGoes(c, s, order, op) && (c.heuristics == NoHeuristics ==> order == ItemKeys(s.items))
  {
    RunTraced(c, size, ops);
    LeastRecentNow(c, Run(c, Fresh(size), ops).0, UsedRun(c, size, ops), op);
  }
}
