/** Whole runs of a hash table: what any sequence of calls does to its items, its buckets and its cost. */
module HashRuns {
  import opened HashSpec
  import opened HashBuckets
  import opened HashChains
  import opened HashLists
  import opened HashTable
  import opened PowersOfTwo

  datatype Op =
    | Insert(key: Key, data: nat, canAllocate: bool)
    | Get(key: Key)
    | Replace(key: Key, data: nat)
    | Remove(key: Key)
    | Rehash(n: nat)

  /** What a call returns; an insert also hands over the item it pushed out. */
  datatype Answer = Status(status: Status, evicted: Evicted) | Data(data: nat) | Done

  /** The settings that stay the same during a run. */
  datatype Settings = Settings(hash: Key -> nat, limit: nat, automatic: bool, heuristics: Heuristics)

  /**
   The table as its callers see it, the chains of its buckets as keys, and what it has cost: successful inserts, and
   entries moved by rehashes.
   */
  datatype State = State(size: nat, items: seq<Item>, chains: seq<seq<Key>>, inserts: nat, moves: nat)
  {
    predicate Shaped() { 0 < size == |chains| }
  }

  predicate Proper(op: Op) { op.Insert? || op.Replace? ==> op.data != NULL }

  /** The least power of two not below `n`, from `size` on. */
  function RoundUp(size: nat, n: nat): (r: nat)
    requires size > 0
    ensures r > 0
    decreases n - size
  {
    if size >= n then size else RoundUp(2 * size, n)
  }

  lemma {:induction false} RoundUpIs(size: nat, n: nat, j: nat)
    requires RoundedUp(size, n) && Pow2(j) <= size
    ensures RoundUp(Pow2(j), n) == size
    decreases size - Pow2(j)
  {
    var k: nat :| size == Pow2(k);
    if j < k {
      Pow2Monotone(j, k - 1);
      assert Pow2(j + 1) == 2 * Pow2(j);
      Pow2Monotone(j + 1, k);
      RoundUpIs(size, n, j + 1);
    } else {
      Pow2Monotone(k, j);
    }
  }

  /** Whether an insert enters its key. */
  predicate Enters(s: State, op: Op) { op.Insert? && Find(s.items, op.key) == |s.items| && op.canAllocate }

  /** The size of the table once an insert has made room. */
  function SizeFor(c: Settings, s: State): nat { if c.automatic && |s.items| > 2 * s.size then 2 * s.size else s.size }

  /** The chains once an insert has made room. */
  function ChainsFor(c: Settings, s: State): (chains: seq<seq<Key>>)
    requires s.Shaped()
    ensures |chains| == SizeFor(c, s)
  {
    if SizeFor(c, s) != s.size then Listed(c.hash, SizeFor(c, s), s.items) else s.chains
  }

  /** The chain that an insert of `key` goes to. */
  function ChainFor(c: Settings, s: State, key: Key): seq<Key>
    requires s.Shaped()
  {
    ChainsFor(c, s)[Slot(c.hash, SizeFor(c, s), key)]
  }

  /** Which item goes if that chain is full: the last of it. */
  function Victim(c: Settings, s: State, key: Key): nat
    requires s.Shaped()
  {
    var chain := ChainFor(c, s, key);
    if chain == [] then |s.items| else Find(s.items, chain[|chain| - 1])
  }

  predicate Full(c: Settings, s: State, key: Key, data: nat)
    requires s.Shaped()
  {
    Overflows(c.hash, SizeFor(c, s), c.limit, s.items, Item(key, data))
  }

  /** An insert that enters its key: in front of its chain, whose last goes if it is full. */
  function EnterStep(c: Settings, s: State, key: Key, data: nat): (r: (State, Answer))
    requires s.Shaped()
    ensures r.0.Shaped()
  {
    var size, pick, full := SizeFor(c, s), Victim(c, s, key), Full(c, s, key, data);
    var b := Slot(c.hash, size, key);
    (State(size, InsertedAt(c.hash, size, c.limit, s.items, Item(key, data), pick),
           ChainsFor(c, s)[b := Entered(ChainFor(c, s, key), key, full)], s.inserts + 1,
           if size != s.size then s.moves + |s.items| else s.moves),
     Status(Ok, if full && pick < |s.items| then Gone(s.items[pick]) else Nothing))
  }

  /** The chains once a key has been looked up. */
  function Searched(c: Settings, s: State, key: Key): (chains: seq<seq<Key>>)
    requires s.Shaped()
    ensures |chains| == s.size
  {
    var b := Slot(c.hash, s.size, key);
    s.chains[b := Sought(c.heuristics, s.chains[b], key)]
  }

  /** The chains once a key has been removed. */
  function Unlisted(c: Settings, s: State, key: Key): (chains: seq<seq<Key>>)
    requires s.Shaped()
    ensures |chains| == s.size
  {
    var b := Slot(c.hash, s.size, key);
    s.chains[b := Dropped(s.chains[b], key)]
  }

  /** One call. */
  function Step(c: Settings, s: State, op: Op): (r: (State, Answer))
    requires s.Shaped()
    ensures r.0.Shaped()
  {
    match op
    case Insert(key, data, canAllocate) =>
      if Find(s.items, key) < |s.items| then (s, Status(AlreadyInHash, Nothing))
      else if !canAllocate then (s, Status(Error, Nothing))
      else EnterStep(c, s, key, data)
    case Get(key) => (s.(chains := Searched(c, s, key)), Data(Lookup(s.items, key)))
    case Replace(key, data) =>
      (s.(items := Replaced(s.items, key, data), chains := Searched(c, s, key)), Data(Lookup(s.items, key)))
    case Remove(key) =>
      (s.(items := Removed(s.items, key), chains := Unlisted(c, s, key)), Data(Lookup(s.items, key)))
    case Rehash(n) =>
      var size := RoundUp(1, n);
      (State(size, s.items, Listed(c.hash, size, s.items), s.inserts, s.moves + |s.items|), Done)
  }

  function Run(c: Settings, s: State, ops: seq<Op>): (r: (State, seq<Answer>))
    requires s.Shaped()
    ensures r.0.Shaped() && |r.1| == |ops|
    decreases |ops|
  {
    if ops == [] then (s, [])
    else
      var n := |ops| - 1;
      var (s1, answers) := Run(c, s, ops[..n]);
      var (s2, answer) := Step(c, s1, ops[n]);
      (s2, answers + [answer])
  }

  ghost predicate NoRehash(ops: seq<Op>) { forall i | 0 <= i < |ops| :: !ops[i].Rehash? }

  /** A new table. */
  function Fresh(size: nat): (s: State)
    ensures size > 0 ==> s.Shaped()
  {
    State(size, [], seq(size, _ => []), 0, 0)
  }

  // ---- The table in place does what the steps say ------------------------------

  /** The table holds the items of `s` in the chains of `s`. */
  ghost predicate Holds(t: Table, c: Settings, s: State)
    reads t, t.ppEntries, t.pNr, t.age
  {
    && t.Valid() && t.fnHash == c.hash && t.bucketLimit == c.limit && t.iAutomaticRehash == c.automatic
    && t.iHeuristics == c.heuristics && t.iSize == s.size && t.Items() == s.items && t.AllKeys() == s.chains
  }

  /** What an insert needs to do to be the step: the key goes in front of its chain and the last of it out. */
  ghost predicate EntersInFront(c: Settings, s: State, key: Key, data: nat, items: seq<Item>, keys: seq<seq<Key>>,
                                evicted: Evicted)
    requires s.Shaped()
  {
    var b, chain := Slot(c.hash, SizeFor(c, s), key), ChainFor(c, s, key);
    && Table.Result(c.hash, SizeFor(c, s), c.limit, s.items, items, Item(key, data), evicted)
    && keys == ChainsFor(c, s)[b := Entered(chain, key, evicted.Gone?)]
    && (evicted.Gone? ==> chain != [] && evicted.item.key == chain[|chain| - 1])
  }

  lemma {:induction false} InsertIsStep(c: Settings, s: State, key: Key, data: nat, items: seq<Item>,
                                        keys: seq<seq<Key>>, evicted: Evicted)
    requires s.Shaped() && UniqueKeys(s.items) && EntersInFront(c, s, key, data, items, keys, evicted)
    ensures var (s', answer) := EnterStep(c, s, key, data);
            answer == Status(Ok, evicted) && s'.items == items && s'.chains == keys
  {
    if evicted.Gone? {
      var i: nat :| i < |s.items| && s.items[i] == evicted.item;
      FoundAt(s.items, i);
    }
  }

  lemma {:induction false} SamePlace(items: seq<Item>, i: nat, j: nat, item: Item)
    requires UniqueKeys(items) && i < |items| && j < |items|
    requires Without(items, i) + [item] == Without(items, j) + [item]
    ensures i == j
  {
    var k := if i < j then i else j;
    assert KeysApart(items, k, k + 1);
    assert (Without(items, i) + [item])[k] == (Without(items, j) + [item])[k];
  }

  lemma {:induction false} KeysEntered(n: seq<Item>, item: Item, full: bool)
    requires full ==> n != []
    ensures ItemKeys([item] + if full then n[..|n| - 1] else n) == Entered(ItemKeys(n), item.key, full)
  {
  }

  /** A bucket, from newest to oldest, after an insert that pushes out the oldest. */
  lemma {:induction false} NewestEntered(hash: Key -> nat, size: nat, limit: nat, items: seq<Item>, item: Item, k: nat)
    requires size > 0
    ensures var n, full := Newest(hash, size, items, k), Overflows(hash, size, limit, items, item);
            && (full && k == Slot(hash, size, item.key) ==> n != [])
            && Newest(hash, size, Inserted(hash, size, limit, items, item), k)
               == if k == Slot(hash, size, item.key) then [item] + (if full then n[..|n| - 1] else n) else n
  {
    var j := OldestIn(hash, size, items, Slot(hash, size, item.key));
    if Overflows(hash, size, limit, items, item) {
      LastIsOldest(hash, size, items, Slot(hash, size, item.key));
      NewestOfAppended(hash, size, Without(items, j), item, k);
      NewestOfWithout(hash, size, items, j, k);
    } else {
      NewestOfAppended(hash, size, items, item, k);
    }
  }

  /** A chain that lists its items from newest to oldest does so after an insert that pushes out the oldest. */
  lemma {:induction false} ListedEntered(hash: Key -> nat, size: nat, limit: nat, items: seq<Item>, item: Item, k: nat)
    requires size > 0 && k < size
    ensures var own, full := k == Slot(hash, size, item.key), Overflows(hash, size, limit, items, item);
            var keys := ItemKeys(Newest(hash, size, items, k));
            ItemKeys(Newest(hash, size, Inserted(hash, size, limit, items, item), k))
            == if own then Entered(keys, item.key, full) else keys
  {
    NewestEntered(hash, size, limit, items, item, k);
    if k == Slot(hash, size, item.key) {
      KeysEntered(Newest(hash, size, items, k), item, Overflows(hash, size, limit, items, item));
    }
  }

  /** An insert that finds the chains newest first, as a rehash leaves them, and pushes out the oldest of its bucket. */
  lemma {:induction false} InsertAfterRehash(c: Settings, s: State, key: Key, data: nat, items: seq<Item>,
                                             evicted: Evicted)
    requires s.Shaped() && UniqueKeys(s.items) && SizeFor(c, s) != s.size
    requires Table.Result(c.hash, SizeFor(c, s), c.limit, s.items, items, Item(key, data), evicted)
    requires items == Inserted(c.hash, SizeFor(c, s), c.limit, s.items, Item(key, data))
    ensures EntersInFront(c, s, key, data, items, Listed(c.hash, SizeFor(c, s), items), evicted)
  {
    var size, b := SizeFor(c, s), Slot(c.hash, SizeFor(c, s), key);
    forall k | 0 <= k < size
      ensures Listed(c.hash, size, items)[k]
              == Listed(c.hash, size, s.items)[b := Entered(ChainFor(c, s, key), key, evicted.Gone?)][k]
    {
      ListedEntered(c.hash, size, c.limit, s.items, Item(key, data), k);
    }
    if evicted.Gone? {
      var i: nat :| i < |s.items| && s.items[i] == evicted.item;
      FoundAt(s.items, i);
      LastIsOldest(c.hash, size, s.items, b);
      SamePlace(s.items, i, OldestIn(c.hash, size, s.items, b), Item(key, data));
    }
  }

  /** What an insert did to a table that held `s`. */
  ghost predicate DidInsert(t: Table, c: Settings, s: State, op: Op, status: HashTable.Status, evicted: Evicted,
                            moved: nat)
    requires op.Insert? && s.Shaped()
    reads t, t.ppEntries, t.pNr, t.age
  {
    && status == (if Find(s.items, op.key) < |s.items| then AlreadyInHash else if !op.canAllocate then Error else Ok)
    && if status != Ok then Holds(t, c, s) && moved == 0
       else
         var (s', answer) := EnterStep(c, s, op.key, op.data);
         Holds(t, c, s') && answer == Status(Ok, evicted) && moved == s'.moves - s.moves
  }

  /** What the table says after an insert that has entered its key. */
  lemma {:induction false} InsertTells(t: Table, op: Op, c: Settings, s: State, was: seq<seq<HashLists.Entry>>,
                                       evicted: Evicted, moved: nat)
    requires op.Insert? && s.Shaped() && UniqueKeys(s.items) && Find(s.items, op.key) == |s.items| && op.canAllocate
    requires t.Valid() && t.fnHash == c.hash && t.bucketLimit == c.limit && t.iAutomaticRehash == c.automatic
    requires t.iHeuristics == c.heuristics && t.iSize == SizeFor(c, s) && AllKeysOf(was) == s.chains
    requires Table.Result(c.hash, t.iSize, c.limit, s.items, t.Items(), Item(op.key, op.data), evicted)
    requires if t.iSize == s.size
             then Table.InFrontOf(was, t.chains, Slot(c.hash, s.size, op.key), op.key, evicted) && moved == 0
             else t.NewestFirst() && t.Items() == Inserted(c.hash, t.iSize, c.limit, s.items, Item(op.key, op.data))
                  && moved == |s.items|
    ensures DidInsert(t, c, s, op, Ok, evicted, moved)
  {
    if t.iSize == s.size {
      KeysOfChanged(was, t.chains, Slot(c.hash, s.size, op.key));
    } else {
      t.NewestIsListed();
      InsertAfterRehash(c, s, op.key, op.data, t.Items(), evicted);
    }
    InsertIsStep(c, s, op.key, op.data, t.Items(), t.AllKeys(), evicted);
  }

  method InsertOne(t: Table, op: Op, ghost c: Settings, ghost s: State)
    returns (status: HashTable.Status, evicted: Evicted, ghost moved: nat)
    requires s.Shaped() && Holds(t, c, s) && op.Insert? && op.data != NULL
    modifies t`chains, t`age, t`pOldest, t`pNewest, t`iItems, t`iSize, t`iSizeMask
    modifies t`ppEntries, t`pNr, t.ppEntries, t.pNr
    modifies t.age`pNext, t.age`pPrev, t.age`pOlder, t.age`pNewer
    ensures DidInsert(t, c, s, op, status, evicted, moved)
    ensures t.ppEntries == old(t.ppEntries) || fresh(t.ppEntries)
    ensures t.pNr == old(t.pNr) || fresh(t.pNr)
    ensures forall e | e in t.age :: e in old(t.age) || fresh(e)
  {
    ghost var was := t.chains;
    status, evicted, moved := t.Insert(op.key, op.data, op.canAllocate);
    if status == Ok {
      InsertTells(t, op, c, s, was, evicted, moved);
    }
  }

  method InsertFramed(t: Table, op: Op, ghost c: Settings, ghost s: State, ghost repr: set<object>)
    returns (status: HashTable.Status, evicted: Evicted, ghost moved: nat, ghost larger: set<object>)
    requires s.Shaped() && Holds(t, c, s) && t.Holds(repr) && op.Insert? && op.data != NULL
    modifies repr
    ensures DidInsert(t, c, s, op, status, evicted, moved)
    ensures repr <= larger && fresh(larger - repr) && t.Holds(larger)
  {
    assert t.Objects() <= repr;
    status, evicted, moved := InsertOne(t, op, c, s);
    t.ObjectsNew();
    larger := repr + t.Objects();
  }

  method ExecuteInsert(t: Table, op: Op, ghost c: Settings, ghost s: State, ghost repr: set<object>)
    returns (answer: Answer, ghost moved: nat, ghost larger: set<object>)
    requires s.Shaped() && Holds(t, c, s) && t.Holds(repr) && op.Insert? && op.data != NULL
    modifies repr
    ensures var (s', expected) := Step(c, s, op);
            answer == expected && Holds(t, c, s') && moved == s'.moves - s.moves
    ensures repr <= larger && fresh(larger - repr) && t.Holds(larger)
  {
    var status, evicted;
    status, evicted, moved, larger := InsertFramed(t, op, c, s, repr);
    answer := Status(status, if status == Ok then evicted else Nothing);
  }

  method ExecuteRehash(t: Table, n: nat, ghost c: Settings, ghost s: State, ghost repr: set<object>)
    returns (answer: Answer, ghost moved: nat, ghost larger: set<object>)
    requires s.Shaped() && Holds(t, c, s) && t.Holds(repr)
    modifies repr
    ensures var (s', expected) := Step(c, s, Rehash(n));
            answer == expected && Holds(t, c, s') && moved == s'.moves - s.moves
    ensures repr <= larger && fresh(larger - repr) && t.Holds(larger)
  {
    moved := t.Rehash(n);
    RoundUpIs(t.iSize, n, 0);
    t.NewestIsListed();
    answer := Done;
    larger := repr + {t.ppEntries, t.pNr} + set e | e in t.age;
  }

  method GetOne(t: Table, key: Key, ghost c: Settings, ghost s: State) returns (data: nat)
    requires s.Shaped() && Holds(t, c, s)
    modifies t`chains, t.ppEntries, t.age`pNext, t.age`pPrev
    ensures data == Lookup(s.items, key) && Holds(t, c, s.(chains := Searched(c, s, key)))
  {
    ghost var was := t.chains;
    data := t.Get(key);
    KeysSearched(was, t.chains, Slot(c.hash, s.size, key), c.heuristics, key);
  }

  method ExecuteGet(t: Table, key: Key, ghost c: Settings, ghost s: State, ghost repr: set<object>)
    returns (answer: Answer, ghost moved: nat, ghost larger: set<object>)
    requires s.Shaped() && Holds(t, c, s) && t.Holds(repr)
    modifies repr
    ensures var (s', expected) := Step(c, s, Get(key));
            answer == expected && Holds(t, c, s') && moved == s'.moves - s.moves
    ensures repr <= larger && fresh(larger - repr) && t.Holds(larger)
  {
    var data := GetOne(t, key, c, s);
    answer, moved, larger := Data(data), 0, repr;
  }

  method ReplaceOne(t: Table, key: Key, data: nat, ghost c: Settings, ghost s: State) returns (previous: nat)
    requires s.Shaped() && Holds(t, c, s) && data != NULL
    modifies t`chains, t.ppEntries, t.age`pNext, t.age`pPrev, t.age`pData
    ensures previous == Lookup(s.items, key)
    ensures Holds(t, c, s.(items := Replaced(s.items, key, data), chains := Searched(c, s, key)))
  {
    ghost var was := t.chains;
    previous := t.Replace(key, data);
    KeysSearched(was, t.chains, Slot(c.hash, s.size, key), c.heuristics, key);
  }

  method ExecuteReplace(t: Table, key: Key, data: nat, ghost c: Settings, ghost s: State, ghost repr: set<object>)
    returns (answer: Answer, ghost moved: nat, ghost larger: set<object>)
    requires s.Shaped() && Holds(t, c, s) && t.Holds(repr) && data != NULL
    modifies repr
    ensures var (s', expected) := Step(c, s, Replace(key, data));
            answer == expected && Holds(t, c, s') && moved == s'.moves - s.moves
    ensures repr <= larger && fresh(larger - repr) && t.Holds(larger)
  {
    var previous := ReplaceOne(t, key, data, c, s);
    answer, moved, larger := Data(previous), 0, repr;
  }

  method RemoveOne(t: Table, key: Key, ghost c: Settings, ghost s: State) returns (data: nat)
    requires s.Shaped() && Holds(t, c, s)
    modifies t`chains, t`age, t`pOldest, t`pNewest, t`iItems, t.ppEntries, t.pNr
    modifies t.age`pNext, t.age`pPrev, t.age`pNewer, t.age`pOlder
    ensures data == Lookup(s.items, key)
    ensures Holds(t, c, s.(items := Removed(s.items, key), chains := Unlisted(c, s, key)))
    ensures forall e | e in t.age :: e in old(t.age)
  {
    ghost var was := t.chains;
    data := t.Remove(key);
    KeysDropped(was, t.chains, Slot(c.hash, s.size, key), key);
  }

  method ExecuteRemove(t: Table, key: Key, ghost c: Settings, ghost s: State, ghost repr: set<object>)
    returns (answer: Answer, ghost moved: nat, ghost larger: set<object>)
    requires s.Shaped() && Holds(t, c, s) && t.Holds(repr)
    modifies repr
    ensures var (s', expected) := Step(c, s, Remove(key));
            answer == expected && Holds(t, c, s') && moved == s'.moves - s.moves
    ensures repr <= larger && fresh(larger - repr) && t.Holds(larger)
  {
    var data := RemoveOne(t, key, c, s);
    answer, moved, larger := Data(data), 0, repr;
  }

  method Execute(t: Table, op: Op, ghost c: Settings, ghost s: State, ghost repr: set<object>)
    returns (answer: Answer, ghost moved: nat, ghost larger: set<object>)
    requires s.Shaped() && Holds(t, c, s) && t.Holds(repr) && Proper(op)
    modifies repr
    ensures var (s', expected) := Step(c, s, op);
            answer == expected && Holds(t, c, s') && moved == s'.moves - s.moves
    ensures repr <= larger && fresh(larger - repr) && t.Holds(larger)
  {
    match op {
      case Insert(_, _, _) => answer, moved, larger := ExecuteInsert(t, op, c, s, repr);
      case Rehash(n) => answer, moved, larger := ExecuteRehash(t, n, c, s, repr);
      case Get(key) => answer, moved, larger := ExecuteGet(t, key, c, s, repr);
      case Replace(key, data) => answer, moved, larger := ExecuteReplace(t, key, data, c, s, repr);
      case Remove(key) => answer, moved, larger := ExecuteRemove(t, key, c, s, repr);
    }
  }

  /**
   Any sequence of calls answers and leaves the table as the steps say, and its rehashes move what the steps count.
   */
  method Perform(t: Table, ops: seq<Op>, ghost c: Settings, ghost s: State, ghost repr: set<object>)
    returns (answers: seq<Answer>, ghost moved: nat)
    requires s.Shaped() && Holds(t, c, s) && t.Holds(repr) && forall i | 0 <= i < |ops| :: Proper(ops[i])
    modifies repr
    ensures var (s', expected) := Run(c, s, ops);
            answers == expected && Holds(t, c, s') && moved == s'.moves - s.moves
  {
    answers, moved := [], 0;
    ghost var now, objects := s, repr;
    var i := 0;
    while i < |ops|
      invariant i <= |ops| && now.Shaped() && Holds(t, c, now) && t.Holds(objects)
      invariant repr <= objects && fresh(objects - repr)
      invariant Run(c, s, ops[..i]) == (now, answers) && moved == now.moves - s.moves
    {
      ghost var more: nat;
      var answer;
      answer, more, objects := Execute(t, ops[i], c, now, objects);
      assert ops[..i + 1][..i] == ops[..i];
      now := Step(c, now, ops[i]).0;
      answers := answers + [answer];
      moved := moved + more;
      i := i + 1;
    }
    assert ops[..i] == ops;
  }

  // ---- It is a plain map ---------------------------------------------------------

  /** A call on a plain dictionary. */
  function MapStep(m: map<Key, nat>, op: Op): (map<Key, nat>, Answer) {
    match op
    case Insert(key, data, canAllocate) =>
      if key in m then (m, Status(AlreadyInHash, Nothing))
      else if !canAllocate then (m, Status(Error, Nothing))
      else (m[key := data], Status(Ok, Nothing))
    case Get(key) => (m, Data(if key in m then m[key] else NULL))
    case Replace(key, data) => (if key in m then m[key := data] else m, Data(if key in m then m[key] else NULL))
    case Remove(key) => (m - {key}, Data(if key in m then m[key] else NULL))
    case Rehash(_) => (m, Done)
  }

  function MapRun(m: map<Key, nat>, ops: seq<Op>): (map<Key, nat>, seq<Answer>)
    decreases |ops|
  {
    if ops == [] then (m, [])
    else
      var n := |ops| - 1;
      var (m1, answers) := MapRun(m, ops[..n]);
      var (m2, answer) := MapStep(m1, ops[n]);
      (m2, answers + [answer])
  }

  lemma {:induction false} StepIsMapStep(c: Settings, s: State, op: Op)
    requires c.limit == 0 && s.Shaped() && UniqueKeys(s.items)
    ensures var (s', answer) := Step(c, s, op);
            UniqueKeys(s'.items) && (AsMap(s'.items), answer) == MapStep(AsMap(s.items), op)
  {
    match op
    case Insert(key, data, _) =>
      AsMapAt(s.items, key);
      if Find(s.items, key) == |s.items| {
        InsertIsMapUpdate(s.items, key, data);
      }
    case Get(key) => LookupIsMapLookup(s.items, key);
    case Replace(key, data) =>
      LookupIsMapLookup(s.items, key);
      ReplaceIsMapUpdate(s.items, key, data);
    case Remove(key) =>
      LookupIsMapLookup(s.items, key);
      RemoveIsMapRemove(s.items, key);
    case Rehash(_) =>
  }

  /** With unbounded buckets, any run of the table is the run of a plain map. */
  lemma {:induction false} RunIsMapRun(c: Settings, s: State, ops: seq<Op>)
    requires c.limit == 0 && s.Shaped() && UniqueKeys(s.items)
    ensures var (s', answers) := Run(c, s, ops);
            UniqueKeys(s'.items) && (AsMap(s'.items), answers) == MapRun(AsMap(s.items), ops)
    decreases |ops|
  {
    if ops != [] {
      var n := |ops| - 1;
      RunIsMapRun(c, s, ops[..n]);
      StepIsMapStep(c, Run(c, s, ops[..n]).0, ops[n]);
    }
  }

  // ---- Chains ---------------------------------------------------------------------

  /** Every chain lists the keys of its bucket, each once. */
  ghost predicate TidyState(c: Settings, s: State) { s.Shaped() && AllTidy(c.hash, s.size, s.items, s.chains) }

  lemma {:induction false} ListedTidy(hash: Key -> nat, size: nat, items: seq<Item>)
    requires size > 0 && UniqueKeys(items)
    ensures AllTidy(hash, size, items, Listed(hash, size, items))
  {
    forall b | 0 <= b < size
      ensures Tidy(hash, size, items, Listed(hash, size, items)[b], b)
    {
      ListedIsTidy(hash, size, items, b);
    }
  }

  lemma {:induction false} RoomIsTidy(c: Settings, s: State)
    requires TidyState(c, s)
    ensures AllTidy(c.hash, SizeFor(c, s), s.items, ChainsFor(c, s))
  {
    ListedTidy(c.hash, SizeFor(c, s), s.items);
  }

  /** The item that goes is one of the full bucket. */
  lemma {:induction false} VictimMayGo(c: Settings, s: State, key: Key, data: nat)
    requires TidyState(c, s)
    ensures MayGo(c.hash, SizeFor(c, s), c.limit, s.items, Item(key, data), Victim(c, s, key))
    ensures Full(c, s, key, data) ==>
              var chain := ChainFor(c, s, key);
              chain != [] && Victim(c, s, key) < |s.items| && s.items[Victim(c, s, key)].key == chain[|chain| - 1]
  {
    if Full(c, s, key, data) {
      var size := SizeFor(c, s);
      var b, chain := Slot(c.hash, size, key), ChainFor(c, s, key);
      RoomIsTidy(c, s);
      NewestAreItems(c.hash, size, s.items, b);
      var x := Newest(c.hash, size, s.items, b)[0];
      var i: nat :| i < |s.items| && s.items[i] == x;
      FoundAt(s.items, i);
      assert InChain(c.hash, size, s.items, chain, b, x.key);
      assert InChain(c.hash, size, s.items, chain, b, chain[|chain| - 1]);
    }
  }

  /**
   What an insert of a new key does, counted on the items: the table doubles first if it has more than two items to a
   bucket; one item goes exactly if the bucket of the key then has as many as the limit allows, and that is the item of
   that bucket whose key is last in its chain; and the new item comes last of all and first in its chain.
   */
  lemma {:induction false} EnterMeans(c: Settings, s: State, key: Key, data: nat)
    requires TidyState(c, s) && Find(s.items, key) == |s.items|
    ensures var size := if c.automatic && |s.items| > 2 * s.size then 2 * s.size else s.size;
            var b := c.hash(key) % size;
            var full := c.limit > 0 && |PlacesOf(c.hash, size, s.items, b)| >= c.limit;
            var (s', answer) := Step(c, s, Insert(key, data, true));
            && s'.size == size == |s'.chains| && s'.chains[b] != [] && s'.chains[b][0] == key
            && answer.Status? && answer.status == Ok && (answer.evicted.Gone? <==> full)
            && (if full then s'.items == Removed(s.items, answer.evicted.item.key) + [Item(key, data)]
                             && answer.evicted.item in s.items && c.hash(answer.evicted.item.key) % size == b
                             && (size == s.size ==> s.chains[b] != []
                                                    && answer.evicted.item.key == s.chains[b][|s.chains[b]| - 1])
                else s'.items == s.items + [Item(key, data)])
            && s'.moves == s.moves + if size != s.size then |s.items| else 0
  {
    var size := SizeFor(c, s);
    NewestCounts(c.hash, size, s.items, Slot(c.hash, size, key));
    VictimMayGo(c, s, key, data);
    if Full(c, s, key, data) {
      FoundAt(s.items, Victim(c, s, key));
    }
  }

  /** Dropping an item from the chain of another bucket changes nothing, and the last of its own is cut off. */
  lemma {:induction false} OnlyOwnDropped(hash: Key -> nat, size: nat, items: seq<Item>, p: nat, chain: seq<Key>,
                                          b: nat)
    requires size > 0 && p < |items| && Tidy(hash, size, items, chain, b)
    ensures Slot(hash, size, items[p].key) != b ==> Dropped(chain, items[p].key) == chain
    ensures chain != [] && chain[|chain| - 1] == items[p].key ==>
              Dropped(chain, items[p].key) == chain[..|chain| - 1]
  {
    PlaceOfMember(chain, items[p].key);
    assert InChain(hash, size, items, chain, b, items[p].key);
    if chain != [] {
      LastIsDropped(chain);
    }
  }

  lemma {:induction false} EnteredTidy(c: Settings, s: State, key: Key, data: nat, b: nat)
    requires TidyState(c, s) && Find(s.items, key) == |s.items| && b < SizeFor(c, s)
    ensures var s' := EnterStep(c, s, key, data).0;
            UniqueKeys(s'.items) && Tidy(c.hash, s'.size, s'.items, s'.chains[b], b)
  {
    var size, chain := SizeFor(c, s), ChainsFor(c, s)[b];
    RoomIsTidy(c, s);
    VictimMayGo(c, s, key, data);
    if Full(c, s, key, data) {
      var pick := Victim(c, s, key);
      WithoutAt(s.items, pick, key);
      TidyWithout(c.hash, size, s.items, pick, chain, b);
      TidyAppended(c.hash, size, Without(s.items, pick), Item(key, data), Dropped(chain, s.items[pick].key), b);
      OnlyOwnDropped(c.hash, size, s.items, pick, chain, b);
    } else {
      TidyAppended(c.hash, size, s.items, Item(key, data), chain, b);
    }
  }

  lemma {:induction false} SearchedTidy(c: Settings, s: State, key: Key)
    requires TidyState(c, s)
    ensures AllTidy(c.hash, s.size, s.items, Searched(c, s, key))
  {
    var b := Slot(c.hash, s.size, key);
    assert Tidy(c.hash, s.size, s.items, s.chains[b], b);
    TidySought(c.hash, s.size, s.items, c.heuristics, s.chains[b], b, key);
  }

  lemma {:induction false} RemovedTidy(c: Settings, s: State, key: Key)
    requires TidyState(c, s)
    ensures AllTidy(c.hash, s.size, Removed(s.items, key), Unlisted(c, s, key))
  {
    var p, own := Find(s.items, key), Slot(c.hash, s.size, key);
    forall b | 0 <= b < s.size
      ensures Tidy(c.hash, s.size, Removed(s.items, key), Unlisted(c, s, key)[b], b)
    {
      var chain := s.chains[b];
      assert Tidy(c.hash, s.size, s.items, chain, b);
      if p < |s.items| {
        TidyWithout(c.hash, s.size, s.items, p, chain, b);
        OnlyOwnDropped(c.hash, s.size, s.items, p, chain, b);
      } else {
        assert InChain(c.hash, s.size, s.items, chain, b, key);
        PlaceOfMember(chain, key);
      }
    }
    FindAfterRemove(s.items, key, key);
  }

  lemma {:induction false} StepIsTidy(c: Settings, s: State, op: Op)
    requires TidyState(c, s)
    ensures TidyState(c, Step(c, s, op).0)
  {
    var s' := Step(c, s, op).0;
    match op
    case Insert(key, data, _) =>
      if Enters(s, op) {
        EnteredTidy(c, s, key, data, 0);
        forall b | 0 <= b < s'.size
          ensures Tidy(c.hash, s'.size, s'.items, s'.chains[b], b)
        {
          EnteredTidy(c, s, key, data, b);
        }
      }
    case Get(key) => SearchedTidy(c, s, key);
    case Replace(key, data) =>
      SearchedTidy(c, s, key);
      TidyReplaced(c.hash, s.size, s.items, key, data, s'.chains[0], 0);
      forall b | 0 <= b < s'.size
        ensures Tidy(c.hash, s'.size, s'.items, s'.chains[b], b)
      {
        TidyReplaced(c.hash, s.size, s.items, key, data, s'.chains[b], b);
      }
    case Remove(key) => RemovedTidy(c, s, key);
    case Rehash(_) => ListedTidy(c.hash, s'.size, s.items);
  }

  /** In every run every chain lists the keys of its bucket, each once, whatever is inserted, removed or evicted. */
  lemma {:induction false} RunIsTidy(c: Settings, s: State, ops: seq<Op>)
    requires TidyState(c, s)
    ensures TidyState(c, Run(c, s, ops).0)
    decreases |ops|
  {
    if ops != [] {
      var n := |ops| - 1;
      RunIsTidy(c, s, ops[..n]);
      StepIsTidy(c, Run(c, s, ops[..n]).0, ops[n]);
    }
  }

  // ---- Bounded buckets -------------------------------------------------------------

  lemma {:induction false} ReplaceStaysWithin(c: Settings, s: State, key: Key, data: nat)
    requires s.size > 0 && Within(c.hash, s.size, c.limit, s.items)
    ensures Within(c.hash, s.size, c.limit, Replaced(s.items, key, data))
  {
    forall b | 0 <= b < s.size
      ensures |Newest(c.hash, s.size, Replaced(s.items, key, data), b)| <= c.limit
    {
      NewestByKeys(c.hash, s.size, s.items, Replaced(s.items, key, data), b);
    }
  }

  lemma {:induction false} StepStaysWithin(c: Settings, s: State, op: Op)
    requires c.limit > 0 && TidyState(c, s) && !op.Rehash? && Within(c.hash, s.size, c.limit, s.items)
    ensures var s' := Step(c, s, op).0; Within(c.hash, s'.size, c.limit, s'.items)
  {
    match op
    case Insert(key, data, _) =>
      DoublingStaysWithin(c.hash, s.size, c.limit, s.items);
      if Enters(s, op) {
        VictimMayGo(c, s, key, data);
        InsertedAtStaysWithin(c.hash, SizeFor(c, s), c.limit, s.items, Item(key, data), Victim(c, s, key));
      }
    case Get(_) =>
    case Replace(key, data) => ReplaceStaysWithin(c, s, key, data);
    case Remove(key) => RemoveStaysWithin(c.hash, s.size, c.limit, s.items, key);
  }

  /** No bucket ever exceeds the limit, automatic doubling included, whatever heuristic reorders the chains. */
  lemma {:induction false} RunStaysWithin(c: Settings, s: State, ops: seq<Op>)
    requires c.limit > 0 && TidyState(c, s) && Within(c.hash, s.size, c.limit, s.items) && NoRehash(ops)
    ensures var s' := Run(c, s, ops).0; Within(c.hash, s'.size, c.limit, s'.items)
    decreases |ops|
  {
    if ops != [] {
      var n := |ops| - 1;
      RunIsTidy(c, s, ops[..n]);
      RunStaysWithin(c, s, ops[..n]);
      StepStaysWithin(c, Run(c, s, ops[..n]).0, ops[n]);
    }
  }

  // ---- Cost --------------------------------------------------------------------------

  ghost predicate Paid(first: nat, s: State) {
    Amortised(first, s.size, |s.items|, s.inserts, s.moves)
  }

  /** A call keeps the account, whether an insert doubles the table or not, and whatever is removed or evicted. */
  lemma {:induction false} StepIsPaid(first: nat, c: Settings, s: State, op: Op)
    requires s.Shaped() && c.automatic && !op.Rehash? && Paid(first, s)
    ensures Paid(first, Step(c, s, op).0)
  {
  }

  /**
   From an empty table with automatic rehashing on, and no rehash asked for: there are never more than
   2 * size + 1 items, and all rehashes together move at most three entries for each successful insert.
   */
  lemma {:induction false} RunIsPaid(first: nat, c: Settings, s: State, ops: seq<Op>)
    requires s.Shaped() && c.automatic && Paid(first, s) && NoRehash(ops)
    ensures var s' := Run(c, s, ops).0;
            Paid(first, s') && s'.moves <= 3 * s'.inserts && |s'.items| <= 2 * s'.size + 1
    decreases |ops|
  {
    if ops != [] {
      var n := |ops| - 1;
      RunIsPaid(first, c, s, ops[..n]);
      StepIsPaid(first, c, Run(c, s, ops[..n]).0, ops[n]);
    }
    var s' := Run(c, s, ops).0;
    MovesAreBounded(first, s'.size, |s'.items|, s'.inserts, s'.moves);
  }

  lemma {:induction false} EmptyIsPaid(size: nat)
    requires size > 0
    ensures Paid(size, Fresh(size))
  {
  }

  function CountOk(answers: seq<Answer>): nat {
    if answers == [] then 0
    else
      var last := answers[|answers| - 1];
      CountOk(answers[..|answers| - 1]) + if last.Status? && last.status == Ok then 1 else 0
  }

  lemma {:induction false} InsertsAreOks(c: Settings, s: State, ops: seq<Op>)
    requires s.Shaped()
    ensures var (s', answers) := Run(c, s, ops); s'.inserts == s.inserts + CountOk(answers)
    decreases |ops|
  {
    if ops != [] {
      var n := |ops| - 1;
      InsertsAreOks(c, s, ops[..n]);
      var (s1, answers) := Run(c, s, ops[..n]);
      var answer := Step(c, s1, ops[n]).1;
      assert (answers + [answer])[..|answers|] == answers;
    }
  }

  // ---- From an empty table -------------------------------------------------------------

  method Start(hash: Key -> nat, n: nat, heuristics: Heuristics, automatic: bool, limit: nat) returns (t: Table)
    ensures fresh(t) && fresh(t.ppEntries) && fresh(t.pNr) && t.age == []
    ensures t.iSize == RoundUp(1, n)
    ensures Holds(t, Settings(hash, limit, automatic, heuristics), Fresh(t.iSize))
  {
    t := new Table(hash, n);
    t.Configure(heuristics, automatic, limit);
    RoundUpIs(t.iSize, n, 0);
  }

  lemma {:induction false} FreshMeans(c: Settings, size: nat)
    requires size > 0
    ensures TidyState(c, Fresh(size)) && Within(c.hash, size, c.limit, [])
  {
  }

  lemma {:induction false} AboutRun(c: Settings, size: nat, ops: seq<Op>)
    requires size > 0
    ensures var (s', answers) := Run(c, Fresh(size), ops);
            && (c.limit == 0 ==> (AsMap(s'.items), answers) == MapRun(map[], ops))
            && (c.limit > 0 && NoRehash(ops) ==> Within(c.hash, s'.size, c.limit, s'.items))
            && (c.automatic && NoRehash(ops) ==> s'.moves <= 3 * CountOk(answers) && |s'.items| <= 2 * s'.size + 1)
  {
    var s := Fresh(size);
    FreshMeans(c, size);
    if c.limit == 0 {
      RunIsMapRun(c, s, ops);
    } else if NoRehash(ops) {
      RunStaysWithin(c, s, ops);
    }
    if c.automatic && NoRehash(ops) {
      EmptyIsPaid(size);
      RunIsPaid(size, c, s, ops);
      InsertsAreOks(c, s, ops);
    }
  }

  lemma {:induction false} BucketsCounted(t: Table)
    requires t.Valid()
    ensures forall b | 0 <= b < t.iSize :: t.pNr[b] == |Newest(t.fnHash, t.iSize, t.Items(), b)|
  {
    forall b | 0 <= b < t.iSize
      ensures t.pNr[b] == |Newest(t.fnHash, t.iSize, t.Items(), b)|
    {
      t.ChainLength(b);
    }
  }

  /**
   Any sequence of calls on a new table, under any heuristic and any limit.  It answers and ends as the steps say:
   unbounded, as a plain map would.  Bounded and not rehashed by hand, no bucket counts more entries than the limit.
   With automatic rehashing and none by hand, the rehashes have moved at most three entries for each insert that
   succeeded.
   */
  method FromEmpty(hash: Key -> nat, n: nat, heuristics: Heuristics, automatic: bool, limit: nat, ops: seq<Op>)
    returns (t: Table, answers: seq<Answer>, ghost moved: nat)
    requires forall i | 0 <= i < |ops| :: Proper(ops[i])
    ensures t.Valid() && RoundUp(1, n) > 0
    ensures var (s', expected) := Run(Settings(hash, limit, automatic, heuristics), Fresh(RoundUp(1, n)), ops);
            t.Items() == s'.items && t.AllKeys() == s'.chains && answers == expected
    ensures limit == 0 ==> (AsMap(t.Items()), answers) == MapRun(map[], ops)
    ensures limit > 0 && NoRehash(ops) ==>
              forall b | 0 <= b < t.iSize :: t.pNr[b] == |Newest(hash, t.iSize, t.Items(), b)| <= limit
    ensures automatic && NoRehash(ops) ==> moved <= 3 * CountOk(answers) && t.iItems <= 2 * t.iSize + 1
  {
    t := Start(hash, n, heuristics, automatic, limit);
    ghost var c, s := Settings(hash, limit, automatic, heuristics), Fresh(t.iSize);
    answers, moved := Perform(t, ops, c, s, {t, t.ppEntries, t.pNr});
    AboutRun(c, s.size, ops);
    BucketsCounted(t);
  }
}
