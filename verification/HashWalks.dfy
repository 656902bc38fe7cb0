/**
 Walking over a table while looking things up in it and removing entries already visited: every entry is
 visited once, from the oldest to the newest.
 */
module HashWalks {
  import opened HashSpec
  import opened HashLists
  import opened HashTable

  /** What a caller may do between two steps of a walk: look up any key, or remove an entry visited before. */
  datatype Deed = LookUp(key: Key) | Forget(visited: nat)

  // ---- What deeds leave in the table ---------------------------------------

  /** The items without those at the places in `gone`. */
  function Left(items: seq<Item>, gone: set<nat>): seq<Item> {
    if items == [] then []
    else
      var n := |items| - 1;
      Left(items[..n], gone) + if n in gone then [] else [items[n]]
  }

  /** The places among the first `m` that the deeds forget. */
  function Forgets(deeds: seq<Deed>, m: nat): set<nat> { set i: nat | 0 <= i < m && Forget(i) in deeds }

  /** What is forgotten in the first `turns` turns; at turn `m` there are `m` visited entries. */
  function Gone(deeds: seq<seq<Deed>>, turns: nat): set<nat> {
    if turns == 0 then {}
    else Gone(deeds, turns - 1) + if turns <= |deeds| then Forgets(deeds[turns - 1], turns) else {}
  }

  lemma {:induction false} GoneMeans(deeds: seq<seq<Deed>>, turns: nat, i: nat)
    ensures i in Gone(deeds, turns)
            <==> exists k :: i <= k < turns && k < |deeds| && Forget(i) in deeds[k]
  {
    if turns > 0 {
      GoneMeans(deeds, turns - 1, i);
    }
  }

  lemma {:induction false} LeftHas(items: seq<Item>, gone: set<nat>, e: Item)
    ensures e in Left(items, gone) <==> exists i :: 0 <= i < |items| && i !in gone && items[i] == e
  {
    if items != [] {
      var n := |items| - 1;
      LeftHas(items[..n], gone, e);
      if exists i :: 0 <= i < |items| && i !in gone && items[i] == e {
        var i :| 0 <= i < |items| && i !in gone && items[i] == e;
        assert i < n ==> items[..n][i] == e;
      }
    }
  }

  lemma {:induction false} LeftWithoutKey(items: seq<Item>, gone: set<nat>, key: Key)
    requires forall i | 0 <= i < |items| && i !in gone :: items[i].key != key
    ensures Find(Left(items, gone), key) == |Left(items, gone)|
  {
    var left := Left(items, gone);
    forall k | 0 <= k < |left|
      ensures left[k].key != key
    {
      LeftHas(items, gone, left[k]);
    }
  }

  lemma {:induction false} LeftSame(items: seq<Item>, gone: set<nat>, i: nat)
    requires i >= |items| || i in gone
    ensures Left(items, gone + {i}) == Left(items, gone)
  {
    if items != [] && i >= |items| {
      LeftSame(items[..|items| - 1], gone, i);
    } else if i in gone {
      assert gone + {i} == gone;
    }
  }

  lemma {:induction false} LeftNone(items: seq<Item>)
    ensures Left(items, {}) == items
  {
    if items != [] {
      LeftNone(items[..|items| - 1]);
    }
  }

  lemma {:induction false} RemovedFromMore(items: seq<Item>, more: seq<Item>, key: Key)
    requires |more| <= 1 && forall e | e in more :: e.key != key
    ensures Removed(items + more, key) == Removed(items, key) + more
  {
    var all, i := items + more, Find(items, key);
    assert forall j | 0 <= j < |all| :: all[j] == if j < |items| then items[j] else more[j - |items|];
    if i < |items| {
      assert Find(all, key) == i;
      assert all[..i] == items[..i] && all[i + 1..] == items[i + 1..] + more;
    } else {
      assert Find(all, key) == |all|;
    }
  }

  lemma {:induction false} RemovedLast(items: seq<Item>, last: Item)
    requires Find(items, last.key) == |items|
    ensures Removed(items + [last], last.key) == items
  {
    var all := items + [last];
    assert all[|items|] == last && forall j | 0 <= j < |items| :: all[j] == items[j];
    assert Find(all, last.key) == |items|;
  }

  lemma {:induction false} OtherKeys(items: seq<Item>, i: nat)
    requires UniqueKeys(items) && i < |items|
    ensures forall j | 0 <= j < |items| && j != i :: items[j].key != items[i].key
  {
    forall j | 0 <= j < |items| && j != i
      ensures items[j].key != items[i].key
    {
      assert KeysApart(items, i, j) && KeysApart(items, j, i);
    }
  }

  lemma {:induction false} RemovedFromEnd(items: seq<Item>, gone: set<nat>)
    requires UniqueKeys(items) && items != []
    ensures var n := |items| - 1; Removed(Left(items, gone), items[n].key) == Left(items, gone + {n})
  {
    var n := |items| - 1;
    var front := Left(items[..n], gone);
    OtherKeys(items, n);
    LeftSame(items[..n], gone, n);
    LeftWithoutKey(items[..n], gone, items[n].key);
    if n in gone {
      assert front + [] == front;
    } else {
      RemovedLast(front, items[n]);
    }
  }

  /** Removing the key of an item from what is left takes that item out, and no other. */
  lemma {:induction false} RemovedFromLeft(items: seq<Item>, gone: set<nat>, i: nat)
    requires UniqueKeys(items) && i < |items|
    ensures Removed(Left(items, gone), items[i].key) == Left(items, gone + {i})
  {
    var n := |items| - 1;
    if i == n {
      RemovedFromEnd(items, gone);
    } else {
      var front, more := Left(items[..n], gone), if n in gone then [] else [items[n]];
      PrefixUnique(items, n);
      OtherKeys(items, i);
      RemovedFromLeft(items[..n], gone, i);
      RemovedFromMore(front, more, items[i].key);
    }
  }

  // ---- What deeds leave to the walk -----------------------------------------

  predicate EndsWith(items: seq<Item>, ahead: seq<Item>) {
    |ahead| <= |items| && items[|items| - |ahead|..] == ahead
  }

  /** The entry with `m` entries from itself to the end. */
  function FromEnd(s: seq<Entry>, m: nat): Entry? { At(s, |s| - m) }

  /** The walk has `ahead` to visit, and `next` is the entry it comes to first. */
  ghost predicate Ahead(t: Table, next: Entry?, ahead: seq<Item>)
    reads t, t.age
  {
    EndsWith(t.Items(), ahead) && next == FromEnd(t.age, |ahead|)
  }

  predicate PassedAt(visited: seq<Item>, ahead: seq<Item>, i: nat) {
    i < |visited| ==> Find(ahead, visited[i].key) == |ahead|
  }

  /** Nothing ahead has the key of an entry that was visited. */
  ghost predicate Passed(visited: seq<Item>, ahead: seq<Item>) {
    forall i: nat {:trigger PassedAt(visited, ahead, i)} :: PassedAt(visited, ahead, i)
  }

  lemma {:induction false} SuffixKept(items: seq<Item>, ahead: seq<Item>, key: Key)
    requires EndsWith(items, ahead) && Find(ahead, key) == |ahead|
    ensures EndsWith(Removed(items, key), ahead)
    ensures Find(items, key) < |items| - |ahead| || Find(items, key) == |items|
  {
  }

  /** The entry `m` from the end is the same one after the removal of an earlier entry. */
  lemma {:induction false} PlaceKept(a: seq<Entry>, m: nat, p: nat)
    requires m <= |a| && (p < |a| - m || p == |a|)
    ensures FromEnd(if p < |a| then Without(a, p) else a, m) == FromEnd(a, m)
  {
  }

  method Forgotten(t: Table, key: Key, next: Entry?, ghost ahead: seq<Item>, ghost repr: set<object>)
    requires t.Valid() && t.Holds(repr) && Ahead(t, next, ahead) && Find(ahead, key) == |ahead|
    modifies repr
    ensures t.Valid() && t.Holds(repr) && Ahead(t, next, ahead) && t.Items() == Removed(old(t.Items()), key)
  {
    SuffixKept(t.Items(), ahead, key);
    PlaceKept(t.age, |ahead|, Find(t.Items(), key));
    var data := t.Remove(key);
  }

  /**
   One thing done between two steps leaves what is ahead of the walk as it is; a lookup leaves all items, and forgetting
   takes out the one that was visited.
   */
  method Do(t: Table, deed: Deed, visited: seq<Item>, next: Entry?, ghost ahead: seq<Item>, ghost repr: set<object>)
    requires t.Valid() && t.Holds(repr) && Ahead(t, next, ahead) && Passed(visited, ahead)
    modifies repr
    ensures t.Valid() && t.Holds(repr) && Ahead(t, next, ahead)
    ensures t.Items() == match deed
                         case LookUp(_) => old(t.Items())
                         case Forget(i) =>
                           if i < |visited| then Removed(old(t.Items()), visited[i].key) else old(t.Items())
  {
    match deed {
      case LookUp(key) =>
        var data := t.Get(key);
      case Forget(i) =>
        if i < |visited| {
          assert PassedAt(visited, ahead, i);
          Forgotten(t, visited[i].key, next, ahead, repr);
        }
    }
  }

  lemma {:induction false} ForgetsMore(deeds: seq<Deed>, d: nat, m: nat)
    requires d < |deeds|
    ensures Forgets(deeds[..d + 1], m)
            == Forgets(deeds[..d], m) + match deeds[d] case LookUp(_) => {} case Forget(i) => if i < m then {i} else {}
  {
    assert deeds[..d + 1] == deeds[..d] + [deeds[d]];
  }

  /** What one deed leaves of what was left before. */
  lemma {:induction false} DeedLeaves(items: seq<Item>, visited: seq<Item>, gone: set<nat>, deeds: seq<Deed>, d: nat,
                                      before: seq<Item>, after: seq<Item>)
    requires UniqueKeys(items) && visited <= items && d < |deeds|
    requires before == Left(items, gone + Forgets(deeds[..d], |visited|))
    requires after == match deeds[d]
                      case LookUp(_) => before
                      case Forget(i) => if i < |visited| then Removed(before, visited[i].key) else before
    ensures after == Left(items, gone + Forgets(deeds[..d + 1], |visited|))
  {
    var so, m := gone + Forgets(deeds[..d], |visited|), |visited|;
    ForgetsMore(deeds, d, m);
    match deeds[d]
    case LookUp(_) => assert gone + Forgets(deeds[..d + 1], m) == so;
    case Forget(i) =>
      if i < m {
        RemovedFromLeft(items, so, i);
        assert gone + Forgets(deeds[..d + 1], m) == so + {i};
      } else {
        assert gone + Forgets(deeds[..d + 1], m) == so;
      }
  }

  /** All that is done between two steps; `items` are those the walk began with, of which those in `gone` are gone. */
  method DoAll(t: Table, deeds: seq<Deed>, visited: seq<Item>, next: Entry?, ghost ahead: seq<Item>,
               ghost repr: set<object>, ghost items: seq<Item>, ghost gone: set<nat>)
    requires t.Valid() && t.Holds(repr) && Ahead(t, next, ahead) && Passed(visited, ahead)
    requires UniqueKeys(items) && visited <= items && t.Items() == Left(items, gone)
    modifies repr
    ensures t.Valid() && t.Holds(repr) && Ahead(t, next, ahead)
    ensures t.Items() == Left(items, gone + Forgets(deeds, |visited|))
  {
    assert gone + Forgets(deeds[..0], |visited|) == gone;
    for d := 0 to |deeds|
      invariant t.Valid() && t.Holds(repr) && Ahead(t, next, ahead)
      invariant t.Items() == Left(items, gone + Forgets(deeds[..d], |visited|))
    {
      ghost var before := t.Items();
      Do(t, deeds[d], visited, next, ahead, repr);
      DeedLeaves(items, visited, gone, deeds, d, before, t.Items());
    }
    assert deeds[..|deeds|] == deeds;
  }

  lemma {:induction false} FindInTail(items: seq<Item>, key: Key)
    requires items != []
    ensures items[0].key != key ==> Find(items, key) == 1 + Find(items[1..], key)
  {
  }

  /** Of the items of a table, the walk has visited some and has the others ahead. */
  ghost predicate Halfway(items: seq<Item>, visited: seq<Item>, ahead: seq<Item>) {
    items == visited + ahead && UniqueKeys(ahead) && AllData(ahead) && Passed(visited, ahead)
  }

  lemma {:induction false} AtFirst(items: seq<Item>)
    requires UniqueKeys(items) && AllData(items)
    ensures Halfway(items, [], items)
  {
  }

  lemma {:induction false} AtLast(items: seq<Item>, visited: seq<Item>, ahead: seq<Item>)
    requires Halfway(items, visited, ahead)
    ensures ahead == [] ==> visited == items
    ensures ahead != [] ==> ahead[0].data != NULL
  {
    assert HasData(ahead, 0);
    assert visited + [] == visited;
  }

  lemma {:induction false} OneMore(items: seq<Item>, visited: seq<Item>, ahead: seq<Item>)
    requires ahead != [] && Halfway(items, visited, ahead)
    ensures Halfway(items, visited + [ahead[0]], ahead[1..])
  {
    assert visited + ahead == visited + [ahead[0]] + ahead[1..];
    forall i: nat
      ensures HasData(ahead[1..], i)
    {
      assert HasData(ahead, i + 1);
    }
    forall i: nat, j: nat
      ensures KeysApart(ahead[1..], i, j)
    {
      assert KeysApart(ahead, i + 1, j + 1);
    }
    forall v: nat
      ensures PassedAt(visited + [ahead[0]], ahead[1..], v)
    {
      if v <= |visited| {
        var key := (visited + [ahead[0]])[v].key;
        assert PassedAt(visited, ahead, v);
        assert KeysApart(ahead, 0, Find(ahead[1..], key) + 1);
        FindInTail(ahead, key);
      }
    }
  }

  /** The step to the first entry. */
  method Begin(t: Table, walk: Iterator) returns (data: nat, key: Key)
    requires t.AgeOk()
    modifies walk
    ensures if t.age == [] then data == NULL
            else Item(key, data) == t.Items()[0] && Ahead(t, walk.pNext, t.Items()[1..])
  {
    assert t.age != [] ==> AgedAt(t.age, 0);
    data, key := walk.First(t);
  }

  /** A new iterator at the first entry. */
  method Start(t: Table, ghost repr: set<object>) returns (walk: Iterator, data: nat, key: Key)
    requires t.Valid() && t.Holds(repr)
    ensures fresh(walk) && walk !in repr && t.Valid() && t.Holds(repr) && t.Items() == old(t.Items())
    ensures if t.age == [] then data == NULL
            else Item(key, data) == t.Items()[0] && Ahead(t, walk.pNext, t.Items()[1..])
  {
    walk := new Iterator();
    data, key := Begin(t, walk);
  }

  /** The step to the next entry. */
  method Advance(t: Table, walk: Iterator, ghost ahead: seq<Item>) returns (data: nat, key: Key)
    requires t.AgeOk() && Ahead(t, walk.pNext, ahead)
    modifies walk
    ensures if ahead == [] then data == NULL
            else Item(key, data) == ahead[0] && Ahead(t, walk.pNext, ahead[1..])
  {
    ghost var k := |t.age| - |ahead|;
    assert k < |t.age| ==> AgedAt(t.age, k) && t.Items()[k] == ahead[0];
    assert ahead != [] ==> t.Items()[k + 1..] == ahead[1..];
    data, key := walk.Next(t, k);
  }

  /** What the caller does at one entry, and the step to the next. */
  method Turn(t: Table, walk: Iterator, deeds: seq<Deed>, visited: seq<Item>, ghost ahead: seq<Item>,
              ghost repr: set<object>, ghost items: seq<Item>, ghost gone: set<nat>)
    returns (data: nat, key: Key)
    requires t.Valid() && t.Holds(repr) && Ahead(t, walk.pNext, ahead) && Passed(visited, ahead) && walk !in repr
    requires UniqueKeys(items) && visited <= items && t.Items() == Left(items, gone)
    modifies repr, walk
    ensures t.Valid() && t.Holds(repr) && t.Items() == Left(items, gone + Forgets(deeds, |visited|))
    ensures if ahead == [] then data == NULL
            else Item(key, data) == ahead[0] && Ahead(t, walk.pNext, ahead[1..])
  {
    DoAll(t, deeds, visited, walk.pNext, ahead, repr, items, gone);
    data, key := Advance(t, walk, ahead);
  }

  lemma {:induction false} GoneMore(deeds: seq<seq<Deed>>, m: nat, now: seq<Deed>)
    requires m > 0 && now == if m <= |deeds| then deeds[m - 1] else []
    ensures Gone(deeds, m - 1) + Forgets(now, m) == Gone(deeds, m)
  {
  }

  /** The walk has come to the first of `ahead`, and what is left in the table is what the caller has not removed. */
  ghost predicate Walking(t: Table, walk: Iterator, deeds: seq<seq<Deed>>, items: seq<Item>, visited: seq<Item>,
                          ahead: seq<Item>, data: nat, key: Key)
    reads t, t.ppEntries, t.pNr, t.age, walk
  {
    && t.Valid() && UniqueKeys(items) && Halfway(items, visited, ahead)
    && (if ahead == [] then data == NULL
        else Item(key, data) == ahead[0] && Ahead(t, walk.pNext, ahead[1..]))
    && t.Items() == Left(items, Gone(deeds, |visited|))
  }

  /** The walk at its start. */
  method Begun(t: Table, deeds: seq<seq<Deed>>, ghost repr: set<object>, ghost items: seq<Item>)
    returns (walk: Iterator, data: nat, key: Key)
    requires t.Valid() && t.Holds(repr) && items == t.Items()
    ensures fresh(walk) && walk !in repr && t.Holds(repr)
    ensures Walking(t, walk, deeds, items, [], items, data, key)
  {
    walk, data, key := Start(t, repr);
    AtFirst(items);
    LeftNone(items);
  }

  /** One turn of the loop: the entry found last counts as visited, the caller acts, and the walk goes on. */
  method Visit(t: Table, walk: Iterator, deeds: seq<seq<Deed>>, item: Item, visited: seq<Item>, ghost ahead: seq<Item>,
               ghost repr: set<object>, ghost items: seq<Item>)
    returns (data: nat, key: Key, visited': seq<Item>)
    requires t.Holds(repr) && walk !in repr && ahead != []
    requires Walking(t, walk, deeds, items, visited, ahead, item.data, item.key)
    modifies repr, walk
    ensures t.Holds(repr) && visited' == visited + [item]
    ensures Walking(t, walk, deeds, items, visited', ahead[1..], data, key)
  {
    assert item == ahead[0];
    var now := if |visited| < |deeds| then deeds[|visited|] else [];
    ghost var rest, gone := ahead[1..], Gone(deeds, |visited|);
    OneMore(items, visited, ahead);
    visited' := visited + [item];
    GoneMore(deeds, |visited'|, now);
    data, key := Turn(t, walk, now, visited', rest, repr, items, gone);
  }

  /**
   A whole walk: whatever the caller looks up or removes on the way, as long as only visited entries are removed,
   exactly the entries of the table are visited, once each, from the oldest to the newest. Left in the table, in the
   same order, are those that the caller did not remove at a turn that had visited them.
   */
  method Walk(t: Table, deeds: seq<seq<Deed>>, ghost repr: set<object>) returns (visited: seq<Item>)
    requires t.Valid() && t.Holds(repr)
    modifies repr
    ensures t.Valid() && visited == old(t.Items())
    ensures t.Items() == Left(visited, Gone(deeds, |visited|))
  {
    ghost var items := t.Items();
    visited := [];
    var walk, data, key := Begun(t, deeds, repr, items);
    ghost var ahead := items;
    while data != NULL
      invariant t.Holds(repr) && fresh(walk) && walk !in repr
      invariant Walking(t, walk, deeds, items, visited, ahead, data, key)
      decreases |ahead|
    {
      data, key, visited := Visit(t, walk, deeds, Item(key, data), visited, ahead, repr, items);
      ahead := ahead[1..];
    }
    AtLast(items, visited, ahead);
  }
}
