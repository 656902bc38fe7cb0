/**
 A run that shows what the protocol does not promise.  Between the decrement of the counter and the exclusive lock
 another thread can hook and unhook the vector to the end, and a third can hook it anew; the first thread then
 takes the new entry out of the table although a hook is outstanding.  In that run hook calls do not overlap each
 other, so every choice of overlaps that allows hook and unhook calls, and unhook calls, to overlap allows it.
 */
module HookRace {
  import opened Wrappers
  import opened HookProtocol
  import opened HookLedger
  import opened HookStages
  import opened HookApart

  /** One file system, one vector of one slot, and one hook for it. */
  const ENV := Env(Descriptors([0], [0], 1), map[0 := [FsFn(7)]])

  const TIDS: set<Tid> := {1, 2, 3}

  /** Hook calls are kept apart from each other; unhook calls may overlap any call. */
  const LOOSE := Discipline(false, true, true)

  ghost predicate Leads(schedule: seq<Event>, x: Ledger) {
    Follows(ENV, TIDS, 0, LOOSE, schedule) && Booked(ENV, TIDS, 0, schedule) == x
  }

  /** Some schedule of the three threads leads to `x`. */
  ghost predicate Reached(x: Ledger) { exists schedule :: Leads(schedule, x) }

  /** So many hook calls and unhook calls were started, and so many hook calls counted, between `x` and `y`. */
  predicate Tallied(x: Ledger, y: Ledger, hooks: nat, unhooks: nat, ups: nat) {
    && y.hooks == x.hooks + hooks && y.unhooks == x.unhooks + unhooks && y.ups == x.ups + ups
    && y.failed == x.failed
  }

  lemma {:induction false} OneMore(x: Ledger, ev: Event) returns (y: Ledger)
    requires Reached(x) && Allowed(LOOSE, x, 0, ev)
    ensures Reached(y) && y == Tick(ENV, 0, x, ev)
  {
    var schedule :| Leads(schedule, x);
    y := Tick(ENV, 0, x, ev);
    var longer := schedule + [ev];
    assert longer[..|longer| - 1] == schedule;
    assert forall k | 0 <= k < |schedule| :: longer[..k] == schedule[..k];
    assert Leads(longer, y);
  }

  /** The lock is free. */
  predicate Calm(g: Shared) { g.readers == {} && g.writer == None && !g.fault }

  const HOOKED: map<Vec, seq<Fn>> := map[0 := [HookFn(0)]]
  const PRISTINE: map<Vec, seq<Fn>> := map[0 := [FsFn(7)]]

  /** Thread `t` is at `pc` now, with the lock free again, and these are the vectors, the table and the entries. */
  predicate Led(x: Ledger, t: Tid, pc: Pc, y: Ledger, vectors: map<Vec, seq<Fn>>, table: map<Vec, EntryId>,
                live: map<EntryId, Entry>)
  {
    && Calm(y.s.g) && y.s.threads == x.s.threads[t := pc]
    && y.s.g.vectors == vectors && y.s.g.table == table && y.s.g.live == live
  }

  /** A hook call that finds no entry, up to where it allocates one. */
  lemma {:induction false} NotFound(x: Ledger, t: Tid) returns (y: Ledger)
    requires Reached(x) && NoHook(x.s, 0)
    requires Calm(x.s.g) && t in x.s.threads && x.s.threads[t] == Idle && 0 in x.s.g.vectors && 0 !in x.s.g.table
    ensures Reached(y) && y.s == State(x.s.g, x.s.threads[t := Hooking(0, HAlloc)]) && Tallied(x, y, 1, 0, 0)
  {
    var ev := Event(t, CallHook(0), true);
    var y1 := OneMore(x, ev);
    assert y1.s.threads[t] == Hooking(0, HWantShared) && y1.s.g == x.s.g;
    var y2 := OneMore(y1, ev);
    assert y2.s.threads[t] == Hooking(0, HShared) && y2.s.g.readers == {t};
    var y3 := OneMore(y2, ev);
    assert y3.s.threads[t] == Hooking(0, HMissed) && y3.s.g == y2.s.g;
    y := OneMore(y3, ev);
    assert y.s.g.readers == {};
  }

  lemma {:induction false} FreshEntry(x: Ledger, t: Tid) returns (y: Ledger)
    requires Reached(x) && NoHook(x.s, 0)
    requires Calm(x.s.g) && t in x.s.threads && x.s.threads[t] == Idle && 0 in x.s.g.vectors && 0 !in x.s.g.table
    ensures Reached(y)
    ensures var n, g := x.s.g.nextId, x.s.g;
            && Led(x, t, Installing(0, n, IWantExclusive), y, g.vectors, g.table, g.live[n := Entry(1, 0, [NullFn])])
            && y.s.g.nextId == n + 1 && Tallied(x, y, 1, 0, 0)
  {
    y := NotFound(x, t);
    assert seq(1, _ => NullFn) == [NullFn];
    y := OneMore(y, Event(t, CallHook(0), true));
  }

  /** Putting the new entry in the table. */
  lemma {:induction false} Published(x: Ledger, t: Tid, n: EntryId) returns (y: Ledger)
    requires Reached(x)
    requires Calm(x.s.g) && t in x.s.threads && x.s.threads[t] == Installing(0, n, IWantExclusive)
    requires 0 !in x.s.g.table && n in x.s.g.live && x.s.g.live[n] == Entry(1, 0, [NullFn])
    ensures Reached(y)
    ensures var g := x.s.g;
            && y.s == State(g.(writer := Some(t), table := g.table[0 := n], live := g.live[n := Entry(2, 1, [NullFn])]),
                            x.s.threads[t := Installing(0, n, ILoop(0))])
            && Tallied(x, y, 0, 0, 1)
  {
    var ev, g := Event(t, CallHook(0), true), x.s.g;
    var y1 := OneMore(x, ev);
    assert y1.s.threads[t] == Installing(0, n, IExclusive);
    var y2 := OneMore(y1, ev);
    assert y2.s.threads[t] == Installing(0, n, IAdded);
    var y3 := OneMore(y2, ev);
    assert y3.s.threads[t] == Installing(0, n, IRetained);
    assert y3.s.g.live == g.live[n := Entry(2, 0, [NullFn])];
    var y4 := OneMore(y3, ev);
    assert y4.s.g.live == g.live[n := Entry(2, 1, [NullFn])];
    y := y4;
  }

  /** The one turn of the hooking loop. */
  lemma {:induction false} SlotHooked(x: Ledger, t: Tid, n: EntryId) returns (y: Ledger)
    requires Reached(x)
    requires t in x.s.threads && x.s.threads[t] == Installing(0, n, ILoop(0)) && x.s.g.vectors == PRISTINE
    requires n in x.s.g.live && x.s.g.live[n] == Entry(2, 1, [NullFn])
    ensures Reached(y)
    ensures var g := x.s.g;
            && y.s == State(g.(vectors := HOOKED, live := g.live[n := Entry(2, 1, [FsFn(7)])]),
                            x.s.threads[t := Installing(0, n, ILoop(1))])
            && Tallied(x, y, 0, 0, 0)
  {
    var ev, g := Event(t, CallHook(0), true), x.s.g;
    var y1 := OneMore(x, ev);
    assert y1.s.threads[t] == Installing(0, n, ISave(0, FsFn(7)));
    var y2 := OneMore(y1, ev);
    assert [NullFn][0 := FsFn(7)] == [FsFn(7)];
    assert y2.s.threads[t] == Installing(0, n, IWrite(0));
    assert [FsFn(7)][0 := HookFn(0)] == [HookFn(0)];
    y := OneMore(y2, ev);
    assert WriteSlot(y2.s.g, 0, 0, HookFn(0)).vectors == HOOKED;
  }

  /** The end of a hook call. */
  lemma {:induction false} HookLeft(x: Ledger, t: Tid, n: EntryId) returns (y: Ledger)
    requires Reached(x)
    requires t in x.s.threads && x.s.threads[t] == Installing(0, n, ILoop(1))
    requires x.s.g.readers == {} && x.s.g.writer == Some(t) && !x.s.g.fault
    requires n in x.s.g.live && x.s.g.live[n].refs == 2
    ensures Reached(y)
    ensures var g := x.s.g;
            && Led(x, t, Idle, y, g.vectors, g.table, g.live[n := g.live[n].(refs := 1)])
            && y.s.g.nextId == g.nextId && Tallied(x, y, 0, 0, 0)
  {
    var ev := Event(t, CallHook(0), true);
    var y1 := OneMore(x, ev);
    assert y1.s.threads[t] == Installing(0, n, ILeave);
    var y2 := OneMore(y1, ev);
    assert y2.s.threads[t] == Installing(0, n, IDrop);
    y := OneMore(y2, ev);
  }

  /** A hook call that finds an entry, up to where it has a reference to it. */
  lemma {:induction false} FoundAgain(x: Ledger, t: Tid, e: EntryId) returns (y: Ledger)
    requires Reached(x) && NoHook(x.s, 0)
    requires Calm(x.s.g) && t in x.s.threads && x.s.threads[t] == Idle && 0 in x.s.g.vectors
    requires 0 in x.s.g.table && x.s.g.table[0] == e && e in x.s.g.live
    ensures Reached(y)
    ensures y.s == State(Retain(x.s.g, e).(readers := {t}), x.s.threads[t := Hooking(0, HFound(e))])
    ensures Tallied(x, y, 1, 0, 0)
  {
    var ev, g := Event(t, CallHook(0), true), x.s.g;
    var y1 := OneMore(x, ev);
    assert y1.s.threads[t] == Hooking(0, HWantShared) && y1.s.g == g;
    var y2 := OneMore(y1, ev);
    assert y2.s.threads[t] == Hooking(0, HShared) && y2.s.g.readers == {t};
    var y3 := OneMore(y2, ev);
    assert y3.s.threads[t] == Hooking(0, HLooked(e));
    y := OneMore(y3, ev);
  }

  /** A hook call that finds an entry. */
  lemma {:induction false} HookedAgain(x: Ledger, t: Tid, e: EntryId) returns (y: Ledger)
    requires Reached(x) && NoHook(x.s, 0)
    requires Calm(x.s.g) && t in x.s.threads && x.s.threads[t] == Idle && 0 in x.s.g.vectors
    requires 0 in x.s.g.table && x.s.g.table[0] == e && e in x.s.g.live && x.s.g.live[e].refs > 0
    ensures Reached(y)
    ensures var g, was := x.s.g, x.s.g.live[e];
            && Led(x, t, Idle, y, g.vectors, g.table, g.live[e := was.(counter := was.counter + 1)])
            && y.s.g.nextId == g.nextId && Tallied(x, y, 1, 0, 1)
  {
    var ev, g := Event(t, CallHook(0), true), x.s.g;
    var y1 := FoundAgain(x, t, e);
    var y2 := OneMore(y1, ev);
    assert y2.s.threads[t] == Hooking(0, HCounted(e));
    var y3 := OneMore(y2, ev);
    assert y3.s.threads[t] == Hooking(0, HDrop(e)) && y3.s.g.readers == {};
    y := OneMore(y3, ev);
    assert Release(y3.s.g, e).live == g.live[e := g.live[e].(counter := g.live[e].counter + 1)];
  }

  /** An unhook call, up to where it has a reference to the entry. */
  lemma {:induction false} FoundToUnhook(x: Ledger, t: Tid, e: EntryId) returns (y: Ledger)
    requires Reached(x) && x.unhooks < x.ups
    requires Calm(x.s.g) && t in x.s.threads && x.s.threads[t] == Idle && 0 in x.s.g.vectors
    requires 0 in x.s.g.table && x.s.g.table[0] == e && e in x.s.g.live
    ensures Reached(y)
    ensures y.s == State(Retain(x.s.g, e).(readers := {t}), x.s.threads[t := Unhooking(0, UFound(e))])
    ensures Tallied(x, y, 0, 1, 0)
  {
    var ev, g := Event(t, CallUnhook(0), true), x.s.g;
    var y1 := OneMore(x, ev);
    assert y1.s.threads[t] == Unhooking(0, UWantShared) && y1.s.g == g;
    var y2 := OneMore(y1, ev);
    assert y2.s.threads[t] == Unhooking(0, UShared) && y2.s.g.readers == {t};
    var y3 := OneMore(y2, ev);
    assert y3.s.threads[t] == Unhooking(0, ULooked(e));
    y := OneMore(y3, ev);
  }

  /** An unhook call that counts down to zero, up to where it wants the exclusive lock. */
  lemma {:induction false} CountedDown(x: Ledger, t: Tid, e: EntryId) returns (y: Ledger)
    requires Reached(x) && x.unhooks < x.ups
    requires Calm(x.s.g) && t in x.s.threads && x.s.threads[t] == Idle && 0 in x.s.g.vectors
    requires 0 in x.s.g.table && x.s.g.table[0] == e && e in x.s.g.live && x.s.g.live[e].counter == 1
    ensures Reached(y)
    ensures var g, was := x.s.g, x.s.g.live[e];
            && Led(x, t, Restoring(0, RWantExclusive(e)), y, g.vectors, g.table,
                   g.live[e := was.(counter := 0, refs := was.refs + 1)])
            && y.s.g.nextId == g.nextId
    ensures Tallied(x, y, 0, 1, 0)
  {
    var ev, g := Event(t, CallUnhook(0), true), x.s.g;
    var y1 := FoundToUnhook(x, t, e);
    var y2 := OneMore(y1, ev);
    assert y2.s.threads[t] == Unhooking(0, UDecrement(e)) && y2.s.g.readers == {};
    y := OneMore(y2, ev);
    assert Count(y2.s.g, e, -1).live == g.live[e := g.live[e].(counter := 0, refs := g.live[e].refs + 1)];
  }

  /** With the lock, up to where the entry is to be taken out of the table. */
  lemma {:induction false} ReadyToRemove(x: Ledger, t: Tid, e: EntryId) returns (y: Ledger)
    requires Reached(x)
    requires Calm(x.s.g) && t in x.s.threads && x.s.threads[t] == Restoring(0, RWantExclusive(e))
    requires e in x.s.g.live && x.s.g.live[e].counter == 0 && x.s.g.live[e].refs > 0
    ensures Reached(y) && Tallied(x, y, 0, 0, 0)
    ensures y.s == State(Release(x.s.g, e).(writer := Some(t)), x.s.threads[t := Restoring(0, RRemove)])
  {
    var ev := Event(t, CallUnhook(0), true);
    var y1 := OneMore(x, ev);
    assert y1.s.threads[t] == Restoring(0, RExclusive(e));
    var y2 := OneMore(y1, ev);
    assert y2.s.threads[t] == Restoring(0, RDropInside(e));
    y := OneMore(y2, ev);
  }

  /** Taking out of the table what is there now, which need not be the entry `e` that was counted down. */
  lemma {:induction false} TakenOut(x: Ledger, t: Tid, e: EntryId, r: EntryId) returns (y: Ledger)
    requires Reached(x)
    requires Calm(x.s.g) && t in x.s.threads && x.s.threads[t] == Restoring(0, RWantExclusive(e))
    requires 0 in x.s.g.table && x.s.g.table[0] == r
    requires e in x.s.g.live && x.s.g.live[e].counter == 0 && x.s.g.live[e].refs > 0
    ensures Reached(y) && Tallied(x, y, 0, 0, 0)
    ensures var g := x.s.g;
            y.s == State(Release(g, e).(writer := Some(t), table := g.table - {0}),
                         x.s.threads[t := Restoring(0, RLoop(r, 0))])
  {
    y := ReadyToRemove(x, t, e);
    y := OneMore(y, Event(t, CallUnhook(0), true));
  }

  /** The one turn of the restoring loop. */
  lemma {:induction false} SlotRestored(x: Ledger, t: Tid, r: EntryId) returns (y: Ledger)
    requires Reached(x)
    requires t in x.s.threads && x.s.threads[t] == Restoring(0, RLoop(r, 0)) && x.s.g.vectors == HOOKED
    requires r in x.s.g.live && x.s.g.live[r].orig == [FsFn(7)]
    ensures Reached(y)
    ensures var g := x.s.g;
            && y.s == State(g.(vectors := PRISTINE), x.s.threads[t := Restoring(0, RLoop(r, 1))])
            && Tallied(x, y, 0, 0, 0)
  {
    var ev, g := Event(t, CallUnhook(0), true), x.s.g;
    var y1 := OneMore(x, ev);
    assert y1.s.threads[t] == Restoring(0, RWrite(r, 0, FsFn(7)));
    assert [HookFn(0)][0 := FsFn(7)] == [FsFn(7)];
    y := OneMore(y1, ev);
    assert WriteSlot(y1.s.g, 0, 0, FsFn(7)).vectors == PRISTINE;
  }

  /** The end of an unhook call. */
  lemma {:induction false} UnhookLeft(x: Ledger, t: Tid, r: EntryId) returns (y: Ledger)
    requires Reached(x)
    requires t in x.s.threads && x.s.threads[t] == Restoring(0, RLoop(r, 1))
    requires x.s.g.readers == {} && x.s.g.writer == Some(t) && !x.s.g.fault
    requires r in x.s.g.live && x.s.g.live[r].refs > 0
    ensures Reached(y)
    ensures var g := x.s.g;
            && Led(x, t, Idle, y, g.vectors, g.table, Release(g, r).live)
            && y.s.g.nextId == g.nextId && Tallied(x, y, 0, 0, 0)
  {
    var ev := Event(t, CallUnhook(0), true);
    var y1 := OneMore(x, ev);
    assert y1.s.threads[t] == Restoring(0, RLeave(r));
    var y2 := OneMore(y1, ev);
    assert y2.s.threads[t] == Unhooking(0, UDrop(r));
    y := OneMore(y2, ev);
  }

  // ---- The run ---------------------------------------------------------------------------------

  /** A whole hook call on a vector that is not hooked. */
  lemma {:induction false} FreshHook(x: Ledger, t: Tid) returns (y: Ledger)
    requires Reached(x) && NoHook(x.s, 0) && Calm(x.s.g) && t in x.s.threads && x.s.threads[t] == Idle
    requires x.s.g.vectors == PRISTINE && 0 !in x.s.g.table
    ensures Reached(y)
    ensures var g, n := x.s.g, x.s.g.nextId;
            && Led(x, t, Idle, y, HOOKED, g.table[0 := n], g.live[n := Entry(1, 1, [FsFn(7)])])
            && y.s.g.nextId == n + 1 && Tallied(x, y, 1, 0, 1)
  {
    var n := x.s.g.nextId;
    y := FreshEntry(x, t);
    y := Published(y, t, n);
    y := SlotHooked(y, t, n);
    y := HookLeft(y, t, n);
    assert y.s.g.live == x.s.g.live[n := Entry(1, 1, [FsFn(7)])];
  }

  /** The rest of an unhook call, from where it has taken out entry `r`. */
  lemma {:induction false} Restored(x: Ledger, t: Tid, r: EntryId) returns (y: Ledger)
    requires Reached(x) && t in x.s.threads && x.s.threads[t] == Restoring(0, RLoop(r, 0))
    requires x.s.g.readers == {} && x.s.g.writer == Some(t) && !x.s.g.fault && x.s.g.vectors == HOOKED
    requires r in x.s.g.live && x.s.g.live[r].orig == [FsFn(7)] && x.s.g.live[r].refs > 0
    ensures Reached(y) && Led(x, t, Idle, y, PRISTINE, x.s.g.table, Release(x.s.g, r).live)
    ensures y.s.g.nextId == x.s.g.nextId && Tallied(x, y, 0, 0, 0)
  {
    y := SlotRestored(x, t, r);
    y := UnhookLeft(y, t, r);
  }

  const SAVED: seq<Fn> := [FsFn(7)]

  /** Thread 1 has hooked the vector, and then counted its entry down to zero. */
  lemma {:induction false} FirstCountsDown() returns (x: Ledger)
    ensures Reached(x) && Calm(x.s.g) && x.s.g.vectors == HOOKED && x.s.g.table == map[0 := 0]
    ensures x.s.g.live == map[0 := Entry(2, 0, SAVED)] && x.s.g.nextId == 1
    ensures x.hooks == 1 && x.unhooks == 1 && x.failed == 0 && x.ups == 1
    ensures x.s.threads == map[1 := Restoring(0, RWantExclusive(0)), 2 := Idle, 3 := Idle]
  {
    x := Ledger(Initial(ENV, TIDS), 0, 0, 0, 0, 0, {});
    assert Leads([], x);
    x := FreshHook(x, 1);
    x := CountedDown(x, 1, 0);
  }

  /** Thread 2 hooks the vector again and unhooks it, to the end; thread 1 still waits. */
  lemma {:induction false} SecondRestores() returns (x: Ledger)
    ensures Reached(x) && Calm(x.s.g) && x.s.g.vectors == PRISTINE && x.s.g.table == map[]
    ensures x.s.g.live == map[0 := Entry(1, 0, SAVED)] && x.s.g.nextId == 1
    ensures x.hooks == 2 && x.unhooks == 2 && x.failed == 0 && x.ups == 2
    ensures x.s.threads == map[1 := Restoring(0, RWantExclusive(0)), 2 := Idle, 3 := Idle]
  {
    x := FirstCountsDown();
    x := HookedAgain(x, 2, 0);
    x := CountedDown(x, 2, 0);
    x := TakenOut(x, 2, 0, 0);
    x := Restored(x, 2, 0);
  }

  /** Thread 3 hooks the vector anew, and thread 1 gets the lock. */
  lemma {:induction false} NewEntryIsNext() returns (x: Ledger)
    ensures Reached(x) && x.hooks == 3 && x.failed == 0 && x.unhooks == 2
    ensures x.s.threads == map[1 := Restoring(0, RRemove), 2 := Idle, 3 := Idle]
    ensures x.s.g.table == map[0 := 1] && x.s.g.live == map[1 := Entry(1, 1, SAVED)]
    ensures x.s.g.vectors == HOOKED && x.s.g.readers == {} && x.s.g.writer == Some(1) && !x.s.g.fault
  {
    x := SecondRestores();
    x := FreshHook(x, 3);
    x := ReadyToRemove(x, 1, 0);
  }

  /**
   An entry can be taken out of the table while its counter is not zero: with calls interleaved, the entry that is
   removed need not be the one that was counted down.
   */
  lemma {:induction false} CountedEntryIsRemoved() returns (x: Ledger)
    ensures Reached(x) && x.hooks == 3 && x.failed == 0 && x.unhooks == 2
    ensures x.s.threads == map[1 := Restoring(0, RLoop(1, 0)), 2 := Idle, 3 := Idle]
    ensures x.s.g.table == map[] && x.s.g.live == map[1 := Entry(1, 1, SAVED)]
    ensures x.s.g.vectors == HOOKED && x.s.g.readers == {} && x.s.g.writer == Some(1) && !x.s.g.fault
  {
    x := NewEntryIsNext();
    x := OneMore(x, Event(1, CallUnhook(0), true));
  }

  /**
   So a vector can end up restored while a hook is outstanding: three hook calls and two unhook calls have returned,
   every unhook after a hook by its own thread, and the vector is pristine and out of the table.
   */
  lemma {:induction false} OutstandingHookIsLost() returns (x: Ledger)
    ensures Reached(x) && x.hooks == 3 && x.failed == 0 && x.unhooks == 2
    ensures x.s.threads == map[1 := Idle, 2 := Idle, 3 := Idle]
    ensures x.s.g.table == map[] && x.s.g.live == map[] && x.s.g.vectors == ENV.pristine
    ensures forall d: Discipline, schedule | d.Safe() && Booked(ENV, TIDS, 0, schedule) == x ::
              !Follows(ENV, TIDS, 0, d, schedule)
  {
    x := CountedEntryIsRemoved();
    x := Restored(x, 1, 1);
    assert ENV.pristine[0][0].FsFn?;
    forall d: Discipline, schedule | d.Safe() && Booked(ENV, TIDS, 0, schedule) == x
      ensures !Follows(ENV, TIDS, 0, d, schedule)
    {
      if Follows(ENV, TIDS, 0, d, schedule) {
        CounterKept(ENV, TIDS, 0, d, schedule);
      }
    }
  }

  /** What is reached here is what a schedule runs to. */
  lemma {:induction false} ReachedIsRun(x: Ledger) returns (schedule: seq<Event>)
    requires Reached(x)
    ensures Follows(ENV, TIDS, 0, LOOSE, schedule) && Run(ENV, TIDS, schedule) == x.s && ENV.Valid()
  {
    schedule :| Leads(schedule, x);
    BookedIsRun(ENV, TIDS, 0, schedule);
    assert ENV.pristine[0][0].FsFn?;
  }

  // ---- Which disciplines are good enough ---------------------------------------------------------

  /** Whatever the vectors, the threads and the schedule, the entry taken out of the table has counter zero. */
  ghost predicate AlwaysRemovesZero(d: Discipline) {
    forall env: Env, tids, v, schedule {:trigger Follows(env, tids, v, d, schedule)} ::
      env.Valid() && v in env.pristine && Follows(env, tids, v, d, schedule) ==>
        RemovesZero(Booked(env, tids, v, schedule), v)
  }

  /** Whatever the vectors, the threads and the schedule, the calls made decide whether a vector is hooked. */
  ghost predicate AlwaysDecides(d: Discipline) {
    forall env: Env, tids, v, schedule {:trigger Follows(env, tids, v, d, schedule)} ::
      env.Valid() && v in env.pristine && Follows(env, tids, v, d, schedule) ==>
        CountDecides(env, Booked(env, tids, v, schedule), v)
  }

  /** What a discipline allows, one that lets more calls overlap allows too. */
  lemma {:induction false} LooserFollows(d: Discipline, schedule: seq<Event>)
    requires Follows(ENV, TIDS, 0, LOOSE, schedule) && !d.Safe()
    ensures Follows(ENV, TIDS, 0, d, schedule)
  {
    forall k | 0 <= k < |schedule|
      ensures Allowed(d, Booked(ENV, TIDS, 0, schedule[..k]), 0, schedule[k])
    {
      assert Allowed(LOOSE, Booked(ENV, TIDS, 0, schedule[..k]), 0, schedule[k]);
    }
  }

  lemma {:induction false} UnsafeFails(d: Discipline)
    requires !d.Safe()
    ensures !AlwaysRemovesZero(d) && !AlwaysDecides(d)
  {
    assert ENV.pristine[0][0].FsFn?;
    var x := NewEntryIsNext();
    var schedule :| Leads(schedule, x);
    LooserFollows(d, schedule);
    assert x.s.threads[1] == Restoring(0, RRemove) && !RemovesZero(x, 0);
    var y := OutstandingHookIsLost();
    var other :| Leads(other, y);
    LooserFollows(d, other);
    assert !CountDecides(ENV, y, 0);
  }

  /**
   Either promise holds in all schedules that follow a discipline if and only if the discipline keeps unhook calls on
   a vector apart from hook calls, or keeps them apart from each other.
   */
  lemma {:induction false} ExactlyTheSafe(d: Discipline)
    ensures AlwaysRemovesZero(d) <==> d.Safe()
    ensures AlwaysDecides(d) <==> d.Safe()
  {
    if d.Safe() {
      forall env: Env, tids, v, schedule
        | env.Valid() && v in env.pristine && Follows(env, tids, v, d, schedule)
        ensures RemovesZero(Booked(env, tids, v, schedule), v) && CountDecides(env, Booked(env, tids, v, schedule), v)
      {
        CounterKept(env, tids, v, d, schedule);
      }
    } else {
      UnsafeFails(d);
    }
  }
}
