/** What holds in every state that any schedule of hooking, unhooking and dispatching threads can reach. */
module HookTheorems {
  import opened Wrappers
  import opened HookProtocol
  import opened HookInvariant
  import opened HookSteps
  import opened HookRefs
  import opened HookKept

  lemma {:induction false} InitialInvariant(env: Env, tids: set<Tid>)
    requires env.Valid()
    ensures Inv(env, Initial(env, tids))
  {
  }

  lemma {:induction false} ReachableInvariant(env: Env, tids: set<Tid>, schedule: seq<Event>)
    requires env.Valid()
    ensures Inv(env, Run(env, tids, schedule))
  {
    if schedule == [] {
      InitialInvariant(env, tids);
    } else {
      var before := schedule[..|schedule| - 1];
      ReachableInvariant(env, tids, before);
      StepKeepsInvariant(env, Run(env, tids, before), schedule[|schedule| - 1]);
    }
  }

  /**
   Transparency: whatever the interleaving, a call VFS makes through registered operation `i` of `v`
   ends in the file system's own function, never in a hook and never in NULL.
   */
  lemma {:induction false} Transparency(env: Env, tids: set<Tid>, schedule: seq<Event>, t: Tid, v: Vec, i: nat,
                                        k: nat, f: Fn)
    requires env.Valid()
    requires var s := Run(env, tids, schedule);
             t in s.threads && s.threads[t] == Dispatching(v, i, k, Called(f))
    ensures v in env.pristine && i < |env.d.slots| && f == env.pristine[v][env.d.slots[i]] && f.FsFn?
  {
    var s := Run(env, tids, schedule);
    ReachableInvariant(env, tids, schedule);
    assert ThreadOk(env, s, t);
    SlotIsHookOrOriginal(env, s, v, i);
  }

  /** No step ever touches a freed entry, saves over an original, or releases more than it holds. */
  lemma {:induction false} NeverFaults(env: Env, tids: set<Tid>, schedule: seq<Event>)
    requires env.Valid()
    ensures !Run(env, tids, schedule).g.fault
  {
    ReachableInvariant(env, tids, schedule);
  }

  /** Slots without a registered hook never change, lock or no lock. */
  lemma {:induction false} UnregisteredSlotsNeverChange(env: Env, tids: set<Tid>, schedule: seq<Event>, v: Vec,
                                                        slot: nat)
    requires env.Valid() && v in env.pristine && slot < |env.pristine[v]| && slot !in env.d.slots
    ensures ReadSlot(Run(env, tids, schedule).g, v, slot) == env.pristine[v][slot]
  {
    ReachableInvariant(env, tids, schedule);
  }

  /** The slots of `v` hold the hooks and entry `e` has its originals. */
  ghost predicate IsHooked(env: Env, g: Shared, v: Vec, e: EntryId) {
    && v in g.vectors && v in env.pristine && env.Valid()
    && (forall j | 0 <= j < |env.d.slots| :: ReadSlot(g, v, env.d.slots[j]) == HookFn(j))
    && (forall j | 0 <= j < |env.d.slots| ::
          SavedOriginal(g, e, env.d.enums[j]) == env.pristine[v][env.d.slots[j]])
  }

  /** A vector that no thread is changing is hooked, or it is pristine slot for slot. */
  lemma {:induction false} SettledMeans(env: Env, s: State, v: Vec)
    requires Inv(env, s) && v in env.pristine && Settled(env, s, v)
    ensures v in s.g.vectors && |s.g.vectors[v]| == |env.pristine[v]|
    ensures v in s.g.table ==> IsHooked(env, s.g, v, s.g.table[v])
    ensures v !in s.g.table ==> s.g.vectors[v] == env.pristine[v]
  {
    if v !in s.g.table {
      forall slot | 0 <= slot < |env.pristine[v]|
        ensures s.g.vectors[v][slot] == env.pristine[v][slot]
      {
        if slot in env.d.slots {
          var j :| 0 <= j < |env.d.slots| && env.d.slots[j] == slot;
          assert s.g.vectors[v][env.d.slots[j]] == env.Original(v, j);
        }
      }
    }
  }

  /**
   With the exclusive lock free, a vector in the table has the hooks in all its registered slots and the pristine
   originals in its entry; any other vector is pristine slot for slot and has no hook in any registered slot.
   */
  lemma {:induction false} WhenTheLockIsFree(env: Env, tids: set<Tid>, schedule: seq<Event>, v: Vec)
    requires env.Valid() && v in env.pristine
    requires Run(env, tids, schedule).g.writer.None?
    ensures var g := Run(env, tids, schedule).g;
            && v in g.vectors && |g.vectors[v]| == |env.pristine[v]|
            && (v in g.table ==> IsHooked(env, g, v, g.table[v]))
            && (v !in g.table ==> g.vectors[v] == env.pristine[v])
            && (v !in g.table ==> forall j | 0 <= j < |env.d.slots| :: g.vectors[v][env.d.slots[j]] != HookFn(j))
  {
    var s := Run(env, tids, schedule);
    ReachableInvariant(env, tids, schedule);
    assert VectorOk(env, s, v);
    SettledMeans(env, s, v);
  }

  /** A hook is never saved as an original, not even in an entry that has left the table. */
  lemma {:induction false} HookNeverSaved(env: Env, tids: set<Tid>, schedule: seq<Event>, e: EntryId, k: nat)
    requires env.Valid()
    ensures var f := SavedOriginal(Run(env, tids, schedule).g, e, k); f.NullFn? || f.FsFn?
  {
    ReachableInvariant(env, tids, schedule);
    assert OriginalsOnly(Run(env, tids, schedule), e);
  }

  /**
   Reference conservation: an entry's count is one for the table plus one per thread that holds it, and every
   entry ever allocated is either alive or was freed exactly once, with no one left who could reach it.
   */
  lemma {:induction false} ReferencesConserved(env: Env, tids: set<Tid>, schedule: seq<Event>, e: EntryId)
    requires env.Valid()
    ensures var s := Run(env, tids, schedule);
            && (e in s.g.live ==>
                  s.g.live[e].refs == (if e in s.g.table.Values then 1 else 0)
                                      + |set t | t in s.threads && Held(s.threads[t]) == Some(e)|)
            && (e in s.g.live ==> s.g.live[e].refs > 0 && s.g.freed[e] == 0)
            && (e !in s.g.live && e < s.g.nextId ==>
                  && s.g.freed[e] == 1 && e !in s.g.table.Values
                  && forall t | t in s.threads :: Held(s.threads[t]) != Some(e))
  {
    var s := Run(env, tids, schedule);
    ReachableInvariant(env, tids, schedule);
    assert Counted(s, e) && Accounted(s, e);
    assert Holders(s, e) == set t | t in s.threads && Held(s.threads[t]) == Some(e);
    if e !in s.g.live {
      UnknownIsUnused(s, e);
      forall t | t in s.threads
        ensures Held(s.threads[t]) != Some(e)
      {
        assert t in Holders(s, e) <==> Held(s.threads[t]) == Some(e);
      }
    }
  }

  predicate Quiet(s: State) { forall t | t in s.threads :: s.threads[t] == Idle }

  /** When all threads are idle the table owns the only references, so nothing has leaked. */
  lemma {:induction false} NothingLeaks(env: Env, tids: set<Tid>, schedule: seq<Event>)
    requires env.Valid()
    requires Quiet(Run(env, tids, schedule))
    ensures var g := Run(env, tids, schedule).g;
            && g.live.Keys == g.table.Values
            && (forall e | e in g.live :: g.live[e].refs == 1)
            && g.readers == {} && g.writer == None
  {
    var s := Run(env, tids, schedule);
    ReachableInvariant(env, tids, schedule);
    forall e | e in s.g.live
      ensures e in s.g.table.Values && s.g.live[e].refs == 1
    {
      assert Counted(s, e);
      forall t
        ensures t !in Holders(s, e)
      {
        assert t in s.threads ==> s.threads[t] == Idle;
      }
      assert Holders(s, e) == {};
    }
    forall v | v in s.g.table
      ensures s.g.table[v] in s.g.live
    {
      assert TableAlive(s, v);
    }
    forall t
      ensures t !in s.g.readers && s.g.writer != Some(t)
    {
      assert LockRole(s, t);
      assert t in s.threads ==> s.threads[t] == Idle;
    }
  }

  /** A freed entry stays freed and never comes back, whatever runs afterwards. */
  lemma {:induction false} FreedForGood(env: Env, tids: set<Tid>, schedule: seq<Event>, later: seq<Event>, e: EntryId)
    requires env.Valid()
    requires e in Run(env, tids, schedule).g.freed
    ensures Run(env, tids, schedule + later).g.freed[e] == 1
    ensures e !in Run(env, tids, schedule + later).g.live
  {
    var all := schedule + later;
    ReachableInvariant(env, tids, all);
    assert Accounted(Run(env, tids, all), e);
    if later == [] {
      assert all == schedule;
    } else {
      var before := later[..|later| - 1];
      assert all[..|all| - 1] == schedule + before;
      FreedForGood(env, tids, schedule, before, e);
      FreedGrows(env, Run(env, tids, schedule + before), all[|all| - 1]);
    }
  }

  predicate WaitsForLock(pc: Pc) {
    || (pc.Hooking? && pc.h.HWantShared?)
    || (pc.Installing? && pc.p.IWantExclusive?)
    || (pc.Unhooking? && pc.u.UWantShared?)
    || (pc.Restoring? && pc.r.RWantExclusive?)
    || (pc.Dispatching? && pc.q.QWantShared?)
  }

  predicate CanMove(env: Env, s: State, t: Tid)
    requires t in s.threads
  {
    var ev := Event(t, CallHook(0), true);
    Apply(env, s, ev).threads[t] != s.threads[t]
  }

  lemma {:induction false} LockHolderMoves(env: Env, s: State, t: Tid)
    requires Inv(env, s) && t in s.threads && s.threads[t] != Idle
    requires WaitsForLock(s.threads[t]) ==> s.g.writer.None? && s.g.readers == {}
    ensures CanMove(env, s, t)
  {
    assert ThreadOk(env, s, t) && HeldAlive(s, t);
    match s.threads[t] {
      case Hooking(v, h) =>
      case Installing(v, n, p) =>
      case Unhooking(v, u) =>
      case Restoring(v, r) =>
      case Dispatching(v, i, k, q) =>
    }
  }

  /** The protocol has no deadlock: while some call is in progress, some thread inside a call can take its next step. */
  lemma {:induction false} NoDeadlock(env: Env, tids: set<Tid>, schedule: seq<Event>, t: Tid) returns (mover: Tid)
    requires env.Valid()
    requires var s := Run(env, tids, schedule); t in s.threads && s.threads[t] != Idle
    ensures var s := Run(env, tids, schedule);
            mover in s.threads && s.threads[mover] != Idle && CanMove(env, s, mover)
  {
    var s := Run(env, tids, schedule);
    ReachableInvariant(env, tids, schedule);
    mover := t;
    if WaitsForLock(s.threads[t]) {
      if s.g.writer.Some? {
        mover := s.g.writer.value;
        assert LockRole(s, mover);
      } else if s.g.readers != {} {
        mover :| mover in s.g.readers;
        assert LockRole(s, mover);
      }
    }
    LockHolderMoves(env, s, mover);
  }
}
