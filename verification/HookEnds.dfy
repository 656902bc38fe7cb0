/**
 Every call ends.  A thread inside a call either waits for the lock, changing nothing, or comes nearer to the end of its
 call with each step; and as some thread can always go on, all calls in progress can be run to their end.
 */
module HookEnds {
  import opened Wrappers
  import opened HookProtocol
  import opened HookInvariant
  import opened HookKept
  import opened HookTheorems

  // ---- How far a call is from its end -------------------------------------------------------------

  /** The registered operations from `i` on. */
  function Left(env: Env, i: nat): nat { if i < |env.d.slots| then |env.d.slots| - i else 0 }

  function InstallRank(env: Env, p: InstallPc): nat {
    match p
    case IWantExclusive => 3 * Left(env, 0) + 7
    case IExclusive => 3 * Left(env, 0) + 6
    case IAdded => 3 * Left(env, 0) + 5
    case IRetained => 3 * Left(env, 0) + 4
    case ILoop(i) => 3 * Left(env, i) + 3
    case ISave(i, _) => 3 * Left(env, i) + 2
    case IWrite(i) => 3 * Left(env, i) + 1
    case IFound(_) => 3
    case ILeave => 2
    case IDrop => 1
  }

  function HookRank(env: Env, h: HookPc): nat {
    match h
    case HWantShared => InstallRank(env, IWantExclusive) + 4
    case HShared => InstallRank(env, IWantExclusive) + 3
    case HMissed => InstallRank(env, IWantExclusive) + 2
    case HAlloc => InstallRank(env, IWantExclusive) + 1
    case HLooked(_) => 4
    case HFound(_) => 3
    case HCounted(_) => 2
    case HDrop(_) => 1
  }

  function RestoreRank(env: Env, r: RestorePc): nat {
    match r
    case RWantExclusive(_) => 2 * Left(env, 0) + 7
    case RExclusive(_) => 2 * Left(env, 0) + 6
    case RDropInside(_) => 2 * Left(env, 0) + 5
    case RRemove => 2 * Left(env, 0) + 4
    case RLoop(_, i) => 2 * Left(env, i) + 3
    case RWrite(_, i, _) => 2 * Left(env, i) + 2
    case RLeave(_) => 2
    case RLeaveEmpty => 1
  }

  function UnhookRank(env: Env, u: UnhookPc): nat {
    match u
    case UWantShared => 2 * Left(env, 0) + 12
    case UShared => 2 * Left(env, 0) + 11
    case ULooked(_) => 2 * Left(env, 0) + 10
    case UFound(_) => 2 * Left(env, 0) + 9
    case UDecrement(_) => 2 * Left(env, 0) + 8
    case UMissed => 1
    case UDrop(_) => 1
  }

  function DispatchRank(q: DispatchPc): nat {
    match q
    case DReadSlot => 11
    case QWantShared(again) => if again then 7 else 10
    case QShared(again) => if again then 6 else 9
    case QMissed(again) => if again then 3 else 8
    case QLooked(_) => 5
    case QFound(_) => 4
    case QReadSaved(_) => 3
    case QDrop(_, _) => 2
    case QHaveSlot(_) => 2
    case Called(_) => 1
  }

  /** At most so many steps, not counting those in which it waits for the lock, end the call. */
  function Rank(env: Env, pc: Pc): nat {
    match pc
    case Idle => 0
    case Hooking(_, h) => HookRank(env, h)
    case Installing(_, _, p) => InstallRank(env, p)
    case Unhooking(_, u) => UnhookRank(env, u)
    case Restoring(_, r) => RestoreRank(env, r)
    case Dispatching(_, _, _, q) => DispatchRank(q)
  }

  // ---- Every step of a call brings it nearer to its end -------------------------------------------

  /** The thread needs the lock and does not get it now. */
  predicate Blocked(g: Shared, pc: Pc) {
    && WaitsForLock(pc)
    && (g.writer.Some? || ((pc.Installing? || pc.Restoring?) && g.readers != {}))
  }

  predicate Busy(s: State, t: Tid) { t in s.threads && s.threads[t] != Idle }

  lemma {:induction false} SameThreads(env: Env, tids: set<Tid>, schedule: seq<Event>)
    ensures Run(env, tids, schedule).threads.Keys == tids
  {
    if schedule != [] {
      SameThreads(env, tids, schedule[..|schedule| - 1]);
    }
  }

  /** What a step does to the rank of its thread. */
  predicate Nearer(env: Env, g: Shared, pc: Pc, next: Next) {
    if Blocked(g, pc) then next == Next(g, pc) else Rank(env, next.pc) < Rank(env, pc)
  }

  lemma {:induction false} HookNearer(env: Env, g: Shared, t: Tid, v: Vec, h: HookPc, ok: bool)
    ensures Nearer(env, g, Hooking(v, h), HookStep(env, g, t, v, h, ok))
  {
  }

  lemma {:induction false} InstallNearer(env: Env, g: Shared, t: Tid, v: Vec, n: EntryId, p: InstallPc, ok: bool)
    requires env.Valid() && !InstallStep(env, g, t, v, n, p, ok).g.fault
    ensures Nearer(env, g, Installing(v, n, p), InstallStep(env, g, t, v, n, p, ok))
  {
  }

  lemma {:induction false} UnhookNearer(env: Env, g: Shared, t: Tid, v: Vec, u: UnhookPc)
    ensures Nearer(env, g, Unhooking(v, u), UnhookStep(g, t, v, u))
  {
  }

  lemma {:induction false} RestoreNearer(env: Env, g: Shared, t: Tid, v: Vec, r: RestorePc)
    requires env.Valid() && !RestoreStep(env, g, t, v, r).g.fault
    ensures Nearer(env, g, Restoring(v, r), RestoreStep(env, g, t, v, r))
  {
  }

  lemma {:induction false} DispatchNearer(env: Env, g: Shared, t: Tid, v: Vec, i: nat, k: nat, q: DispatchPc)
    requires env.Valid() && !DispatchStep(env, g, t, v, i, k, q).g.fault
    ensures Nearer(env, g, Dispatching(v, i, k, q), DispatchStep(env, g, t, v, i, k, q))
  {
  }

  /** A blocked thread changes nothing, any other comes nearer to the end of its call. */
  lemma {:induction false} StepEnds(env: Env, s: State, ev: Event)
    requires Inv(env, s) && ev.t in s.threads && s.threads[ev.t] != Idle
    ensures Nearer(env, s.g, s.threads[ev.t], ThreadStep(env, s.g, s.threads[ev.t], ev))
  {
    StepKeepsInvariant(env, s, ev);
    assert !Apply(env, s, ev).g.fault;
    match s.threads[ev.t] {
      case Idle =>
      case Hooking(v, h) => HookNearer(env, s.g, ev.t, v, h, ev.ok);
      case Installing(v, n, p) => InstallNearer(env, s.g, ev.t, v, n, p, ev.ok);
      case Unhooking(v, u) => UnhookNearer(env, s.g, ev.t, v, u);
      case Restoring(v, r) => RestoreNearer(env, s.g, ev.t, v, r);
      case Dispatching(v, i, k, q) => DispatchNearer(env, s.g, ev.t, v, i, k, q);
    }
  }

  // ---- One call -----------------------------------------------------------------------------------

  /** Thread `t` takes a step of its call in this event, and does not wait for the lock. */
  predicate Advances(s: State, t: Tid, ev: Event) {
    ev.t == t && t in s.threads && s.threads[t] != Idle && !Blocked(s.g, s.threads[t])
  }

  /** How many steps thread `t` takes in `more` after `schedule`. */
  function Steps(env: Env, tids: set<Tid>, schedule: seq<Event>, more: seq<Event>, t: Tid): nat
    decreases |more|
  {
    if more == [] then 0
    else
      var before := more[..|more| - 1];
      Steps(env, tids, schedule, before, t)
      + if Advances(Run(env, tids, schedule + before), t, more[|more| - 1]) then 1 else 0
  }

  lemma {:induction false} OneLonger(env: Env, tids: set<Tid>, schedule: seq<Event>, more: seq<Event>)
    requires more != []
    ensures var n := |more| - 1;
            Run(env, tids, schedule + more) == Apply(env, Run(env, tids, schedule + more[..n]), more[n])
  {
    var n, all := |more| - 1, schedule + more;
    assert all[..|all| - 1] == schedule + more[..n];
  }

  lemma {:induction false} RankIsBounded(env: Env, pc: Pc)
    ensures Rank(env, pc) <= 3 * |env.d.slots| + 12
  {
  }

  /** While a call is in progress, each of its steps lowers its rank and no step of another thread changes it. */
  lemma {:induction false} CallSteps(env: Env, tids: set<Tid>, schedule: seq<Event>, more: seq<Event>, t: Tid)
    requires env.Valid() && t in tids
    requires forall k | 0 <= k < |more| :: Busy(Run(env, tids, schedule + more[..k]), t)
    ensures t in Run(env, tids, schedule).threads && t in Run(env, tids, schedule + more).threads
    ensures Steps(env, tids, schedule, more, t) + Rank(env, Run(env, tids, schedule + more).threads[t])
            <= Rank(env, Run(env, tids, schedule).threads[t])
    decreases |more|
  {
    SameThreads(env, tids, schedule);
    if more == [] {
      assert schedule + more == schedule;
    } else {
      var n := |more| - 1;
      var before, s := more[..n], Run(env, tids, schedule + more[..n]);
      assert forall k | 0 <= k < n :: before[..k] == more[..k];
      CallSteps(env, tids, schedule, before, t);
      ReachableInvariant(env, tids, schedule + before);
      OneLonger(env, tids, schedule, more);
      assert Busy(s, t);
      if more[n].t == t {
        StepEnds(env, s, more[n]);
      }
    }
  }

  /**
   Every call ends: whatever the other threads do, a call is over after at most `3 * n + 12` steps of its own, with `n`
   registered hooks and steps in which it waits for the lock not counted.
   */
  lemma {:induction false} CallEnds(env: Env, tids: set<Tid>, schedule: seq<Event>, more: seq<Event>, t: Tid)
    requires env.Valid() && t in tids
    requires Steps(env, tids, schedule, more, t) >= 3 * |env.d.slots| + 12
    ensures exists k | 0 <= k <= |more| :: !Busy(Run(env, tids, schedule + more[..k]), t)
  {
    if forall k | 0 <= k <= |more| :: Busy(Run(env, tids, schedule + more[..k]), t) {
      CallSteps(env, tids, schedule, more, t);
      assert more[..|more|] == more;
      assert Busy(Run(env, tids, schedule + more), t);
      RankIsBounded(env, Run(env, tids, schedule).threads[t]);
    }
  }

  // ---- All calls ----------------------------------------------------------------------------------

  /** What the calls of the threads below `n` are from their end, together. */
  function Total(env: Env, threads: map<Tid, Pc>, n: nat): nat {
    if n == 0 then 0 else Total(env, threads, n - 1) + if n - 1 in threads then Rank(env, threads[n - 1]) else 0
  }

  lemma {:induction false} TotalDrops(env: Env, threads: map<Tid, Pc>, t: Tid, pc: Pc, n: nat)
    requires t in threads
    ensures Total(env, threads[t := pc], n)
            == Total(env, threads, n) + if t < n then Rank(env, pc) - Rank(env, threads[t]) else 0
  {
    if n != 0 {
      TotalDrops(env, threads, t, pc, n - 1);
    }
  }

  lemma {:induction false} SomeBound(tids: set<Tid>) returns (n: nat)
    ensures forall t | t in tids :: t < n
  {
    if tids == {} {
      n := 0;
    } else {
      var t :| t in tids;
      var m := SomeBound(tids - {t});
      n := if t < m then m else t + 1;
      assert forall u | u in tids :: u == t || u in tids - {t};
    }
  }

  /** No event of `more` starts a call or is lost on a thread that waits for the lock. */
  ghost predicate AllAdvance(env: Env, tids: set<Tid>, schedule: seq<Event>, more: seq<Event>) {
    forall k | 0 <= k < |more| :: Advances(Run(env, tids, schedule + more[..k]), more[k].t, more[k])
  }

  lemma {:induction false} OneFirst(env: Env, tids: set<Tid>, schedule: seq<Event>, ev: Event, rest: seq<Event>)
    requires Advances(Run(env, tids, schedule), ev.t, ev) && AllAdvance(env, tids, schedule + [ev], rest)
    ensures AllAdvance(env, tids, schedule, [ev] + rest)
    ensures schedule + ([ev] + rest) == schedule + [ev] + rest
  {
    var more := [ev] + rest;
    assert schedule + more[..0] == schedule;
    forall k | 0 < k < |more|
      ensures Advances(Run(env, tids, schedule + more[..k]), more[k].t, more[k])
    {
      assert schedule + more[..k] == schedule + [ev] + rest[..k - 1];
    }
  }

  /** While some call is in progress, an event can be chosen that brings a call nearer to its end. */
  lemma {:induction false} SomeAdvances(env: Env, tids: set<Tid>, schedule: seq<Event>, n: nat) returns (ev: Event)
    requires env.Valid() && !Quiet(Run(env, tids, schedule)) && forall t | t in tids :: t < n
    ensures Advances(Run(env, tids, schedule), ev.t, ev)
    ensures Total(env, Run(env, tids, schedule + [ev]).threads, n) < Total(env, Run(env, tids, schedule).threads, n)
  {
    var s := Run(env, tids, schedule);
    var t :| t in s.threads && s.threads[t] != Idle;
    var mover := NoDeadlock(env, tids, schedule, t);
    ev := Event(mover, CallHook(0), true);
    ReachableInvariant(env, tids, schedule);
    StepEnds(env, s, ev);
    var all := schedule + [ev];
    assert all[..|all| - 1] == schedule;
    SameThreads(env, tids, schedule);
    TotalDrops(env, s.threads, mover, ThreadStep(env, s.g, s.threads[mover], ev).pc, n);
  }

  lemma {:induction false} AllEndBelow(env: Env, tids: set<Tid>, schedule: seq<Event>, n: nat)
    returns (more: seq<Event>)
    requires env.Valid() && forall t | t in tids :: t < n
    ensures Quiet(Run(env, tids, schedule + more)) && AllAdvance(env, tids, schedule, more)
    decreases Total(env, Run(env, tids, schedule).threads, n)
  {
    if Quiet(Run(env, tids, schedule)) {
      more := [];
      assert schedule + more == schedule;
    } else {
      var ev := SomeAdvances(env, tids, schedule, n);
      var rest := AllEndBelow(env, tids, schedule + [ev], n);
      OneFirst(env, tids, schedule, ev, rest);
      more := [ev] + rest;
    }
  }

  /** From every reachable state the calls in progress can be run to their end, without starting another. */
  lemma {:induction false} AllEnd(env: Env, tids: set<Tid>, schedule: seq<Event>) returns (more: seq<Event>)
    requires env.Valid()
    ensures Quiet(Run(env, tids, schedule + more)) && AllAdvance(env, tids, schedule, more)
  {
    var n := SomeBound(tids);
    more := AllEndBelow(env, tids, schedule, n);
  }
}
