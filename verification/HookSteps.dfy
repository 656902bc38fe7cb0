/** Every step of the protocol keeps the invariant. */
module HookSteps {
  import opened Wrappers
  import opened HookProtocol
  import opened HookInvariant

  // ---- Lock ---------------------------------------------------------------

  /** The lock fields change exactly as the program counters before and after say. */
  predicate LockMove(g: Shared, g': Shared, t: Tid, pc: Pc, pc': Pc) {
    if HoldsShared(pc') == HoldsShared(pc) && HoldsExclusive(pc') == HoldsExclusive(pc)
    then g'.readers == g.readers && g'.writer == g.writer
    else if HoldsShared(pc') then
      g.writer.None? && g'.readers == g.readers + {t} && g'.writer == g.writer && !HoldsExclusive(pc')
    else if HoldsExclusive(pc') then g.writer.None? && g.readers == {} && g'.readers == {} && g'.writer == Some(t)
    else if HoldsShared(pc) then g'.readers == g.readers - {t} && g'.writer == g.writer && !HoldsExclusive(pc)
    else g'.readers == g.readers && g'.writer == None
  }

  lemma {:induction false} LockKeptByMove(s: State, s': State, t: Tid)
    requires LockInv(s) && t in s.threads && t in s'.threads && s'.threads == s.threads[t := s'.threads[t]]
    requires LockMove(s.g, s'.g, t, s.threads[t], s'.threads[t])
    ensures LockInv(s')
  {
    assert LockRole(s, t);
    forall u
      ensures LockRole(s', u)
    {
      assert LockRole(s, u);
    }
  }

  lemma {:induction false} HookLocks(env: Env, g: Shared, t: Tid, v: Vec, h: HookPc, ok: bool)
    ensures var next := HookStep(env, g, t, v, h, ok); LockMove(g, next.g, t, Hooking(v, h), next.pc)
    ensures g.freed <= HookStep(env, g, t, v, h, ok).g.freed
  {
  }

  lemma {:induction false} InstallLocks(env: Env, g: Shared, t: Tid, v: Vec, n: EntryId, p: InstallPc, ok: bool)
    ensures var next := InstallStep(env, g, t, v, n, p, ok); LockMove(g, next.g, t, Installing(v, n, p), next.pc)
    ensures g.freed <= InstallStep(env, g, t, v, n, p, ok).g.freed
  {
  }

  lemma {:induction false} UnhookLocks(g: Shared, t: Tid, v: Vec, u: UnhookPc)
    ensures var next := UnhookStep(g, t, v, u); LockMove(g, next.g, t, Unhooking(v, u), next.pc)
    ensures g.freed <= UnhookStep(g, t, v, u).g.freed
  {
  }

  lemma {:induction false} RestoreLocks(env: Env, g: Shared, t: Tid, v: Vec, r: RestorePc)
    ensures var next := RestoreStep(env, g, t, v, r); LockMove(g, next.g, t, Restoring(v, r), next.pc)
    ensures g.freed <= RestoreStep(env, g, t, v, r).g.freed
  {
  }

  lemma {:induction false} DispatchLocks(env: Env, g: Shared, t: Tid, v: Vec, i: nat, k: nat, q: DispatchPc)
    ensures var next := DispatchStep(env, g, t, v, i, k, q); LockMove(g, next.g, t, Dispatching(v, i, k, q), next.pc)
    ensures g.freed <= DispatchStep(env, g, t, v, i, k, q).g.freed
  {
  }

  lemma {:induction false} LockKept(env: Env, s: State, ev: Event)
    requires LockInv(s)
    ensures LockInv(Apply(env, s, ev))
  {
    if ev.t in s.threads {
      match s.threads[ev.t] {
        case Idle =>
        case Hooking(v, h) => HookLocks(env, s.g, ev.t, v, h, ev.ok);
        case Installing(v, n, p) => InstallLocks(env, s.g, ev.t, v, n, p, ev.ok);
        case Unhooking(v, u) => UnhookLocks(s.g, ev.t, v, u);
        case Restoring(v, r) => RestoreLocks(env, s.g, ev.t, v, r);
        case Dispatching(v, i, k, q) => DispatchLocks(env, s.g, ev.t, v, i, k, q);
      }
      LockKeptByMove(s, Apply(env, s, ev), ev.t);
    }
  }

  /** Entries leave the heap for good. */
  lemma {:induction false} FreedGrows(env: Env, s: State, ev: Event)
    ensures s.g.freed <= Apply(env, s, ev).g.freed
  {
    if ev.t in s.threads {
      match s.threads[ev.t] {
        case Idle =>
        case Hooking(v, h) => HookLocks(env, s.g, ev.t, v, h, ev.ok);
        case Installing(v, n, p) => InstallLocks(env, s.g, ev.t, v, n, p, ev.ok);
        case Unhooking(v, u) => UnhookLocks(s.g, ev.t, v, u);
        case Restoring(v, r) => RestoreLocks(env, s.g, ev.t, v, r);
        case Dispatching(v, i, k, q) => DispatchLocks(env, s.g, ev.t, v, i, k, q);
      }
    }
  }
}
