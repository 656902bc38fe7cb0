/** What one step does to the table and the counters, and where a thread gets its entry from. */
module HookMoves {
  import opened Wrappers
  import opened HookProtocol
  import opened HookInvariant

  /** The vector of a hook or unhook call. */
  function Works(pc: Pc): Option<Vec> {
    match pc
    case Idle => None
    case Hooking(v, _) => Some(v)
    case Installing(v, _, _) => Some(v)
    case Unhooking(v, _) => Some(v)
    case Restoring(v, _) => Some(v)
    case Dispatching(_, _, _, _) => None
  }

  /** Only AddEntry and RemoveEntry change the table. */
  predicate TableMove(g: Shared, g': Shared, pc: Pc, pc': Pc) {
    if pc.Installing? && pc.p.IExclusive? && pc'.Installing? && pc'.p.IAdded?
    then pc.v !in g.table && g'.table == g.table[pc.v := pc.n]
    else if pc.Restoring? && pc.r.RRemove? then g'.table == g.table - {pc.v}
    else g'.table == g.table
  }

  /** By how much a step changes the counter of an entry. */
  function Delta(pc: Pc, e: EntryId): int {
    match pc
    case Hooking(_, h) => if h == HFound(e) then 1 else 0
    case Installing(_, n, p) => if p == IFound(e) || (p.IRetained? && n == e) then 1 else 0
    case Unhooking(_, u) => if u == UDecrement(e) then -1 else 0
    case _ => 0
  }

  predicate CountMove(g: Shared, g': Shared, pc: Pc, e: EntryId) {
    e in g'.live ==>
      if e in g.live then g'.live[e].counter == g.live[e].counter + Delta(pc, e)
      else pc.Hooking? && pc.h.HAlloc? && e == g.nextId && g'.live[e].counter == 0
  }

  predicate Allocates(pc: Pc, pc': Pc) { pc.Hooking? && pc.h.HAlloc? && pc'.Installing? }

  /** The entry of the table that a thread is about to retain. */
  function Taken(pc: Pc): Option<EntryId> {
    match pc
    case Hooking(_, h) => if h.HLooked? then Some(h.e) else None
    case Installing(_, n, p) => if p.IAdded? then Some(n) else None
    case Unhooking(_, u) => if u.ULooked? then Some(u.e) else None
    case _ => None
  }

  /** An entry comes from the table, from the step before, or from the allocator. */
  predicate HeldMove(g: Shared, g': Shared, pc: Pc, pc': Pc) {
    && (Held(pc').Some? && Works(pc').Some? ==>
          || (Held(pc) == Held(pc') && Works(pc) == Works(pc'))
          || (Works(pc) == Works(pc') && Taken(pc) == Held(pc'))
          || (Allocates(pc, pc') && pc'.v == pc.v)
          || (pc.Restoring? && pc.r.RRemove? && pc'.Restoring? && pc'.v == pc.v
              && pc.v in g.table && Held(pc') == Some(g.table[pc.v])))
    && (Allocates(pc, pc') ==> pc'.n == g.nextId)
    && g'.nextId == g.nextId + if Allocates(pc, pc') then 1 else 0
  }

  lemma {:induction false} HookingMoves(env: Env, g: Shared, t: Tid, v: Vec, h: HookPc, ok: bool)
    ensures var pc, next := Hooking(v, h), HookStep(env, g, t, v, h, ok);
            TableMove(g, next.g, pc, next.pc) && HeldMove(g, next.g, pc, next.pc)
  {
  }

  lemma {:induction false} HookingCounts(env: Env, g: Shared, t: Tid, v: Vec, h: HookPc, ok: bool, e: EntryId)
    requires g.nextId !in g.live
    ensures CountMove(g, HookStep(env, g, t, v, h, ok).g, Hooking(v, h), e)
  {
  }

  lemma {:induction false} InstallingMoves(env: Env, g: Shared, t: Tid, v: Vec, n: EntryId, p: InstallPc, ok: bool)
    ensures var pc, next := Installing(v, n, p), InstallStep(env, g, t, v, n, p, ok);
            TableMove(g, next.g, pc, next.pc) && HeldMove(g, next.g, pc, next.pc)
  {
  }

  lemma {:induction false} InstallingCounts(env: Env, g: Shared, t: Tid, v: Vec, n: EntryId, p: InstallPc, ok: bool,
                                            e: EntryId)
    ensures CountMove(g, InstallStep(env, g, t, v, n, p, ok).g, Installing(v, n, p), e)
  {
  }

  lemma {:induction false} UnhookingMoves(g: Shared, t: Tid, v: Vec, u: UnhookPc)
    ensures var pc, next := Unhooking(v, u), UnhookStep(g, t, v, u);
            TableMove(g, next.g, pc, next.pc) && HeldMove(g, next.g, pc, next.pc)
  {
  }

  lemma {:induction false} UnhookingCounts(g: Shared, t: Tid, v: Vec, u: UnhookPc, e: EntryId)
    ensures CountMove(g, UnhookStep(g, t, v, u).g, Unhooking(v, u), e)
  {
  }

  lemma {:induction false} RestoringMoves(env: Env, g: Shared, t: Tid, v: Vec, r: RestorePc)
    ensures var pc, next := Restoring(v, r), RestoreStep(env, g, t, v, r);
            TableMove(g, next.g, pc, next.pc) && HeldMove(g, next.g, pc, next.pc)
  {
  }

  lemma {:induction false} RestoringCounts(env: Env, g: Shared, t: Tid, v: Vec, r: RestorePc, e: EntryId)
    ensures CountMove(g, RestoreStep(env, g, t, v, r).g, Restoring(v, r), e)
  {
  }

  lemma {:induction false} DispatchingMoves(env: Env, g: Shared, t: Tid, v: Vec, i: nat, k: nat, q: DispatchPc)
    ensures var pc, next := Dispatching(v, i, k, q), DispatchStep(env, g, t, v, i, k, q);
            TableMove(g, next.g, pc, next.pc) && HeldMove(g, next.g, pc, next.pc)
  {
  }

  lemma {:induction false} DispatchingCounts(env: Env, g: Shared, t: Tid, v: Vec, i: nat, k: nat, q: DispatchPc,
                                             e: EntryId)
    ensures CountMove(g, DispatchStep(env, g, t, v, i, k, q).g, Dispatching(v, i, k, q), e)
  {
  }

  lemma {:induction false} ThreadMoves(env: Env, g: Shared, pc: Pc, ev: Event)
    ensures var next := ThreadStep(env, g, pc, ev);
            TableMove(g, next.g, pc, next.pc) && HeldMove(g, next.g, pc, next.pc)
  {
    match pc {
      case Idle =>
      case Hooking(v, h) => HookingMoves(env, g, ev.t, v, h, ev.ok);
      case Installing(v, n, p) => InstallingMoves(env, g, ev.t, v, n, p, ev.ok);
      case Unhooking(v, u) => UnhookingMoves(g, ev.t, v, u);
      case Restoring(v, r) => RestoringMoves(env, g, ev.t, v, r);
      case Dispatching(v, i, k, q) => DispatchingMoves(env, g, ev.t, v, i, k, q);
    }
  }

  lemma {:induction false} ThreadCounts(env: Env, g: Shared, pc: Pc, ev: Event, e: EntryId)
    requires g.nextId !in g.live
    ensures CountMove(g, ThreadStep(env, g, pc, ev).g, pc, e)
  {
    match pc {
      case Idle =>
      case Hooking(v, h) => HookingCounts(env, g, ev.t, v, h, ev.ok, e);
      case Installing(v, n, p) => InstallingCounts(env, g, ev.t, v, n, p, ev.ok, e);
      case Unhooking(v, u) => UnhookingCounts(g, ev.t, v, u, e);
      case Restoring(v, r) => RestoringCounts(env, g, ev.t, v, r, e);
      case Dispatching(v, i, k, q) => DispatchingCounts(env, g, ev.t, v, i, k, q, e);
    }
  }
}
