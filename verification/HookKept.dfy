/** Each program point of the protocol keeps the data consistent and never faults. */
module HookKept {
  import opened Wrappers
  import opened HookProtocol
  import opened HookInvariant
  import opened HookSteps
  import opened HookRefs
  import opened HookData

  /** What the case lemmas below establish for the step of thread `t`. */
  ghost predicate Kept(env: Env, s: State, t: Tid, next: Next)
    requires env.Valid()
  {
    !next.g.fault && DataInv(env, After(s, next.g, t, next.pc))
  }

  /** The lock and reference parts are already known to hold after the step. */
  ghost predicate Ready(env: Env, s: State, t: Tid, pc: Pc, next: Next) {
    && Inv(env, s) && t in s.threads && s.threads[t] == pc
    && RefInv(After(s, next.g, t, next.pc)) && LockInv(After(s, next.g, t, next.pc))
  }

  lemma {:induction false} PrivateEntry(env: Env, s: State, t: Tid, v: Vec)
    requires Inv(env, s) && t in s.threads
    ensures Unpublished(env, After(s, Allocate(env, s.g), t, Installing(v, s.g.nextId, IWantExclusive)), t, s.g.nextId)
  {
    var n := s.g.nextId;
    var s' := After(s, Allocate(env, s.g), t, Installing(v, n, IWantExclusive));
    assert Accounted(s, n);
    UnknownIsUnused(s, n);
    forall u | u != t
      ensures NotHeldBy(s', u, n)
    {
      assert u in Holders(s, n) <==> u in s.threads && Held(s.threads[u]) == Some(n);
    }
  }

  lemma {:induction false} DataAllocated(env: Env, s: State, t: Tid, v: Vec)
    requires Ready(env, s, t, Hooking(v, HAlloc), HookStep(env, s.g, t, v, HAlloc, true))
    ensures Kept(env, s, t, HookStep(env, s.g, t, v, HAlloc, true))
  {
    var next := HookStep(env, s.g, t, v, HAlloc, true);
    assert ThreadOk(env, s, t) && Accounted(s, s.g.nextId);
    PrivateEntry(env, s, t, v);
    DataMoved(env, s, next.g, t, next.pc);
  }

  lemma {:induction false} DataHook(env: Env, s: State, t: Tid, v: Vec, h: HookPc, ok: bool)
    requires Ready(env, s, t, Hooking(v, h), HookStep(env, s.g, t, v, h, ok))
    ensures Kept(env, s, t, HookStep(env, s.g, t, v, h, ok))
  {
    var next := HookStep(env, s.g, t, v, h, ok);
    assert ThreadOk(env, s, t);
    if h.HAlloc? && ok {
      DataAllocated(env, s, t, v);
    } else {
      assert TableAlive(s, v) && HeldAlive(s, t);
      if h.HDrop? {
        assert Counted(s, h.e);
      }
      DataMoved(env, s, next.g, t, next.pc);
    }
  }

  lemma {:induction false} DataUnhook(env: Env, s: State, t: Tid, v: Vec, u: UnhookPc)
    requires Ready(env, s, t, Unhooking(v, u), UnhookStep(s.g, t, v, u))
    ensures Kept(env, s, t, UnhookStep(s.g, t, v, u))
  {
    var next := UnhookStep(s.g, t, v, u);
    assert ThreadOk(env, s, t) && TableAlive(s, v) && HeldAlive(s, t);
    if u.UDrop? {
      assert Counted(s, u.e);
    }
    DataMoved(env, s, next.g, t, next.pc);
  }

  /** With the lock held shared, no vector is being changed. */
  lemma {:induction false} SharedMeansSettled(env: Env, s: State, t: Tid, v: Vec)
    requires Inv(env, s) && t in s.threads && HoldsShared(s.threads[t]) && v in s.g.vectors
    ensures Settled(env, s, v)
  {
    assert LockRole(s, t) && VectorOk(env, s, v);
  }

  /** The entry that the table holds for a vector nobody changes has all its originals. */
  lemma {:induction false} DataLooked(env: Env, s: State, t: Tid, v: Vec, i: nat, k: nat, e: EntryId)
    requires Ready(env, s, t, Dispatching(v, i, k, QLooked(e)), DispatchStep(env, s.g, t, v, i, k, QLooked(e)))
    ensures Kept(env, s, t, DispatchStep(env, s.g, t, v, i, k, QLooked(e)))
  {
    var next := DispatchStep(env, s.g, t, v, i, k, QLooked(e));
    assert ThreadOk(env, s, t) && TableAlive(s, v);
    SharedMeansSettled(env, s, t, v);
    DataMoved(env, s, next.g, t, next.pc);
  }

  /** At any instant, lock or no lock, a registered slot holds its own hook or the file system's function. */
  lemma {:induction false} SlotIsHookOrOriginal(env: Env, s: State, v: Vec, i: nat)
    requires Inv(env, s) && v in s.g.vectors && i < |env.d.slots|
    ensures var f := ReadSlot(s.g, v, env.d.slots[i]); f == HookFn(i) || f == env.Original(v, i)
    ensures env.Original(v, i).FsFn?
  {
    assert VectorOk(env, s, v);
    assert env.d.slots[i] < |env.pristine[v]|;
    if s.g.writer.Some? {
      var w := s.g.writer.value;
      assert LockRole(s, w) && ThreadOk(env, s, w);
    }
  }

  lemma {:induction false} DataDispatch(env: Env, s: State, t: Tid, v: Vec, i: nat, k: nat, q: DispatchPc)
    requires Ready(env, s, t, Dispatching(v, i, k, q), DispatchStep(env, s.g, t, v, i, k, q))
    ensures Kept(env, s, t, DispatchStep(env, s.g, t, v, i, k, q))
  {
    var next := DispatchStep(env, s.g, t, v, i, k, q);
    if q.QLooked? {
      DataLooked(env, s, t, v, i, k, q.e);
    } else {
      assert ThreadOk(env, s, t) && HeldAlive(s, t);
      if q.QMissed? {
        SharedMeansSettled(env, s, t, v);
      }
      if q.DReadSlot? {
        SlotIsHookOrOriginal(env, s, v, i);
      }
      if q.QDrop? {
        assert Counted(s, q.e);
      }
      DataMoved(env, s, next.g, t, next.pc);
    }
  }

  // ---- The exclusive owner ------------------------------------------------

  lemma {:induction false} DataInserted(env: Env, s: State, t: Tid, v: Vec, n: EntryId)
    requires Ready(env, s, t, Installing(v, n, IExclusive), InstallStep(env, s.g, t, v, n, IExclusive, true))
    requires v !in s.g.table
    ensures Kept(env, s, t, InstallStep(env, s.g, t, v, n, IExclusive, true))
  {
    var next := InstallStep(env, s.g, t, v, n, IExclusive, true);
    assert ThreadOk(env, s, t) && LockRole(s, t) && VectorOk(env, s, v);
    WriterMoved(env, s, next.g, t, next.pc, v);
  }

  lemma {:induction false} DataSaved(env: Env, s: State, t: Tid, v: Vec, n: EntryId, i: nat, f: Fn)
    requires Ready(env, s, t, Installing(v, n, ISave(i, f)), InstallStep(env, s.g, t, v, n, ISave(i, f), true))
    ensures Kept(env, s, t, InstallStep(env, s.g, t, v, n, ISave(i, f), true))
  {
    var next := InstallStep(env, s.g, t, v, n, ISave(i, f), true);
    assert ThreadOk(env, s, t) && LockRole(s, t);
    SlotIsHookOrOriginal(env, s, v, i);
    forall w
      ensures OnlyVector(s, next.g, v, w)
    {
      assert OneVector(s, v, w);
    }
    assert n in s.g.table.Values;
    WriterMoved(env, s, next.g, t, next.pc, v);
  }

  /** One 8-byte slot write changes that registered slot and nothing else. */
  lemma {:induction false} SlotWritten(env: Env, s: State, s': State, v: Vec, i: nat, f: Fn)
    requires env.Valid() && UnregisteredUntouched(env, s) && v in s.g.vectors && i < |env.d.slots|
    requires s'.g.vectors == WriteSlot(s.g, v, env.d.slots[i], f).vectors
    ensures !WriteSlot(s.g, v, env.d.slots[i], f).fault || s.g.fault
    ensures UnregisteredUntouched(env, s')
    ensures forall j | 0 <= j < |env.d.slots| ::
              s'.g.vectors[v][env.d.slots[j]] == if j == i then f else s.g.vectors[v][env.d.slots[j]]
  {
  }

  lemma {:induction false} DataHooked(env: Env, s: State, t: Tid, v: Vec, n: EntryId, i: nat)
    requires Ready(env, s, t, Installing(v, n, IWrite(i)), InstallStep(env, s.g, t, v, n, IWrite(i), true))
    ensures Kept(env, s, t, InstallStep(env, s.g, t, v, n, IWrite(i), true))
  {
    var next := InstallStep(env, s.g, t, v, n, IWrite(i), true);
    assert ThreadOk(env, s, t) && LockRole(s, t);
    SlotWritten(env, s, After(s, next.g, t, next.pc), v, i, HookFn(i));
    WriterMoved(env, s, next.g, t, next.pc, v);
  }

  lemma {:induction false} DataLocked(env: Env, s: State, t: Tid, v: Vec, n: EntryId)
    requires Ready(env, s, t, Installing(v, n, IWantExclusive), InstallStep(env, s.g, t, v, n, IWantExclusive, true))
    ensures Kept(env, s, t, InstallStep(env, s.g, t, v, n, IWantExclusive, true))
  {
    var next := InstallStep(env, s.g, t, v, n, IWantExclusive, true);
    var s' := After(s, next.g, t, next.pc);
    assert ThreadOk(env, s, t);
    forall u | u != t
      ensures NotHeldBy(s', u, n)
    {
      assert NotHeldBy(s, u, n);
    }
    DataMoved(env, s, next.g, t, next.pc);
  }

  lemma {:induction false} InstallQuietly(env: Env, s: State, t: Tid, v: Vec, n: EntryId, p: InstallPc, ok: bool)
    requires Ready(env, s, t, Installing(v, n, p), InstallStep(env, s.g, t, v, n, p, ok))
    requires !p.ISave? && !p.IWrite? && !p.IWantExclusive? && !(p.IExclusive? && v !in s.g.table && ok)
    ensures Kept(env, s, t, InstallStep(env, s.g, t, v, n, p, ok))
  {
    var next := InstallStep(env, s.g, t, v, n, p, ok);
    assert ThreadOk(env, s, t) && TableAlive(s, v) && HeldAlive(s, t);
    if p.IDrop? {
      assert Counted(s, n);
    }
    DataMoved(env, s, next.g, t, next.pc);
  }

  lemma {:induction false} DataInstall(env: Env, s: State, t: Tid, v: Vec, n: EntryId, p: InstallPc, ok: bool)
    requires Ready(env, s, t, Installing(v, n, p), InstallStep(env, s.g, t, v, n, p, ok))
    ensures Kept(env, s, t, InstallStep(env, s.g, t, v, n, p, ok))
  {
    var next := InstallStep(env, s.g, t, v, n, p, ok);
    assert ThreadOk(env, s, t);
    if p.IExclusive? && v !in s.g.table && ok {
      DataInserted(env, s, t, v, n);
    } else if p.ISave? {
      DataSaved(env, s, t, v, n, p.i, p.f);
    } else if p.IWrite? {
      DataHooked(env, s, t, v, n, p.i);
    } else if p.IWantExclusive? {
      DataLocked(env, s, t, v, n);
    } else {
      InstallQuietly(env, s, t, v, n, p, ok);
    }
  }

  lemma {:induction false} DataRemoved(env: Env, s: State, t: Tid, v: Vec)
    requires Ready(env, s, t, Restoring(v, RRemove), RestoreStep(env, s.g, t, v, RRemove)) && v in s.g.table
    ensures Kept(env, s, t, RestoreStep(env, s.g, t, v, RRemove))
  {
    var next := RestoreStep(env, s.g, t, v, RRemove);
    assert ThreadOk(env, s, t) && LockRole(s, t) && VectorOk(env, s, v);
    WriterMoved(env, s, next.g, t, next.pc, v);
  }

  lemma {:induction false} DataRestored(env: Env, s: State, t: Tid, v: Vec, e: EntryId, i: nat, f: Fn)
    requires Ready(env, s, t, Restoring(v, RWrite(e, i, f)), RestoreStep(env, s.g, t, v, RWrite(e, i, f)))
    ensures Kept(env, s, t, RestoreStep(env, s.g, t, v, RWrite(e, i, f)))
  {
    var next := RestoreStep(env, s.g, t, v, RWrite(e, i, f));
    assert ThreadOk(env, s, t) && LockRole(s, t);
    SlotWritten(env, s, After(s, next.g, t, next.pc), v, i, f);
    WriterMoved(env, s, next.g, t, next.pc, v);
  }

  /** The loop over the registered hooks finds the next one to restore, or none. */
  lemma {:induction false} DataLooped(env: Env, s: State, t: Tid, v: Vec, e: EntryId, i: nat)
    requires Ready(env, s, t, Restoring(v, RLoop(e, i)), RestoreStep(env, s.g, t, v, RLoop(e, i)))
    ensures Kept(env, s, t, RestoreStep(env, s.g, t, v, RLoop(e, i)))
  {
    var next := RestoreStep(env, s.g, t, v, RLoop(e, i));
    assert ThreadOk(env, s, t) && HeldAlive(s, t);
    DataMoved(env, s, next.g, t, next.pc);
  }

  lemma {:induction false} RestoreQuietly(env: Env, s: State, t: Tid, v: Vec, r: RestorePc)
    requires Ready(env, s, t, Restoring(v, r), RestoreStep(env, s.g, t, v, r))
    requires !r.RWrite? && !r.RLoop? && !(r.RRemove? && v in s.g.table)
    ensures Kept(env, s, t, RestoreStep(env, s.g, t, v, r))
  {
    var next := RestoreStep(env, s.g, t, v, r);
    assert ThreadOk(env, s, t) && HeldAlive(s, t);
    if r.RDropInside? {
      assert Counted(s, r.e);
    }
    DataMoved(env, s, next.g, t, next.pc);
  }

  lemma {:induction false} DataRestore(env: Env, s: State, t: Tid, v: Vec, r: RestorePc)
    requires Ready(env, s, t, Restoring(v, r), RestoreStep(env, s.g, t, v, r))
    ensures Kept(env, s, t, RestoreStep(env, s.g, t, v, r))
  {
    if r.RRemove? && v in s.g.table {
      DataRemoved(env, s, t, v);
    } else if r.RWrite? {
      DataRestored(env, s, t, v, r.e, r.i, r.f);
    } else if r.RLoop? {
      DataLooped(env, s, t, v, r.e, r.i);
    } else {
      RestoreQuietly(env, s, t, v, r);
    }
  }

  // ---- All steps ----------------------------------------------------------

  /** The step invariant: no interleaving breaks it, whatever thread moves and whichever allocations fail. */
  lemma {:induction false} StepKeepsInvariant(env: Env, s: State, ev: Event)
    requires Inv(env, s)
    ensures Inv(env, Apply(env, s, ev))
  {
    LockKept(env, s, ev);
    RefKept(env, s, ev);
    if ev.t in s.threads {
      match s.threads[ev.t] {
        case Idle => DataMoved(env, s, s.g, ev.t, StartCall(env, s.g, ev.call));
        case Hooking(v, h) => DataHook(env, s, ev.t, v, h, ev.ok);
        case Installing(v, n, p) => DataInstall(env, s, ev.t, v, n, p, ev.ok);
        case Unhooking(v, u) => DataUnhook(env, s, ev.t, v, u);
        case Restoring(v, r) => DataRestore(env, s, ev.t, v, r);
        case Dispatching(v, i, k, q) => DataDispatch(env, s, ev.t, v, i, k, q);
      }
    }
  }
}
