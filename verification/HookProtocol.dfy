/**
 Threads hook and unhook shared vnode operation vectors while other threads
 dispatch through those vectors with no lock.  The protocol is a step system:
 one step is one lock acquisition or release, one slot write, one atomic counter
 change, one retain or release, or one unlocked slot read.
 `Apply` is total: touching an entry that is not alive, or saving over an original
 that is already set, raises `fault` instead of blocking the step.
 */
module HookProtocol {
  import opened Wrappers

  type Tid = nat
  type Vec = nat
  type EntryId = nat

  /** What a slot of an operation vector, or a saved original, may hold. */
  datatype Fn =
    | NullFn
    | NotHookedMark
    | HookFn(op: nat)
    | FsFn(code: nat)

  /** The registered hooks in hooking order, as operation -> slot and operation -> enum index. */
  datatype Descriptors = Descriptors(slots: seq<nat>, enums: seq<nat>, enumMax: nat)
  {
    ghost predicate Valid() {
      && |slots| == |enums|
      && (forall i, j | 0 <= i < j < |slots| :: slots[i] != slots[j])
      && (forall i, j | 0 <= i < j < |enums| :: enums[i] != enums[j])
      && (forall i | 0 <= i < |enums| :: enums[i] < enumMax)
    }

    /** Every registered operation has its slot in a vector of this length. */
    ghost predicate Fits(length: nat) { forall i | 0 <= i < |slots| :: slots[i] < length }

    predicate Registered(i: nat) { i < |slots| == |enums| }
  }

  datatype Env = Env(d: Descriptors, pristine: map<Vec, seq<Fn>>)
  {
    ghost predicate Valid() {
      && d.Valid()
      && (forall v | v in pristine :: d.Fits(|pristine[v]|))
      && (forall v, k | v in pristine && 0 <= k < |pristine[v]| :: pristine[v][k].FsFn?)
    }

    /** The file system's own function for registered operation `i` of vector `v`. */
    function Original(v: Vec, i: nat): Fn {
      if v in pristine && i < |d.slots| && d.slots[i] < |pristine[v]| then pristine[v][d.slots[i]] else NullFn
    }
  }

  /** FltVnodeHookEntry together with its OSObject reference count. */
  datatype Entry = Entry(refs: nat, counter: int, orig: seq<Fn>)

  /** FltHookVnodeVop up to the allocation of a new entry. */
  datatype HookPc =
    | HWantShared
    | HShared
    | HLooked(e: EntryId)
    | HFound(e: EntryId)
    | HCounted(e: EntryId)
    | HMissed
    | HDrop(e: EntryId)
    | HAlloc

  /** FltHookVnodeVop once it owns a new entry. */
  datatype InstallPc =
    | IWantExclusive
    | IExclusive
    | IFound(e: EntryId)
    | IAdded
    | IRetained
    | ILoop(i: nat)
    | ISave(i: nat, f: Fn)
    | IWrite(i: nat)
    | ILeave
    | IDrop

  /** FltUnHookVnodeVop up to the counter decrement, and its last release. */
  datatype UnhookPc =
    | UWantShared
    | UShared
    | ULooked(e: EntryId)
    | UFound(e: EntryId)
    | UMissed
    | UDecrement(e: EntryId)
    | UDrop(e: EntryId)

  /** FltUnHookVnodeVop once it saw the counter reach zero. */
  datatype RestorePc =
    | RWantExclusive(e: EntryId)
    | RExclusive(e: EntryId)
    | RDropInside(e: EntryId)
    | RRemove
    | RLoop(e: EntryId, i: nat)
    | RWrite(e: EntryId, i: nat, f: Fn)
    | RLeave(e: EntryId)
    | RLeaveEmpty

  datatype DispatchPc =
    | DReadSlot
    | QWantShared(again: bool)
    | QShared(again: bool)
    | QLooked(e: EntryId)
    | QFound(e: EntryId)
    | QMissed(again: bool)
    | QHaveSlot(f: Fn)
    | QReadSaved(e: EntryId)
    | QDrop(e: EntryId, f: Fn)
    | Called(f: Fn)

  datatype Pc =
    | Idle
    | Hooking(v: Vec, h: HookPc)
    | Installing(v: Vec, n: EntryId, p: InstallPc)
    | Unhooking(v: Vec, u: UnhookPc)
    | Restoring(v: Vec, r: RestorePc)
    // VFS calls operation `i`; a hook found in its slot asks for the original of operation `k`.
    | Dispatching(v: Vec, i: nat, k: nat, q: DispatchPc)

  /** What all threads share. */
  datatype Shared = Shared(
    vectors: map<Vec, seq<Fn>>,
    table: map<Vec, EntryId>,
    live: map<EntryId, Entry>,
    freed: multiset<EntryId>,
    nextId: EntryId,
    readers: set<Tid>,
    writer: Option<Tid>,
    fault: bool)

  datatype State = State(g: Shared, threads: map<Tid, Pc>)

  /** The outcome of one step of one thread: the new shared state and the thread's new program counter. */
  datatype Next = Next(g: Shared, pc: Pc)

  /** What an idle thread calls next. */
  datatype Call = CallHook(v: Vec) | CallUnhook(v: Vec) | CallDispatch(v: Vec, i: nat)

  /** The scheduler picks a thread, the call it starts when idle, and whether an allocation in this step succeeds. */
  datatype Event = Event(t: Tid, call: Call, ok: bool)

  // ---- Primitive effects --------------------------------------------------

  function Retain(g: Shared, e: EntryId): Shared {
    if e in g.live then g.(live := g.live[e := g.live[e].(refs := g.live[e].refs + 1)])
    else g.(fault := true)
  }

  function Release(g: Shared, e: EntryId): Shared {
    if e !in g.live || g.live[e].refs == 0 then g.(fault := true)
    else if g.live[e].refs == 1 then g.(live := g.live - {e}, freed := g.freed + multiset{e})
    else g.(live := g.live[e := g.live[e].(refs := g.live[e].refs - 1)])
  }

  function Count(g: Shared, e: EntryId, delta: int): Shared {
    if e in g.live then g.(live := g.live[e := g.live[e].(counter := g.live[e].counter + delta)])
    else g.(fault := true)
  }

  /** setOriginalVop: the slot must still be NULL. */
  function SaveOriginal(g: Shared, e: EntryId, k: nat, f: Fn): Shared {
    if e in g.live && k < |g.live[e].orig| && g.live[e].orig[k].NullFn?
    then g.(live := g.live[e := g.live[e].(orig := g.live[e].orig[k := f])])
    else g.(fault := true)
  }

  function SavedOriginal(g: Shared, e: EntryId, k: nat): Fn {
    if e in g.live && k < |g.live[e].orig| then g.live[e].orig[k] else NullFn
  }

  function ReadSlot(g: Shared, v: Vec, k: nat): Fn {
    if v in g.vectors && k < |g.vectors[v]| then g.vectors[v][k] else NullFn
  }

  function WriteSlot(g: Shared, v: Vec, k: nat, f: Fn): Shared {
    if v in g.vectors && k < |g.vectors[v]| then g.(vectors := g.vectors[v := g.vectors[v][k := f]])
    else g.(fault := true)
  }

  function Allocate(env: Env, g: Shared): Shared {
    g.(live := g.live[g.nextId := Entry(1, 0, seq(env.d.enumMax, _ => NullFn))], nextId := g.nextId + 1)
  }

  function LockShared(g: Shared, t: Tid, waiting: Pc, entered: Pc): Next {
    if g.writer.None? then Next(g.(readers := g.readers + {t}), entered) else Next(g, waiting)
  }

  function UnlockShared(g: Shared, t: Tid, pc: Pc): Next { Next(g.(readers := g.readers - {t}), pc) }

  function LockExclusive(g: Shared, t: Tid, waiting: Pc, entered: Pc): Next {
    if g.writer.None? && g.readers == {} then Next(g.(writer := Some(t)), entered) else Next(g, waiting)
  }

  function UnlockExclusive(g: Shared, pc: Pc): Next { Next(g.(writer := None), pc) }

  function Fail(g: Shared, pc: Pc): Next { Next(g.(fault := true), pc) }

  // ---- Steps --------------------------------------------------------------

  function HookStep(env: Env, g: Shared, t: Tid, v: Vec, h: HookPc, ok: bool): Next {
    match h
    case HWantShared => LockShared(g, t, Hooking(v, h), Hooking(v, HShared))
    case HShared =>
      if v in g.table then Next(g, Hooking(v, HLooked(g.table[v]))) else Next(g, Hooking(v, HMissed))
    case HLooked(e) => Next(Retain(g, e), Hooking(v, HFound(e)))
    case HFound(e) => Next(Count(g, e, 1), Hooking(v, HCounted(e)))
    case HCounted(e) => UnlockShared(g, t, Hooking(v, HDrop(e)))
    case HMissed => UnlockShared(g, t, Hooking(v, HAlloc))
    case HDrop(e) => Next(Release(g, e), Idle)
    case HAlloc =>
      if ok then Next(Allocate(env, g), Installing(v, g.nextId, IWantExclusive))
      else Next(g, Idle)
  }

  function InstallStep(env: Env, g: Shared, t: Tid, v: Vec, n: EntryId, p: InstallPc, ok: bool): Next {
    match p
    case IWantExclusive => LockExclusive(g, t, Installing(v, n, p), Installing(v, n, IExclusive))
    case IExclusive =>
      if v in g.table then Next(g, Installing(v, n, IFound(g.table[v])))
      else if ok then Next(g.(table := g.table[v := n]), Installing(v, n, IAdded))
      else Next(g, Installing(v, n, ILeave))
    case IFound(e) => Next(Count(g, e, 1), Installing(v, n, ILeave))
    case IAdded => Next(Retain(g, n), Installing(v, n, IRetained))
    case IRetained => Next(Count(g, n, 1), Installing(v, n, ILoop(0)))
    case ILoop(i) =>
      if env.d.Registered(i) then Next(g, Installing(v, n, ISave(i, ReadSlot(g, v, env.d.slots[i]))))
      else Next(g, Installing(v, n, ILeave))
    case ISave(i, f) =>
      if env.d.Registered(i) then Next(SaveOriginal(g, n, env.d.enums[i], f), Installing(v, n, IWrite(i)))
      else Fail(g, Installing(v, n, p))
    case IWrite(i) =>
      if env.d.Registered(i) then Next(WriteSlot(g, v, env.d.slots[i], HookFn(i)), Installing(v, n, ILoop(i + 1)))
      else Fail(g, Installing(v, n, p))
    case ILeave => UnlockExclusive(g, Installing(v, n, IDrop))
    case IDrop => Next(Release(g, n), Idle)
  }

  function UnhookStep(g: Shared, t: Tid, v: Vec, u: UnhookPc): Next {
    match u
    case UWantShared => LockShared(g, t, Unhooking(v, u), Unhooking(v, UShared))
    case UShared =>
      if v in g.table then Next(g, Unhooking(v, ULooked(g.table[v]))) else Next(g, Unhooking(v, UMissed))
    case ULooked(e) => Next(Retain(g, e), Unhooking(v, UFound(e)))
    case UFound(e) => UnlockShared(g, t, Unhooking(v, UDecrement(e)))
    case UMissed => UnlockShared(g, t, Idle)
    case UDecrement(e) =>
      // OSDecrementAtomic returns the value before the decrement.
      if e in g.live && g.live[e].counter == 1 then Next(Count(g, e, -1), Restoring(v, RWantExclusive(e)))
      else Next(Count(g, e, -1), Unhooking(v, UDrop(e)))
    case UDrop(e) => Next(Release(g, e), Idle)
  }

  function RestoreStep(env: Env, g: Shared, t: Tid, v: Vec, r: RestorePc): Next {
    match r
    case RWantExclusive(e) => LockExclusive(g, t, Restoring(v, r), Restoring(v, RExclusive(e)))
    case RExclusive(e) =>
      if e !in g.live then Fail(g, Restoring(v, r))
      else if g.live[e].counter != 0 then Next(g, Restoring(v, RLeave(e)))
      else Next(g, Restoring(v, RDropInside(e)))
    case RDropInside(e) => Next(Release(g, e), Restoring(v, RRemove))
    case RRemove =>
      if v in g.table then Next(g.(table := g.table - {v}), Restoring(v, RLoop(g.table[v], 0)))
      else Next(g, Restoring(v, RLeaveEmpty))
    case RLoop(e, i) =>
      if !env.d.Registered(i) then Next(g, Restoring(v, RLeave(e)))
      else if e !in g.live then Fail(g, Restoring(v, r))
      else if SavedOriginal(g, e, env.d.enums[i]).NotHookedMark? then Next(g, Restoring(v, RLoop(e, i + 1)))
      else Next(g, Restoring(v, RWrite(e, i, SavedOriginal(g, e, env.d.enums[i]))))
    case RWrite(e, i, f) =>
      if env.d.Registered(i) then Next(WriteSlot(g, v, env.d.slots[i], f), Restoring(v, RLoop(e, i + 1)))
      else Fail(g, Restoring(v, r))
    case RLeave(e) => UnlockExclusive(g, Unhooking(v, UDrop(e)))
    case RLeaveEmpty => UnlockExclusive(g, Idle)
  }

  /** VFS calls through a slot with no lock; a hook it finds there runs FltGetOriginalVnodeOp. */
  function DispatchStep(env: Env, g: Shared, t: Tid, v: Vec, i: nat, k: nat, q: DispatchPc): Next {
    match q
    case DReadSlot =>
      if !env.d.Registered(i) then Fail(g, Dispatching(v, i, k, q))
      else
        var f := ReadSlot(g, v, env.d.slots[i]);
        if f.HookFn? then Next(g, Dispatching(v, i, f.op, QWantShared(false)))
        else Next(g, Dispatching(v, i, k, Called(f)))
    case QWantShared(again) => LockShared(g, t, Dispatching(v, i, k, q), Dispatching(v, i, k, QShared(again)))
    case QShared(again) =>
      if v in g.table then Next(g, Dispatching(v, i, k, QLooked(g.table[v])))
      else Next(g, Dispatching(v, i, k, QMissed(again)))
    case QLooked(e) => Next(Retain(g, e), Dispatching(v, i, k, QFound(e)))
    case QFound(e) => UnlockShared(g, t, Dispatching(v, i, k, QReadSaved(e)))
    case QMissed(again) =>
      if !again then UnlockShared(g, t, Dispatching(v, i, k, QWantShared(true)))
      else if env.d.Registered(k) then Next(g, Dispatching(v, i, k, QHaveSlot(ReadSlot(g, v, env.d.slots[k]))))
      else Fail(g, Dispatching(v, i, k, q))
    case QHaveSlot(f) => UnlockShared(g, t, Dispatching(v, i, k, Called(f)))
    case QReadSaved(e) =>
      if e in g.live && env.d.Registered(k)
      then Next(g, Dispatching(v, i, k, QDrop(e, SavedOriginal(g, e, env.d.enums[k]))))
      else Fail(g, Dispatching(v, i, k, q))
    case QDrop(e, f) => Next(Release(g, e), Dispatching(v, i, k, Called(f)))
    case Called(f) => Next(g, Idle)
  }

  function StartCall(env: Env, g: Shared, call: Call): Pc {
    match call
    case CallHook(v) => if v in g.vectors then Hooking(v, HWantShared) else Idle
    case CallUnhook(v) => if v in g.vectors then Unhooking(v, UWantShared) else Idle
    case CallDispatch(v, i) =>
      if v in g.vectors && env.d.Registered(i) then Dispatching(v, i, i, DReadSlot) else Idle
  }

  function ThreadStep(env: Env, g: Shared, pc: Pc, ev: Event): Next {
    match pc
    case Idle => Next(g, StartCall(env, g, ev.call))
    case Hooking(v, h) => HookStep(env, g, ev.t, v, h, ev.ok)
    case Installing(v, n, p) => InstallStep(env, g, ev.t, v, n, p, ev.ok)
    case Unhooking(v, u) => UnhookStep(g, ev.t, v, u)
    case Restoring(v, r) => RestoreStep(env, g, ev.t, v, r)
    case Dispatching(v, i, k, q) => DispatchStep(env, g, ev.t, v, i, k, q)
  }

  /** One step of the thread the scheduler picked; a thread waiting for the lock does not move. */
  function Apply(env: Env, s: State, ev: Event): State {
    if ev.t !in s.threads then s
    else
      var next := ThreadStep(env, s.g, s.threads[ev.t], ev);
      State(next.g, s.threads[ev.t := next.pc])
  }

  function Initial(env: Env, tids: set<Tid>): State {
    State(Shared(env.pristine, map[], map[], multiset{}, 0, {}, None, false), map t | t in tids :: Idle)
  }

  /** The state after a whole schedule. */
  function Run(env: Env, tids: set<Tid>, schedule: seq<Event>): State {
    if schedule == [] then Initial(env, tids)
    else Apply(env, Run(env, tids, schedule[..|schedule| - 1]), schedule[|schedule| - 1])
  }
}
