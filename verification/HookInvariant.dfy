/**
 What every step of the hooking protocol keeps.  The invariant has three parts:
 the reader/writer lock, the reference counts, and the data (vectors, table and
 saved originals).
 */
module HookInvariant {
  import opened Wrappers
  import opened HookProtocol

  // ---- Lock ---------------------------------------------------------------

  predicate HoldsShared(pc: Pc) {
    match pc
    case Hooking(_, h) => h.HShared? || h.HLooked? || h.HFound? || h.HCounted? || h.HMissed?
    case Unhooking(_, u) => u.UShared? || u.ULooked? || u.UFound? || u.UMissed?
    case Dispatching(_, _, _, q) => q.QShared? || q.QLooked? || q.QFound? || q.QMissed? || q.QHaveSlot?
    case _ => false
  }

  predicate HoldsExclusive(pc: Pc) {
    match pc
    case Installing(_, _, p) => !(p.IWantExclusive? || p.IDrop?)
    case Restoring(_, r) => !r.RWantExclusive?
    case _ => false
  }

  ghost predicate LockRole(s: State, t: Tid) {
    && (t in s.g.readers <==> t in s.threads && HoldsShared(s.threads[t]))
    && (s.g.writer == Some(t) <==> t in s.threads && HoldsExclusive(s.threads[t]))
  }

  ghost predicate LockInv(s: State) {
    && (forall t {:trigger LockRole(s, t)} :: LockRole(s, t))
    && (s.g.writer.Some? ==> s.g.readers == {})
  }

  // ---- References ---------------------------------------------------------

  /** The entry a thread owns a reference to; between AddEntry's insert and retain its reference is the table's. */
  function Held(pc: Pc): Option<EntryId> {
    match pc
    case Idle => None
    case Hooking(_, h) => if h.HFound? || h.HCounted? || h.HDrop? then Some(h.e) else None
    case Installing(_, n, p) => if p.IAdded? then None else Some(n)
    case Unhooking(_, u) => if u.UFound? || u.UDecrement? || u.UDrop? then Some(u.e) else None
    case Restoring(_, r) => if r.RRemove? || r.RLeaveEmpty? then None else Some(r.e)
    case Dispatching(_, _, _, q) => if q.QFound? || q.QReadSaved? || q.QDrop? then Some(q.e) else None
  }

  ghost function Holders(s: State, e: EntryId): set<Tid> {
    set t | t in s.threads && Held(s.threads[t]) == Some(e)
  }

  ghost function TableRefs(s: State, e: EntryId): nat { if e in s.g.table.Values then 1 else 0 }

  ghost predicate Counted(s: State, e: EntryId) {
    e in s.g.live ==> s.g.live[e].refs == TableRefs(s, e) + |Holders(s, e)| && s.g.live[e].refs > 0
  }

  ghost predicate HeldAlive(s: State, t: Tid) {
    t in s.threads && Held(s.threads[t]).Some? ==> Held(s.threads[t]).value in s.g.live
  }

  ghost predicate TableAlive(s: State, v: Vec) { v in s.g.table ==> s.g.table[v] in s.g.live }

  ghost predicate OneVector(s: State, v: Vec, w: Vec) {
    v in s.g.table && w in s.g.table && s.g.table[v] == s.g.table[w] ==> v == w
  }

  /** An identifier given out belongs to exactly one entry, alive or freed once. */
  ghost predicate Accounted(s: State, e: EntryId) {
    && (e < s.g.nextId <==> e in s.g.live || e in s.g.freed)
    && (e in s.g.live ==> e !in s.g.freed)
    && s.g.freed[e] <= 1
  }

  ghost predicate RefInv(s: State) {
    && (forall e {:trigger Counted(s, e)} :: Counted(s, e))
    && (forall t {:trigger HeldAlive(s, t)} :: HeldAlive(s, t))
    && (forall v {:trigger TableAlive(s, v)} :: TableAlive(s, v))
    && (forall v, w {:trigger OneVector(s, v, w)} :: OneVector(s, v, w))
    && (forall e {:trigger Accounted(s, e)} :: Accounted(s, e))
  }

  // ---- Data ---------------------------------------------------------------

  /** Originals below `n` are saved in `e`, the others are still NULL. */
  ghost predicate SavedBelow(env: Env, s: State, e: EntryId, v: Vec, n: nat)
    requires env.Valid()
  {
    && e in s.g.live
    && |s.g.live[e].orig| == env.d.enumMax
    && (forall j | 0 <= j < |env.d.enums| ::
          s.g.live[e].orig[env.d.enums[j]] == if j < n then env.Original(v, j) else NullFn)
  }

  /** All registered originals of `v` are saved in `e`. */
  ghost predicate Complete(env: Env, s: State, e: EntryId, v: Vec)
    requires env.Valid()
  {
    SavedBelow(env, s, e, v, |env.d.slots|)
  }

  /** Registered slots from `lo` to below `hi` hold the hooks, the others the file system's functions. */
  ghost predicate HookedBetween(env: Env, s: State, v: Vec, lo: nat, hi: nat)
    requires env.Valid()
  {
    && v in s.g.vectors && v in env.pristine && |s.g.vectors[v]| == |env.pristine[v]|
    && (forall j | 0 <= j < |env.d.slots| ::
          s.g.vectors[v][env.d.slots[j]] == if lo <= j < hi then HookFn(j) else env.Original(v, j))
  }

  ghost predicate Settled(env: Env, s: State, v: Vec)
    requires env.Valid()
  {
    if v in s.g.table then Complete(env, s, s.g.table[v], v) && HookedBetween(env, s, v, 0, |env.d.slots|)
    else HookedBetween(env, s, v, 0, 0)
  }

  /** The vector a thread is in the middle of changing. */
  function Changing(pc: Pc): Option<Vec> {
    match pc
    case Installing(v, _, p) =>
      if p.IAdded? || p.IRetained? || p.ILoop? || p.ISave? || p.IWrite? then Some(v) else None
    case Restoring(v, r) => if r.RLoop? || r.RWrite? then Some(v) else None
    case _ => None
  }

  ghost predicate NotHeldBy(s: State, u: Tid, n: EntryId) {
    u in s.threads ==> Held(s.threads[u]) != Some(n)
  }

  /** Only thread `t` knows entry `n`, and nothing is saved in it yet. */
  ghost predicate Unpublished(env: Env, s: State, t: Tid, n: EntryId)
    requires env.Valid()
  {
    && n !in s.g.table.Values
    && SavedBelow(env, s, n, 0, 0)
    && (forall u {:trigger NotHeldBy(s, u, n)} :: u != t ==> NotHeldBy(s, u, n))
  }

  /** The table holds `n` for `v`, with the first `saved` originals saved and the first `hooked` slots hooked. */
  ghost predicate HalfHooked(env: Env, s: State, v: Vec, n: EntryId, saved: nat, hooked: nat)
    requires env.Valid()
  {
    && v in s.g.table && s.g.table[v] == n && saved <= |env.d.slots|
    && SavedBelow(env, s, n, v, saved)
    && HookedBetween(env, s, v, 0, hooked)
  }

  /** `v` is out of the table and its first `i` slots are restored. */
  ghost predicate HalfRestored(env: Env, s: State, v: Vec, e: EntryId, i: nat)
    requires env.Valid()
  {
    && v !in s.g.table && i <= |env.d.slots|
    && Complete(env, s, e, v)
    && HookedBetween(env, s, v, i, |env.d.slots|)
  }

  /** What the program counter of a thread says about the data. */
  ghost predicate ThreadOk(env: Env, s: State, t: Tid)
    requires env.Valid() && t in s.threads
  {
    match s.threads[t]
    case Idle => true
    case Hooking(v, h) => v in s.g.vectors && (h.HLooked? ==> v in s.g.table && s.g.table[v] == h.e)
    case Installing(v, n, p) =>
      && v in s.g.vectors
      && (match p
          case IWantExclusive => Unpublished(env, s, t, n)
          case IExclusive => Unpublished(env, s, t, n)
          case IFound(e) => v in s.g.table && s.g.table[v] == e
          case IAdded => HalfHooked(env, s, v, n, 0, 0)
          case IRetained => HalfHooked(env, s, v, n, 0, 0)
          case ILoop(i) => HalfHooked(env, s, v, n, i, i)
          case ISave(i, f) => i < |env.d.slots| && f == env.Original(v, i) && HalfHooked(env, s, v, n, i, i)
          case IWrite(i) => HalfHooked(env, s, v, n, i + 1, i)
          case ILeave => true
          case IDrop => true)
    case Unhooking(v, u) => v in s.g.vectors && (u.ULooked? ==> v in s.g.table && s.g.table[v] == u.e)
    case Restoring(v, r) =>
      && v in s.g.vectors
      && (match r
          case RLoop(e, i) => HalfRestored(env, s, v, e, i)
          case RWrite(e, i, f) => i < |env.d.slots| && f == env.Original(v, i) && HalfRestored(env, s, v, e, i)
          case _ => true)
    case Dispatching(v, i, k, q) =>
      && v in s.g.vectors && k == i < |env.d.slots|
      && (match q
          case QLooked(e) => v in s.g.table && s.g.table[v] == e
          case QFound(e) => Complete(env, s, e, v)
          case QMissed(again) => v !in s.g.table
          case QHaveSlot(f) => f == env.Original(v, i)
          case QReadSaved(e) => Complete(env, s, e, v)
          case QDrop(e, f) => f == env.Original(v, i)
          case Called(f) => f == env.Original(v, i)
          case _ => true)
  }

  ghost predicate UnregisteredUntouched(env: Env, s: State) {
    && s.g.vectors.Keys == env.pristine.Keys
    && (forall v {:trigger env.pristine[v]} | v in s.g.vectors :: |s.g.vectors[v]| == |env.pristine[v]|)
    && (forall v, k | v in s.g.vectors && 0 <= k < |s.g.vectors[v]| && k !in env.d.slots ::
          s.g.vectors[v][k] == env.pristine[v][k])
  }

  ghost predicate OriginalsOnly(s: State, e: EntryId) {
    e in s.g.live ==> forall f | f in s.g.live[e].orig :: f.NullFn? || f.FsFn?
  }

  /** No thread is changing `v`, or one is and its program counter describes it. */
  ghost predicate VectorOk(env: Env, s: State, v: Vec)
    requires env.Valid()
  {
    && v in s.g.vectors
    && !(s.g.writer.Some? && s.g.writer.value in s.threads && Changing(s.threads[s.g.writer.value]) == Some(v))
    ==> Settled(env, s, v)
  }

  ghost predicate DataInv(env: Env, s: State)
    requires env.Valid()
  {
    && UnregisteredUntouched(env, s)
    && s.g.table.Keys <= s.g.vectors.Keys
    && (forall e {:trigger OriginalsOnly(s, e)} :: OriginalsOnly(s, e))
    && (forall t {:trigger ThreadOk(env, s, t)} | t in s.threads :: ThreadOk(env, s, t))
    && (forall v {:trigger VectorOk(env, s, v)} :: VectorOk(env, s, v))
  }

  ghost predicate Inv(env: Env, s: State) {
    && env.Valid()
    && !s.g.fault
    && LockInv(s)
    && RefInv(s)
    && DataInv(env, s)
  }
}
