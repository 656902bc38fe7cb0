/**
 The threads in calls on one vector, as a machine of stages and acts: what the counter of the vector says, depending on
 which calls the callers let overlap.
 */
module HookStages {
  import opened Wrappers
  import opened HookProtocol
  import opened HookInvariant
  import opened HookMoves
  import opened HookLedger
  import opened HookOwners

  /** Which calls on one vector the callers let overlap. */
  datatype Discipline = Discipline(hookHook: bool, hookUnhook: bool, unhookUnhook: bool)
  {
    /** Unhook calls are kept apart from hook calls, or from each other. */
    predicate Safe() { !hookUnhook || !unhookUnhook }
  }

  function At(x: Ledger, v: Vec, t: Tid): Stage {
    if t in x.s.threads then StageOf(v, x.s.threads[t]) else Outside
  }

  predicate Hooks(st: Stage) { st.HookIn? || st.Fresh? || st.Adding? || st.HookOut? }

  predicate Removes(st: Stage) { st.Waiting? || st.Removing? }

  predicate Unhooks(st: Stage) { st.UnhookIn? || st.UnhookMissed? || Removes(st) || st.UnhookOut? }

  /** Hook calls that have not counted yet. */
  predicate Uncounted(st: Stage) { st.HookIn? || st.Fresh? || st.Adding? }

  ghost function Hookers(x: Ledger, v: Vec): set<Tid> { set t | t in x.s.threads && Uncounted(At(x, v, t)) }

  ghost function Droppers(x: Ledger, v: Vec): set<Tid> { set t | t in x.s.threads && At(x, v, t).UnhookIn? }

  /** A thread that changes the table or the entry under the exclusive lock keeps out all that need the lock. */
  predicate Alone(x: Ledger, v: Vec, t: Tid, u: Tid) {
    var st, other := At(x, v, t), At(x, v, u);
    t != u && (st.Adding? || st.Removing?) ==>
      !other.Adding? && !other.Removing? && (other.HookIn? ==> other.knows == None)
  }

  lemma {:induction false} LockedAlone(x: Ledger, v: Vec, t: Tid, u: Tid)
    requires LockInv(x.s)
    ensures Alone(x, v, t, u)
  {
    assert LockRole(x.s, t) && LockRole(x.s, u);
  }

  // ---- The invariant ----------------------------------------------------------------------------

  predicate Known(g: Shared, v: Vec, e: Option<EntryId>) { e.Some? ==> v in g.table && g.table[v] == e.value }

  /** What the stage of a thread says about the entry of the vector. */
  predicate Agrees(d: Discipline, x: Ledger, v: Vec, t: Tid) {
    match At(x, v, t)
    case HookIn(e) => Known(x.s.g, v, e)
    case Fresh(n) =>
      n in x.own && n in x.s.g.live && x.s.g.live[n].counter == 0 && (v in x.s.g.table ==> x.s.g.table[v] != n)
    case Adding(n) => v in x.s.g.table && x.s.g.table[v] == n
    case UnhookIn(e) => Known(x.s.g, v, e)
    case UnhookMissed => false
    case Waiting(e) => v in x.s.g.table && x.s.g.table[v] == e && (d.hookUnhook || x.ups == x.downs)
    case Removing => v in x.s.g.table && x.ups == x.downs
    case _ => true
  }

  /** Calls overlap only as allowed, and only one thread at a time wants to remove the entry. */
  predicate Apart(d: Discipline, x: Ledger, v: Vec, t: Tid, u: Tid) {
    && (Hooks(At(x, v, t)) && Unhooks(At(x, v, u)) ==> d.hookUnhook)
    && (Unhooks(At(x, v, t)) && Unhooks(At(x, v, u)) ==> d.unhookUnhook || t == u)
    && (Removes(At(x, v, t)) && Removes(At(x, v, u)) ==> t == u)
  }

  /** Every call started has given up, has counted, or has yet to count; and no unhook call lacks its hook. */
  ghost predicate Numbers(x: Ledger, v: Vec) {
    && |Hookers(x, v)| == x.hooks - x.failed - x.ups
    && |Droppers(x, v)| == x.unhooks - x.downs
    && x.unhooks <= x.ups
  }

  /** The counter of the entry is what was counted. */
  predicate Entered(x: Ledger, v: Vec) {
    if v in x.s.g.table
    then var e := x.s.g.table[v];
         e in x.own && e in x.s.g.live && x.s.g.live[e].counter == x.ups - x.downs
    else x.ups == x.downs
  }

  predicate InBetween(x: Ledger, v: Vec, t: Tid) { At(x, v, t).Adding? || Removes(At(x, v, t)) }

  /** An entry that counts nothing is about to be counted or about to be removed. */
  ghost predicate Watched(x: Ledger, v: Vec) {
    v in x.s.g.table && x.ups == x.downs ==> exists t {:trigger InBetween(x, v, t)} :: InBetween(x, v, t)
  }

  ghost predicate Sound(d: Discipline, x: Ledger, v: Vec) {
    && Numbers(x, v) && Entered(x, v) && Watched(x, v)
    && (forall t {:trigger Agrees(d, x, v, t)} :: Agrees(d, x, v, t))
    && (forall t, u {:trigger Apart(d, x, v, t, u)} :: Apart(d, x, v, t, u))
  }

  lemma {:induction false} NobodyIn<T>(s: set<T>)
    requires forall t :: t !in s
    ensures s == {} && |s| == 0
  {
  }

  /** An unhook call that has not decremented the counter finds the vector hooked. */
  lemma {:induction false} DropperMeans(d: Discipline, x: Ledger, v: Vec, t: Tid)
    requires Sound(d, x, v) && At(x, v, t).UnhookIn?
    ensures x.downs < x.ups && v in x.s.g.table
  {
    assert t in Droppers(x, v);
  }

  /** The thread that removes the entry is alone: no other call on the vector still needs it. */
  lemma {:induction false} RemoverMeans(d: Discipline, x: Ledger, v: Vec, t: Tid, u: Tid)
    requires Sound(d, x, v) && Alone(x, v, t, u) && At(x, v, t).Removing? && u != t
    ensures var st := At(x, v, u);
            st.Outside? || st.Fresh? || st.HookOut? || st.UnhookOut? || st == HookIn(None)
    ensures !d.hookUnhook ==> At(x, v, u).Outside? || At(x, v, u).UnhookOut?
  {
    assert Agrees(d, x, v, t) && Agrees(d, x, v, u) && Apart(d, x, v, t, u) && Apart(d, x, v, u, t);
    if At(x, v, u).UnhookIn? {
      DropperMeans(d, x, v, u);
    }
  }

  // ---- What a step does to the entry of the vector ----------------------------------------------

  function Change(act: Act, e: EntryId): int { if act == Up(e) then 1 else if act == Down(e) then -1 else 0 }

  predicate TableAfter(g: Shared, g': Shared, v: Vec, act: Act) {
    match act
    case Put(n) => v !in g.table && v in g'.table && g'.table[v] == n
    case TakeOut => v !in g'.table
    case _ => (v in g'.table <==> v in g.table) && (v in g.table ==> g'.table[v] == g.table[v])
  }

  predicate CountAfter(x: Ledger, g': Shared, act: Act, e: EntryId) {
    e in x.own && e in g'.live ==> e in x.s.g.live && g'.live[e].counter == x.s.g.live[e].counter + Change(act, e)
  }

  ghost predicate Effect(x: Ledger, g': Shared, v: Vec, act: Act) {
    && TableAfter(x.s.g, g', v, act)
    && (forall e {:trigger CountAfter(x, g', act, e)} :: CountAfter(x, g', act, e))
    && (act.GetNew? ==> act.n !in x.s.g.live && (act.n in g'.live ==> g'.live[act.n].counter == 0))
  }

  lemma {:induction false} CountsChange(env: Env, v: Vec, x: Ledger, t: Tid, next: Next, e: EntryId)
    requires Stepped(env, x, t, next) && Owned(x, v) && CountMove(x.s.g, next.g, x.s.threads[t], e)
    ensures CountAfter(x, next.g, ActOf(v, x.s.threads[t], next.pc), e)
  {
    var pc := x.s.threads[t];
    assert Accounted(x.s, x.s.g.nextId) && OwnHeld(x, v, t) && ThreadOk(env, x.s, t);
    if pc.Installing? {
      assert OwnTable(x, v, pc.v);
    }
  }

  lemma {:induction false} StepHas(env: Env, v: Vec, x: Ledger, ev: Event)
    requires Inv(env, x.s) && Owned(x, v) && ev.t in x.s.threads
    ensures var next := ThreadStep(env, x.s.g, x.s.threads[ev.t], ev);
            Stepped(env, x, ev.t, next) && Effect(x, next.g, v, ActOf(v, x.s.threads[ev.t], next.pc))
  {
    var pc := x.s.threads[ev.t];
    var next := ThreadStep(env, x.s.g, pc, ev);
    ThreadMoves(env, x.s.g, pc, ev);
    assert Accounted(x.s, x.s.g.nextId);
    forall e
      ensures CountAfter(x, next.g, ActOf(v, pc, next.pc), e)
    {
      ThreadCounts(env, x.s.g, pc, ev, e);
      CountsChange(env, v, x, ev.t, next, e);
    }
    ThreadCounts(env, x.s.g, pc, ev, x.s.g.nextId);
  }

  // ---- A step from one stage to another keeps the invariant ---------------------------------------

  /** An entry that is not in the table yet is alive, and nobody has put it there. */
  predicate FreshAt(y: Ledger, v: Vec, u: Tid) {
    At(y, v, u).Fresh? ==>
      var n := At(y, v, u).n; n in y.own && n in y.s.g.live && (v in y.s.g.table ==> y.s.g.table[v] != n)
  }

  /** Thread `t` goes from `x` to `y` by `act`, and no call starts that may not. */
  ghost predicate Acts(d: Discipline, x: Ledger, y: Ledger, v: Vec, t: Tid, act: Act) {
    && t in x.s.threads && y.s.threads.Keys == x.s.threads.Keys
    && (forall u {:trigger At(y, v, u)} :: u != t ==> At(y, v, u) == At(x, v, u))
    && Goes(x.s.g, v, At(x, v, t), act, At(y, v, t)) && Effect(x, y.s.g, v, act)
    && y.hooks == x.hooks + One(act.StartHook?) && y.failed == x.failed + One(act.GiveUp?)
    && y.unhooks == x.unhooks + One(act.StartUnhook?)
    && y.ups == x.ups + One(act.Up?) && y.downs == x.downs + One(act.Down?)
    && y.own == (if act.GetNew? then x.own + {act.n} else x.own)
    && (v in y.s.g.table ==> y.s.g.table[v] in y.s.g.live)
    && (forall u {:trigger FreshAt(y, v, u)} :: FreshAt(y, v, u))
    && (forall a, b {:trigger Alone(x, v, a, b)} :: Alone(x, v, a, b))
    && (act.StartUnhook? ==> x.unhooks < x.ups)
    && (act.StartHook? ==> d.hookUnhook || forall u {:trigger At(x, v, u)} :: !Unhooks(At(x, v, u)))
    && (act.StartUnhook? ==> d.hookUnhook || forall u {:trigger At(x, v, u)} :: !Hooks(At(x, v, u)))
    && (act.StartUnhook? ==> d.unhookUnhook || forall u {:trigger At(x, v, u)} :: !Unhooks(At(x, v, u)))
  }

  /** Two sets that differ in one thread at most. */
  lemma {:induction false} OneChanged(a: set<Tid>, b: set<Tid>, t: Tid)
    requires forall u | u != t :: u in b <==> u in a
    ensures |b| == |a| + One(t in b) - One(t in a)
  {
    if t in b && t !in a {
      assert b == a + {t};
    } else if t in a && t !in b {
      assert b == a - {t};
    } else {
      assert b == a;
    }
  }

  lemma {:induction false} HookersAfter(d: Discipline, x: Ledger, y: Ledger, v: Vec, t: Tid, act: Act)
    requires Acts(d, x, y, v, t, act)
    ensures |Hookers(y, v)| == |Hookers(x, v)| + One(Uncounted(At(y, v, t))) - One(Uncounted(At(x, v, t)))
  {
    OneChanged(Hookers(x, v), Hookers(y, v), t);
  }

  lemma {:induction false} DroppersAfter(d: Discipline, x: Ledger, y: Ledger, v: Vec, t: Tid, act: Act)
    requires Acts(d, x, y, v, t, act)
    ensures |Droppers(y, v)| == |Droppers(x, v)| + One(At(y, v, t).UnhookIn?) - One(At(x, v, t).UnhookIn?)
  {
    OneChanged(Droppers(x, v), Droppers(y, v), t);
  }

  /** What the invariant says about a thread. */
  lemma {:induction false} MoverMeans(d: Discipline, x: Ledger, v: Vec, t: Tid)
    requires Sound(d, x, v)
    ensures Agrees(d, x, v, t)
    ensures At(x, v, t).UnhookIn? ==> x.downs < x.ups && v in x.s.g.table
  {
    assert Agrees(d, x, v, t);
    if At(x, v, t).UnhookIn? {
      DropperMeans(d, x, v, t);
    }
  }

  lemma {:induction false} NumbersKept(d: Discipline, x: Ledger, y: Ledger, v: Vec, t: Tid, act: Act)
    requires Sound(d, x, v) && Acts(d, x, y, v, t, act)
    ensures Numbers(y, v)
  {
    MoverMeans(d, x, v, t);
    HookersAfter(d, x, y, v, t, act);
    DroppersAfter(d, x, y, v, t, act);
  }

  lemma {:induction false} EnteredKept(d: Discipline, x: Ledger, y: Ledger, v: Vec, t: Tid, act: Act)
    requires Sound(d, x, v) && Acts(d, x, y, v, t, act)
    ensures Entered(y, v)
  {
    MoverMeans(d, x, v, t);
    if v in y.s.g.table {
      assert CountAfter(x, y.s.g, act, y.s.g.table[v]);
    }
  }

  lemma {:induction false} WatchedKept(d: Discipline, x: Ledger, y: Ledger, v: Vec, t: Tid, act: Act)
    requires Sound(d, x, v) && Acts(d, x, y, v, t, act)
    ensures Watched(y, v)
  {
    MoverMeans(d, x, v, t);
    if v in y.s.g.table && y.ups == y.downs {
      if v in x.s.g.table && x.ups == x.downs {
        var u :| InBetween(x, v, u);
        if u != t {
          assert InBetween(y, v, u);
        } else {
          assert InBetween(y, v, t);
        }
      } else {
        assert InBetween(y, v, t);
      }
    }
  }

  lemma {:induction false} MoverAgrees(d: Discipline, x: Ledger, y: Ledger, v: Vec, t: Tid, act: Act)
    requires Sound(d, x, v) && Acts(d, x, y, v, t, act)
    ensures Agrees(d, y, v, t)
  {
    MoverMeans(d, x, v, t);
    assert FreshAt(y, v, t);
    if At(y, v, t).Fresh? {
      assert CountAfter(x, y.s.g, act, At(y, v, t).n);
    }
  }

  lemma {:induction false} OtherAgrees(d: Discipline, x: Ledger, y: Ledger, v: Vec, t: Tid, act: Act, u: Tid)
    requires Sound(d, x, v) && Acts(d, x, y, v, t, act) && u != t
    ensures Agrees(d, y, v, u)
  {
    MoverMeans(d, x, v, t);
    MoverMeans(d, x, v, u);
    assert FreshAt(y, v, u) && Apart(d, x, v, t, u) && Alone(x, v, u, t) && Alone(x, v, t, u);
    if At(x, v, u).Fresh? {
      assert CountAfter(x, y.s.g, act, At(x, v, u).n);
    }
  }

  /** At most one thread at a time comes to want to remove the entry. */
  lemma {:induction false} RemoverKept(d: Discipline, x: Ledger, y: Ledger, v: Vec, t: Tid, act: Act, u: Tid)
    requires d.Safe() && Sound(d, x, v) && Acts(d, x, y, v, t, act) && u != t
    ensures !(Removes(At(y, v, t)) && Removes(At(y, v, u)))
  {
    MoverMeans(d, x, v, t);
    MoverMeans(d, x, v, u);
    assert Apart(d, x, v, t, u) && Apart(d, x, v, u, t);
  }

  lemma {:induction false} ApartKept(d: Discipline, x: Ledger, y: Ledger, v: Vec, t: Tid, act: Act, a: Tid, b: Tid)
    requires d.Safe() && Sound(d, x, v) && Acts(d, x, y, v, t, act)
    ensures Apart(d, y, v, a, b)
  {
    assert Apart(d, x, v, a, b) && Apart(d, x, v, b, a);
    if a != t {
      RemoverKept(d, x, y, v, t, act, a);
    }
    if b != t {
      RemoverKept(d, x, y, v, t, act, b);
    }
  }

  lemma {:induction false} SoundKept(d: Discipline, x: Ledger, y: Ledger, v: Vec, t: Tid, act: Act)
    requires d.Safe() && Sound(d, x, v) && Acts(d, x, y, v, t, act)
    ensures Sound(d, y, v)
  {
    NumbersKept(d, x, y, v, t, act);
    EnteredKept(d, x, y, v, t, act);
    WatchedKept(d, x, y, v, t, act);
    forall u
      ensures Agrees(d, y, v, u)
    {
      if u == t {
        MoverAgrees(d, x, y, v, t, act);
      } else {
        OtherAgrees(d, x, y, v, t, act, u);
      }
    }
    forall a, b
      ensures Apart(d, y, v, a, b)
    {
      ApartKept(d, x, y, v, t, act, a, b);
    }
  }
}
