/** The protocol seen from one vector: what a step does to its entry, and runs with the calls on the vector counted. */
module HookLedger {
  import opened Wrappers
  import opened HookProtocol
  import opened HookMoves

  /** What a step does for vector `v`. */
  datatype Act =
    | StartHook
    | StartUnhook
    | GetNew(n: EntryId)
    | GiveUp
    | Put(n: EntryId)
    | Up(e: EntryId)
    | Down(e: EntryId)
    | TakeOut
    | Nothing

  /** The act of a thread that goes from `pc` to `pc'`; a hook call gives up where there is no memory. */
  function ActOf(v: Vec, pc: Pc, pc': Pc): Act {
    if pc.Idle? then
      if pc'.Hooking? && pc'.v == v then StartHook else if pc'.Unhooking? && pc'.v == v then StartUnhook else Nothing
    else if Works(pc) != Some(v) then Nothing
    else
      match pc
      case Hooking(_, h) =>
        if h.HFound? then Up(h.e)
        else if !h.HAlloc? then Nothing
        else if pc'.Installing? then GetNew(pc'.n) else GiveUp
      case Installing(_, n, p) =>
        if p.IFound? then Up(p.e)
        else if p.IRetained? then Up(n)
        else if !p.IExclusive? || !pc'.Installing? then Nothing
        else if pc'.p.IAdded? then Put(n) else if pc'.p.ILeave? then GiveUp else Nothing
      case Unhooking(_, u) => if u.UDecrement? then Down(u.e) else Nothing
      case Restoring(_, r) => if r.RRemove? then TakeOut else Nothing
      case _ => Nothing
  }

  /**
   A state, and for one vector how many hook calls were started, how many of them gave up, and how many unhook calls
   were started; then how often a counter was incremented and decremented, and the entries allocated for the vector.
   */
  datatype Ledger = Ledger(s: State, hooks: nat, failed: nat, unhooks: nat, ups: nat, downs: nat, own: set<EntryId>)

  function One(b: bool): nat { if b then 1 else 0 }

  /** One step of thread `t` put down. */
  function Book(x: Ledger, v: Vec, t: Tid, next: Next): Ledger
    requires t in x.s.threads
  {
    var act := ActOf(v, x.s.threads[t], next.pc);
    Ledger(State(next.g, x.s.threads[t := next.pc]),
           x.hooks + One(act.StartHook?), x.failed + One(act.GiveUp?), x.unhooks + One(act.StartUnhook?),
           x.ups + One(act.Up?), x.downs + One(act.Down?), if act.GetNew? then x.own + {act.n} else x.own)
  }

  function Tick(env: Env, v: Vec, x: Ledger, ev: Event): Ledger {
    if ev.t !in x.s.threads then x else Book(x, v, ev.t, ThreadStep(env, x.s.g, x.s.threads[ev.t], ev))
  }

  /** The state after a whole schedule, with the calls on `v` counted. */
  function Booked(env: Env, tids: set<Tid>, v: Vec, schedule: seq<Event>): Ledger
    decreases |schedule|, 1
  {
    if schedule == [] then Ledger(Initial(env, tids), 0, 0, 0, 0, 0, {}) else Later(env, tids, v, schedule)
  }

  function Later(env: Env, tids: set<Tid>, v: Vec, schedule: seq<Event>): Ledger
    requires schedule != []
    decreases |schedule|, 0
  {
    Tick(env, v, Booked(env, tids, v, schedule[..|schedule| - 1]), schedule[|schedule| - 1])
  }

  lemma {:induction false} BookedIsRun(env: Env, tids: set<Tid>, v: Vec, schedule: seq<Event>)
    ensures Booked(env, tids, v, schedule).s == Run(env, tids, schedule)
    decreases |schedule|
  {
    if schedule != [] {
      BookedIsRun(env, tids, v, schedule[..|schedule| - 1]);
    }
  }

  // ---- The stages of a call on one vector -------------------------------------------------------

  /**
   Where a thread is in a hook or unhook call on `v`, and which entry it takes to be the one in the table.  A thread
   that has counted the entry down to zero waits for the lock, looks at the counter again, and removes the entry.
   */
  datatype Stage =
    | Outside
    | HookIn(knows: Option<EntryId>)
    | Fresh(n: EntryId)
    | Adding(n: EntryId)
    | HookOut
    | UnhookIn(knows: Option<EntryId>)
    | UnhookMissed
    | Waiting(e: EntryId)
    | Removing
    | UnhookOut

  function StageOf(v: Vec, pc: Pc): Stage {
    if Works(pc) != Some(v) then Outside
    else
      match pc
      case Hooking(_, h) =>
        if h.HCounted? || h.HDrop? then HookOut
        else if h.HLooked? || h.HFound? then HookIn(Some(h.e)) else HookIn(None)
      case Installing(_, n, p) =>
        if p.IWantExclusive? || p.IExclusive? then Fresh(n)
        else if p.IFound? then HookIn(Some(p.e))
        else if p.IAdded? || p.IRetained? then Adding(n) else HookOut
      case Unhooking(_, u) =>
        if u.UDrop? then UnhookOut
        else if u.UMissed? then UnhookMissed
        else if u.ULooked? || u.UFound? || u.UDecrement? then UnhookIn(Some(u.e)) else UnhookIn(None)
      case Restoring(_, r) =>
        if r.RWantExclusive? || r.RExclusive? then Waiting(r.e)
        else if r.RDropInside? || r.RRemove? then Removing else UnhookOut
      case _ => Outside
  }

  /** A call looks the vector up, ends, or leaves an entry that is in use after all. */
  predicate GoesOn(g: Shared, v: Vec, st: Stage, st': Stage) {
    match st
    case HookIn(_) => st'.HookIn? && v in g.table && st'.knows == Some(g.table[v])
    case Fresh(_) => st'.HookIn? && v in g.table && st'.knows == Some(g.table[v])
    case HookOut => st' == Outside
    case UnhookIn(_) =>
      if v in g.table then st' == UnhookIn(Some(g.table[v])) else st' == UnhookMissed
    case UnhookMissed => st' == Outside
    case Waiting(e) => e in g.live && st' == if g.live[e].counter == 0 then Removing else UnhookOut
    case UnhookOut => st' == Outside
    case _ => false
  }

  /** The stages on either side of an act. */
  predicate Goes(g: Shared, v: Vec, st: Stage, act: Act, st': Stage) {
    match act
    case StartHook => st == Outside && st' == HookIn(None)
    case StartUnhook => st == Outside && st' == UnhookIn(None)
    case GetNew(n) => st == HookIn(None) && st' == Fresh(n)
    case GiveUp => (st == HookIn(None) && st' == Outside) || (st.Fresh? && st' == HookOut)
    case Put(n) => st == Fresh(n) && st' == Adding(n)
    case Up(e) => (st == HookIn(Some(e)) || st == Adding(e)) && st' == HookOut
    case Down(e) =>
      st == UnhookIn(Some(e)) && st' == if e in g.live && g.live[e].counter == 1 then Waiting(e) else UnhookOut
    case TakeOut => st == Removing && st' == UnhookOut
    case Nothing => st' == st || GoesOn(g, v, st, st')
  }

  lemma {:induction false} HookGoes(env: Env, g: Shared, t: Tid, w: Vec, h: HookPc, ok: bool, v: Vec)
    ensures var pc, next := Hooking(w, h), HookStep(env, g, t, w, h, ok);
            Goes(g, v, StageOf(v, pc), ActOf(v, pc, next.pc), StageOf(v, next.pc))
  {
  }

  lemma {:induction false} InstallGoes(env: Env, g: Shared, t: Tid, w: Vec, n: EntryId, p: InstallPc, ok: bool, v: Vec)
    ensures var pc, next := Installing(w, n, p), InstallStep(env, g, t, w, n, p, ok);
            Goes(g, v, StageOf(v, pc), ActOf(v, pc, next.pc), StageOf(v, next.pc))
  {
  }

  lemma {:induction false} UnhookGoes(g: Shared, t: Tid, w: Vec, u: UnhookPc, v: Vec)
    ensures var pc, next := Unhooking(w, u), UnhookStep(g, t, w, u);
            Goes(g, v, StageOf(v, pc), ActOf(v, pc, next.pc), StageOf(v, next.pc))
  {
  }

  lemma {:induction false} RestoreGoes(env: Env, g: Shared, t: Tid, w: Vec, r: RestorePc, v: Vec)
    ensures var pc, next := Restoring(w, r), RestoreStep(env, g, t, w, r);
            Goes(g, v, StageOf(v, pc), ActOf(v, pc, next.pc), StageOf(v, next.pc))
  {
  }

  lemma {:induction false} ThreadGoes(env: Env, g: Shared, pc: Pc, ev: Event, v: Vec)
    ensures var next := ThreadStep(env, g, pc, ev);
            Goes(g, v, StageOf(v, pc), ActOf(v, pc, next.pc), StageOf(v, next.pc))
  {
    match pc {
      case Idle =>
      case Hooking(w, h) => HookGoes(env, g, ev.t, w, h, ev.ok, v);
      case Installing(w, n, p) => InstallGoes(env, g, ev.t, w, n, p, ev.ok, v);
      case Unhooking(w, u) => UnhookGoes(g, ev.t, w, u, v);
      case Restoring(w, r) => RestoreGoes(env, g, ev.t, w, r, v);
      case Dispatching(w, i, k, q) =>
    }
  }
}
