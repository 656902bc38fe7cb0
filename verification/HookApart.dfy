/**
 When the counter of a vector can be trusted.  Callers choose which of their calls on the vector may overlap; calls on
 other vectors and dispatches run at any time, and each unhook call is matched by an earlier hook call.  The counter
 can be trusted if unhook calls are kept apart from hook calls, and also if they are kept apart from each other.
 `HookRace` shows that it cannot be trusted under any other choice.
 */
module HookApart {
  import opened Wrappers
  import opened HookProtocol
  import opened HookInvariant
  import opened HookRefs
  import opened HookKept
  import opened HookMoves
  import opened HookLedger
  import opened HookOwners
  import opened HookStages
  import opened HookTheorems

  // ---- Runs -------------------------------------------------------------------------------------

  predicate InHook(pc: Pc, v: Vec) { (pc.Hooking? || pc.Installing?) && pc.v == v }

  predicate InUnhook(pc: Pc, v: Vec) { (pc.Unhooking? || pc.Restoring?) && pc.v == v }

  ghost predicate NoHook(s: State, v: Vec) { forall u | u in s.threads :: !InHook(s.threads[u], v) }

  ghost predicate NoUnhook(s: State, v: Vec) { forall u | u in s.threads :: !InUnhook(s.threads[u], v) }

  ghost predicate MayHook(d: Discipline, s: State, v: Vec) {
    (d.hookHook || NoHook(s, v)) && (d.hookUnhook || NoUnhook(s, v))
  }

  ghost predicate MayUnhook(d: Discipline, s: State, v: Vec) {
    (d.hookUnhook || NoHook(s, v)) && (d.unhookUnhook || NoUnhook(s, v))
  }

  /**
   A call on `v` starts only when no call is in progress that it may not overlap, and an unhook call only when more
   hook calls have counted than unhook calls were started.  A hook call that has returned has counted or has failed.
   */
  ghost predicate Allowed(d: Discipline, x: Ledger, v: Vec, ev: Event) {
    ev.t in x.s.threads && x.s.threads[ev.t] == Idle ==>
      && (ev.call == CallHook(v) ==> MayHook(d, x.s, v))
      && (ev.call == CallUnhook(v) ==> x.unhooks < x.ups && MayUnhook(d, x.s, v))
  }

  /** All calls on `v` in the schedule are allowed when they start. */
  ghost predicate Follows(env: Env, tids: set<Tid>, v: Vec, d: Discipline, schedule: seq<Event>) {
    forall k | 0 <= k < |schedule| :: Allowed(d, Booked(env, tids, v, schedule[..k]), v, schedule[k])
  }

  lemma {:induction false} FreshIs(env: Env, v: Vec, y: Ledger, u: Tid)
    requires Inv(env, y.s) && Owned(y, v)
    ensures FreshAt(y, v, u)
  {
    if At(y, v, u).Fresh? {
      assert OwnHeld(y, v, u) && HeldAlive(y.s, u) && ThreadOk(env, y.s, u);
    }
  }

  lemma {:induction false} StartsApart(d: Discipline, env: Env, v: Vec, x: Ledger, ev: Event)
    requires Allowed(d, x, v, ev) && ev.t in x.s.threads
    ensures var next := ThreadStep(env, x.s.g, x.s.threads[ev.t], ev);
            var act := ActOf(v, x.s.threads[ev.t], next.pc);
            && (act.StartUnhook? ==> x.unhooks < x.ups)
            && (act.StartHook? ==> d.hookUnhook || forall u {:trigger At(x, v, u)} :: !Unhooks(At(x, v, u)))
            && (act.StartUnhook? ==> d.hookUnhook || forall u {:trigger At(x, v, u)} :: !Hooks(At(x, v, u)))
            && (act.StartUnhook? ==> d.unhookUnhook || forall u {:trigger At(x, v, u)} :: !Unhooks(At(x, v, u)))
  {
    var next := ThreadStep(env, x.s.g, x.s.threads[ev.t], ev);
    var act := ActOf(v, x.s.threads[ev.t], next.pc);
    assert act.StartHook? ==> x.s.threads[ev.t] == Idle && ev.call == CallHook(v);
    assert act.StartUnhook? ==> x.s.threads[ev.t] == Idle && ev.call == CallUnhook(v);
  }

  lemma {:induction false} StepActs(d: Discipline, env: Env, v: Vec, x: Ledger, ev: Event)
    requires Inv(env, x.s) && Owned(x, v) && ev.t in x.s.threads && Allowed(d, x, v, ev)
    ensures var y := Tick(env, v, x, ev);
            && Inv(env, y.s) && Owned(y, v)
            && Acts(d, x, y, v, ev.t, ActOf(v, x.s.threads[ev.t], y.s.threads[ev.t]))
  {
    var pc := x.s.threads[ev.t];
    var next := ThreadStep(env, x.s.g, pc, ev);
    var y := Book(x, v, ev.t, next);
    assert y.s == Apply(env, x.s, ev);
    StepKeepsInvariant(env, x.s, ev);
    StepHas(env, v, x, ev);
    OwnedKept(env, v, x, ev.t, next);
    ThreadGoes(env, x.s.g, pc, ev, v);
    StartsApart(d, env, v, x, ev);
    forall u
      ensures FreshAt(y, v, u)
    {
      FreshIs(env, v, y, u);
    }
    forall a, b
      ensures Alone(x, v, a, b)
    {
      LockedAlone(x, v, a, b);
    }
    assert TableAlive(y.s, v);
  }

  lemma {:induction false} StepIsSound(d: Discipline, env: Env, v: Vec, x: Ledger, ev: Event)
    requires d.Safe() && Inv(env, x.s) && Owned(x, v) && Sound(d, x, v) && Allowed(d, x, v, ev)
    ensures var y := Tick(env, v, x, ev); Inv(env, y.s) && Owned(y, v) && Sound(d, y, v)
  {
    if ev.t in x.s.threads {
      StepActs(d, env, v, x, ev);
      var y := Tick(env, v, x, ev);
      SoundKept(d, x, y, v, ev.t, ActOf(v, x.s.threads[ev.t], y.s.threads[ev.t]));
    }
  }

  lemma {:induction false} StartIsSound(env: Env, tids: set<Tid>, v: Vec, d: Discipline)
    requires env.Valid()
    ensures var x := Booked(env, tids, v, []); Inv(env, x.s) && Owned(x, v) && Sound(d, x, v)
  {
    var x := Booked(env, tids, v, []);
    InitialInvariant(env, tids);
    assert x.s == Initial(env, tids);
    NobodyIn(Hookers(x, v));
    NobodyIn(Droppers(x, v));
  }

  lemma {:induction false} RunIsSound(env: Env, tids: set<Tid>, v: Vec, d: Discipline, schedule: seq<Event>)
    requires env.Valid() && d.Safe() && Follows(env, tids, v, d, schedule)
    ensures var x := Booked(env, tids, v, schedule); Inv(env, x.s) && Owned(x, v) && Sound(d, x, v)
    decreases |schedule|
  {
    if schedule == [] {
      StartIsSound(env, tids, v, d);
    } else {
      var n := |schedule| - 1;
      var before := schedule[..n];
      assert forall k | 0 <= k < n :: before[..k] == schedule[..k];
      RunIsSound(env, tids, v, d, before);
      StepIsSound(d, env, v, Booked(env, tids, v, before), schedule[n]);
    }
  }

  // ---- The two promises ---------------------------------------------------------------------------

  /** An entry that is about to be taken out of the table has counter zero. */
  predicate RemovesZero(x: Ledger, v: Vec) {
    forall t | t in x.s.threads && x.s.threads[t] == Restoring(v, RRemove) ::
      v in x.s.g.table && x.s.g.table[v] in x.s.g.live && x.s.g.live[x.s.g.table[v]].counter == 0
  }

  /**
   When no hook or unhook call on the vector is in progress, it is hooked exactly if more hook calls have succeeded
   than unhook calls were made, its counter is the difference, and otherwise it is pristine slot for slot.
   */
  ghost predicate CountDecides(env: Env, x: Ledger, v: Vec)
    requires env.Valid() && v in env.pristine
  {
    NoHook(x.s, v) && NoUnhook(x.s, v) ==>
      var g, depth := x.s.g, x.hooks - x.failed - x.unhooks;
      && depth >= 0 && (v in g.table <==> depth > 0)
      && (v in g.table ==>
            g.table[v] in g.live && g.live[g.table[v]].counter == depth && IsHooked(env, g, v, g.table[v]))
      && (v !in g.table ==> v in g.vectors && g.vectors[v] == env.pristine[v])
  }

  lemma {:induction false} SoundDecides(d: Discipline, env: Env, v: Vec, x: Ledger)
    requires Inv(env, x.s) && Sound(d, x, v) && v in env.pristine
    ensures CountDecides(env, x, v)
  {
    if NoHook(x.s, v) && NoUnhook(x.s, v) {
      NobodyIn(Hookers(x, v));
      NobodyIn(Droppers(x, v));
      assert forall t :: !InBetween(x, v, t);
      assert VectorOk(env, x.s, v);
      SettledMeans(env, x.s, v);
    }
  }

  /**
   Balanced hooking with calls interleaved: both promises hold in every state of every schedule in which unhook calls
   on the vector are kept apart from hook calls, or are kept apart from each other.
   */
  lemma {:induction false} CounterKept(env: Env, tids: set<Tid>, v: Vec, d: Discipline, schedule: seq<Event>)
    requires env.Valid() && v in env.pristine && d.Safe() && Follows(env, tids, v, d, schedule)
    ensures Booked(env, tids, v, schedule).s == Run(env, tids, schedule)
    ensures RemovesZero(Booked(env, tids, v, schedule), v)
    ensures CountDecides(env, Booked(env, tids, v, schedule), v)
  {
    var x := Booked(env, tids, v, schedule);
    BookedIsRun(env, tids, v, schedule);
    RunIsSound(env, tids, v, d, schedule);
    forall t | t in x.s.threads && x.s.threads[t] == Restoring(v, RRemove)
      ensures v in x.s.g.table && x.s.g.table[v] in x.s.g.live && x.s.g.live[x.s.g.table[v]].counter == 0
    {
      assert At(x, v, t) == Removing && Agrees(d, x, v, t);
    }
    SoundDecides(d, env, v, x);
  }
}
