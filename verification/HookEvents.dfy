/**
 The calls of a run counted by what the scheduler did, and not by what the threads do: which calls were started, and
 how often memory was refused.  A hook call is lost only if an allocation failed.
 */
module HookEvents {
  import opened Wrappers
  import opened HookProtocol
  import opened HookInvariant
  import opened HookLedger
  import opened HookStages
  import opened HookApart
  import opened HookTheorems

  /** An idle thread is given this call. */
  predicate Starts(s: State, call: Call, ev: Event) {
    ev.t in s.threads && s.threads[ev.t] == Idle && ev.call == call
  }

  /** How many events of the schedule start this call. */
  function Started(env: Env, tids: set<Tid>, call: Call, schedule: seq<Event>): nat {
    if schedule == [] then 0
    else
      var before := schedule[..|schedule| - 1];
      Started(env, tids, call, before) + One(Starts(Run(env, tids, before), call, schedule[|schedule| - 1]))
  }

  /** How many events of the schedule refuse memory. */
  function Refusals(schedule: seq<Event>): nat {
    if schedule == [] then 0
    else Refusals(schedule[..|schedule| - 1]) + One(!schedule[|schedule| - 1].ok)
  }

  lemma {:induction false} NoRefusals(schedule: seq<Event>)
    requires forall ev | ev in schedule :: ev.ok
    ensures Refusals(schedule) == 0
  {
    if schedule != [] {
      NoRefusals(schedule[..|schedule| - 1]);
    }
  }

  /** Which event starts a call, and that a call gives up only where memory is refused. */
  lemma {:induction false} EventActs(env: Env, s: State, v: Vec, ev: Event)
    requires Inv(env, s) && v in env.pristine && ev.t in s.threads
    ensures var pc := s.threads[ev.t];
            var act := ActOf(v, pc, ThreadStep(env, s.g, pc, ev).pc);
            && (act.StartHook? <==> Starts(s, CallHook(v), ev))
            && (act.StartUnhook? <==> Starts(s, CallUnhook(v), ev))
            && (act.GiveUp? ==> !ev.ok)
  {
    assert v in s.g.vectors;
  }

  /**
   The hook and unhook calls booked are those the scheduler started, and no more hook calls are given up than
   allocations failed.
   */
  lemma {:induction false} CallsAreBooked(env: Env, tids: set<Tid>, v: Vec, schedule: seq<Event>)
    requires env.Valid() && v in env.pristine
    ensures var x := Booked(env, tids, v, schedule);
            && x.hooks == Started(env, tids, CallHook(v), schedule)
            && x.unhooks == Started(env, tids, CallUnhook(v), schedule)
            && x.failed <= Refusals(schedule)
    decreases |schedule|
  {
    if schedule != [] {
      var n := |schedule| - 1;
      var before := schedule[..n];
      CallsAreBooked(env, tids, v, before);
      BookedIsRun(env, tids, v, before);
      ReachableInvariant(env, tids, before);
      var s := Run(env, tids, before);
      if schedule[n].t in s.threads {
        EventActs(env, s, v, schedule[n]);
      }
    }
  }

  /**
   Balanced hooking with calls interleaved, on events alone: if no allocation fails, then whenever no hook or unhook
   call on the vector is in progress, the vector is hooked exactly if more hook calls than unhook calls were started,
   its counter is the difference, and otherwise it is pristine slot for slot.
   */
  lemma {:induction false} StartsDecide(env: Env, tids: set<Tid>, v: Vec, d: Discipline, schedule: seq<Event>)
    requires env.Valid() && v in env.pristine && d.Safe() && Follows(env, tids, v, d, schedule)
    requires forall ev | ev in schedule :: ev.ok
    requires var s := Run(env, tids, schedule); NoHook(s, v) && NoUnhook(s, v)
    ensures var g := Run(env, tids, schedule).g;
            var depth := Started(env, tids, CallHook(v), schedule) - Started(env, tids, CallUnhook(v), schedule);
            && depth >= 0 && (v in g.table <==> depth > 0)
            && (depth > 0 ==>
                  g.table[v] in g.live && g.live[g.table[v]].counter == depth && IsHooked(env, g, v, g.table[v]))
            && (depth == 0 ==> v in g.vectors && g.vectors[v] == env.pristine[v])
  {
    CallsAreBooked(env, tids, v, schedule);
    NoRefusals(schedule);
    CounterKept(env, tids, v, d, schedule);
  }
}
