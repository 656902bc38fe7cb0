/** Every step keeps the reference counts exact. */
module HookRefs {
  import opened Wrappers
  import opened HookProtocol
  import opened HookInvariant

  ghost function After(s: State, g: Shared, t: Tid, pc: Pc): State { State(g, s.threads[t := pc]) }

  function Holds(pc: Pc, e: EntryId): int { if Held(pc) == Some(e) then 1 else 0 }

  /** Moving one thread changes who holds which entry only for that thread. */
  lemma {:induction false} HoldersAfter(s: State, g: Shared, t: Tid, pc: Pc, e: EntryId)
    requires t in s.threads
    ensures |Holders(After(s, g, t, pc), e)| == |Holders(s, e)| + Holds(pc, e) - Holds(s.threads[t], e)
  {
    var s' := After(s, g, t, pc);
    if Holds(s.threads[t], e) < Holds(pc, e) {
      assert Holders(s', e) == Holders(s, e) + {t};
    } else if Holds(s.threads[t], e) > Holds(pc, e) {
      assert Holders(s', e) == Holders(s, e) - {t};
    } else {
      assert Holders(s', e) == Holders(s, e);
    }
  }

  /** Where references are neither made nor dropped. */
  predicate SameRefs(g: Shared, g': Shared) {
    && g'.table == g.table && g'.freed == g.freed && g'.nextId == g.nextId
    && g'.live.Keys == g.live.Keys
    && forall e | e in g.live :: g'.live[e].refs == g.live[e].refs
  }

  lemma {:induction false} RefMoved(s: State, g: Shared, t: Tid, pc: Pc)
    requires RefInv(s) && t in s.threads && Held(pc) == Held(s.threads[t]) && SameRefs(s.g, g)
    ensures RefInv(After(s, g, t, pc))
  {
    var s' := After(s, g, t, pc);
    forall e
      ensures Counted(s', e) && Accounted(s', e)
    {
      assert Counted(s, e) && Accounted(s, e);
      HoldersAfter(s, g, t, pc, e);
    }
    forall u
      ensures HeldAlive(s', u)
    {
      assert HeldAlive(s, u) && HeldAlive(s, t);
    }
    forall v
      ensures TableAlive(s', v)
    {
      assert TableAlive(s, v);
    }
    forall v, w
      ensures OneVector(s', v, w)
    {
      assert OneVector(s, v, w);
    }
  }

  lemma {:induction false} RefGained(s: State, t: Tid, pc: Pc, e: EntryId)
    requires RefInv(s) && t in s.threads && e in s.g.live
    requires Held(s.threads[t]) == None && Held(pc) == Some(e)
    ensures RefInv(After(s, Retain(s.g, e), t, pc))
  {
    var s' := After(s, Retain(s.g, e), t, pc);
    forall x
      ensures Counted(s', x) && Accounted(s', x)
    {
      assert Counted(s, x) && Accounted(s, x);
      HoldersAfter(s, Retain(s.g, e), t, pc, x);
    }
    forall u
      ensures HeldAlive(s', u)
    {
      assert HeldAlive(s, u);
    }
    forall v
      ensures TableAlive(s', v)
    {
      assert TableAlive(s, v);
    }
    forall v, w
      ensures OneVector(s', v, w)
    {
      assert OneVector(s, v, w);
    }
  }

  lemma {:induction false} SubsetSize<T>(a: set<T>, b: set<T>)
    requires a <= b
    ensures |a| <= |b|
  {
    assert b == a + (b - a);
  }

  /** An entry that the table or another thread also holds has more than one reference. */
  lemma {:induction false} SharedEntrySurvives(s: State, t: Tid, e: EntryId)
    requires RefInv(s) && t in s.threads && Held(s.threads[t]) == Some(e)
    requires e in s.g.table.Values || exists u :: u != t && u in s.threads && Held(s.threads[u]) == Some(e)
    ensures e in s.g.live && s.g.live[e].refs > 1
  {
    assert HeldAlive(s, t) && Counted(s, e);
    if e in s.g.table.Values {
      assert {t} <= Holders(s, e);
      SubsetSize({t}, Holders(s, e));
    } else {
      var u :| u != t && u in s.threads && Held(s.threads[u]) == Some(e);
      assert {t, u} <= Holders(s, e);
      SubsetSize({t, u}, Holders(s, e));
    }
  }

  lemma {:induction false} RefDropped(s: State, t: Tid, pc: Pc, e: EntryId)
    requires RefInv(s) && t in s.threads
    requires Held(s.threads[t]) == Some(e) && Held(pc) == None
    ensures RefInv(After(s, Release(s.g, e), t, pc))
    ensures Release(s.g, e).fault == s.g.fault
  {
    var s' := After(s, Release(s.g, e), t, pc);
    assert HeldAlive(s, t) && Counted(s, e);
    forall x
      ensures Counted(s', x) && Accounted(s', x)
    {
      assert Counted(s, x) && Accounted(s, x);
      HoldersAfter(s, Release(s.g, e), t, pc, x);
    }
    forall u
      ensures HeldAlive(s', u)
    {
      assert HeldAlive(s, u);
      if u != t && u in s.threads && Held(s.threads[u]) == Some(e) {
        SharedEntrySurvives(s, t, e);
      }
    }
    forall v, w
      ensures OneVector(s', v, w)
    {
      assert OneVector(s, v, w);
    }
    forall v
      ensures TableAlive(s', v)
    {
      assert TableAlive(s, v);
      if v in s.g.table && s.g.table[v] == e {
        SharedEntrySurvives(s, t, e);
      }
    }
  }

  lemma {:induction false} UnknownIsUnused(s: State, n: EntryId)
    requires RefInv(s) && n !in s.g.live
    ensures Holders(s, n) == {} && n !in s.g.table.Values
  {
    forall t
      ensures t !in Holders(s, n)
    {
      assert HeldAlive(s, t);
    }
    forall v | v in s.g.table
      ensures s.g.table[v] != n
    {
      assert TableAlive(s, v);
    }
  }

  lemma {:induction false} RefAllocated(env: Env, s: State, t: Tid, pc: Pc)
    requires RefInv(s) && t in s.threads && Held(s.threads[t]) == None && Held(pc) == Some(s.g.nextId)
    ensures RefInv(After(s, Allocate(env, s.g), t, pc))
  {
    var n := s.g.nextId;
    var s' := After(s, Allocate(env, s.g), t, pc);
    forall x
      ensures Counted(s', x) && Accounted(s', x)
    {
      assert Counted(s, x) && Accounted(s, x);
      HoldersAfter(s, Allocate(env, s.g), t, pc, x);
      if x == n {
        UnknownIsUnused(s, n);
      }
    }
    forall u
      ensures HeldAlive(s', u)
    {
      assert HeldAlive(s, u);
    }
    forall v
      ensures TableAlive(s', v)
    {
      assert TableAlive(s, v);
    }
    forall v, w
      ensures OneVector(s', v, w)
    {
      assert OneVector(s, v, w);
    }
  }

  /** AddEntry's insert: the thread's reference becomes the table's. */
  lemma {:induction false} RefInserted(s: State, t: Tid, v: Vec, n: EntryId, pc: Pc)
    requires RefInv(s) && t in s.threads && Held(s.threads[t]) == Some(n) && Held(pc) == None
    requires v !in s.g.table && n !in s.g.table.Values
    ensures RefInv(After(s, s.g.(table := s.g.table[v := n]), t, pc))
  {
    var g := s.g.(table := s.g.table[v := n]);
    var s' := After(s, g, t, pc);
    assert g.table[v] == n;
    forall x
      ensures Counted(s', x) && Accounted(s', x)
    {
      assert Counted(s, x) && Accounted(s, x);
      HoldersAfter(s, g, t, pc, x);
      assert x in g.table.Values <==> x == n || x in s.g.table.Values by {
        if w :| w in s.g.table && s.g.table[w] == x {
          assert g.table[w] == x;
        }
      }
    }
    forall u
      ensures HeldAlive(s', u)
    {
      assert HeldAlive(s, u);
    }
    assert HeldAlive(s, t);
    forall w
      ensures TableAlive(s', w)
    {
      assert TableAlive(s, w);
    }
    forall w, w'
      ensures OneVector(s', w, w')
    {
      assert OneVector(s, w, w');
    }
  }

  /** RemoveEntry: the table's reference becomes the thread's. */
  lemma {:induction false} RefRemoved(s: State, t: Tid, v: Vec, pc: Pc)
    requires RefInv(s) && t in s.threads && v in s.g.table
    requires Held(s.threads[t]) == None && Held(pc) == Some(s.g.table[v])
    ensures RefInv(After(s, s.g.(table := s.g.table - {v}), t, pc))
  {
    var g := s.g.(table := s.g.table - {v});
    var s' := After(s, g, t, pc);
    assert TableAlive(s, v);
    forall x
      ensures Counted(s', x) && Accounted(s', x)
    {
      assert Counted(s, x) && Accounted(s, x);
      HoldersAfter(s, g, t, pc, x);
      if x == s.g.table[v] {
        if w :| w in g.table && g.table[w] == x {
          assert OneVector(s, v, w);
        }
      } else if w :| w in s.g.table && s.g.table[w] == x {
        assert g.table[w] == x;
      }
    }
    forall u
      ensures HeldAlive(s', u)
    {
      assert HeldAlive(s, u);
    }
    forall w
      ensures TableAlive(s', w)
    {
      assert TableAlive(s, w);
    }
    forall w, w'
      ensures OneVector(s', w, w')
    {
      assert OneVector(s, w, w');
    }
  }

  // ---- Step by step -------------------------------------------------------

  lemma {:induction false} RefHook(env: Env, s: State, t: Tid, v: Vec, h: HookPc, ok: bool)
    requires RefInv(s) && t in s.threads && s.threads[t] == Hooking(v, h)
    requires h.HLooked? ==> h.e in s.g.live
    ensures var next := HookStep(env, s.g, t, v, h, ok); RefInv(After(s, next.g, t, next.pc))
  {
    var next := HookStep(env, s.g, t, v, h, ok);
    assert TableAlive(s, v) && HeldAlive(s, t);
    if h.HLooked? {
      RefGained(s, t, next.pc, h.e);
    } else if h.HDrop? {
      RefDropped(s, t, next.pc, h.e);
    } else if h.HAlloc? && ok {
      RefAllocated(env, s, t, next.pc);
    } else {
      RefMoved(s, next.g, t, next.pc);
    }
  }

  lemma {:induction false} RefInstall(env: Env, s: State, t: Tid, v: Vec, n: EntryId, p: InstallPc, ok: bool)
    requires RefInv(s) && t in s.threads && s.threads[t] == Installing(v, n, p)
    requires p.IExclusive? ==> n !in s.g.table.Values
    requires p.IAdded? ==> n in s.g.live
    ensures var next := InstallStep(env, s.g, t, v, n, p, ok); RefInv(After(s, next.g, t, next.pc))
  {
    var next := InstallStep(env, s.g, t, v, n, p, ok);
    if p.IExclusive? && v !in s.g.table && ok {
      RefInserted(s, t, v, n, next.pc);
    } else if p.IAdded? {
      RefGained(s, t, next.pc, n);
    } else if p.IDrop? {
      RefDropped(s, t, next.pc, n);
    } else {
      RefMoved(s, next.g, t, next.pc);
    }
  }

  lemma {:induction false} RefUnhook(s: State, t: Tid, v: Vec, u: UnhookPc)
    requires RefInv(s) && t in s.threads && s.threads[t] == Unhooking(v, u)
    requires u.ULooked? ==> u.e in s.g.live
    ensures var next := UnhookStep(s.g, t, v, u); RefInv(After(s, next.g, t, next.pc))
  {
    var next := UnhookStep(s.g, t, v, u);
    assert TableAlive(s, v) && HeldAlive(s, t);
    if u.ULooked? {
      RefGained(s, t, next.pc, u.e);
    } else if u.UDrop? {
      RefDropped(s, t, next.pc, u.e);
    } else {
      RefMoved(s, next.g, t, next.pc);
    }
  }

  lemma {:induction false} RefRestore(env: Env, s: State, t: Tid, v: Vec, r: RestorePc)
    requires RefInv(s) && t in s.threads && s.threads[t] == Restoring(v, r)
    ensures var next := RestoreStep(env, s.g, t, v, r); RefInv(After(s, next.g, t, next.pc))
  {
    var next := RestoreStep(env, s.g, t, v, r);
    if r.RDropInside? {
      RefDropped(s, t, next.pc, r.e);
    } else if r.RRemove? && v in s.g.table {
      RefRemoved(s, t, v, next.pc);
    } else {
      RefMoved(s, next.g, t, next.pc);
    }
  }

  lemma {:induction false} RefDispatch(env: Env, s: State, t: Tid, v: Vec, i: nat, k: nat, q: DispatchPc)
    requires RefInv(s) && t in s.threads && s.threads[t] == Dispatching(v, i, k, q)
    requires q.QLooked? ==> q.e in s.g.live
    ensures var next := DispatchStep(env, s.g, t, v, i, k, q); RefInv(After(s, next.g, t, next.pc))
  {
    var next := DispatchStep(env, s.g, t, v, i, k, q);
    assert TableAlive(s, v);
    if q.QLooked? {
      RefGained(s, t, next.pc, q.e);
    } else if q.QDrop? {
      RefDropped(s, t, next.pc, q.e);
    } else {
      RefMoved(s, next.g, t, next.pc);
    }
  }

  lemma {:induction false} RefKept(env: Env, s: State, ev: Event)
    requires Inv(env, s)
    ensures RefInv(Apply(env, s, ev))
  {
    if ev.t in s.threads {
      assert ThreadOk(env, s, ev.t);
      match s.threads[ev.t] {
        case Idle => RefMoved(s, s.g, ev.t, StartCall(env, s.g, ev.call));
        case Hooking(v, h) =>
          assert TableAlive(s, v);
          RefHook(env, s, ev.t, v, h, ev.ok);
        case Installing(v, n, p) => RefInstall(env, s, ev.t, v, n, p, ev.ok);
        case Unhooking(v, u) =>
          assert TableAlive(s, v);
          RefUnhook(s, ev.t, v, u);
        case Restoring(v, r) => RefRestore(env, s, ev.t, v, r);
        case Dispatching(v, i, k, q) =>
          assert TableAlive(s, v);
          RefDispatch(env, s, ev.t, v, i, k, q);
      }
    }
  }
}
