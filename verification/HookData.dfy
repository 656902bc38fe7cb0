/** Every step keeps the vectors, the table and the saved originals consistent. */
module HookData {
  import opened Wrappers
  import opened HookProtocol
  import opened HookInvariant
  import opened HookSteps
  import opened HookRefs

  // ---- Steps that change no slot, no table entry and no saved original ------

  ghost predicate SameOrig(g: Shared, g': Shared, e: EntryId) {
    e in g.live && e in g'.live ==> g'.live[e].orig == g.live[e].orig
  }

  ghost predicate DataSame(g: Shared, g': Shared) {
    && g'.vectors == g.vectors && g'.table == g.table
    && (forall e {:trigger SameOrig(g, g', e)} :: SameOrig(g, g', e))
  }

  /** `t` does not get hold of an entry that another thread has not published. */
  ghost predicate GainsNothingPrivate(g: Shared, pc: Pc, pc': Pc) {
    Held(pc') == None || Held(pc') == Held(pc) || Held(pc').value in g.table.Values || Held(pc').value !in g.live
  }

  lemma {:induction false} InstallerSame(env: Env, s: State, g: Shared, t: Tid, pc: Pc, u: Tid,
                                         v: Vec, n: EntryId, p: InstallPc)
    requires Inv(env, s) && t in s.threads && u in s.threads && u != t && s.threads[u] == Installing(v, n, p)
    requires RefInv(After(s, g, t, pc)) && DataSame(s.g, g) && GainsNothingPrivate(s.g, s.threads[t], pc)
    ensures ThreadOk(env, After(s, g, t, pc), u)
  {
    var s' := After(s, g, t, pc);
    assert ThreadOk(env, s, u) && HeldAlive(s', u) && HeldAlive(s, u);
    assert SameOrig(s.g, g, n) && TableAlive(s', v) && TableAlive(s, v);
    if p.IWantExclusive? || p.IExclusive? {
      forall x | x != u
        ensures NotHeldBy(s', x, n)
      {
        assert NotHeldBy(s, x, n);
      }
    }
  }

  lemma {:induction false} OtherThreadSame(env: Env, s: State, g: Shared, t: Tid, pc: Pc, u: Tid)
    requires Inv(env, s) && t in s.threads && u in s.threads && u != t
    requires RefInv(After(s, g, t, pc)) && DataSame(s.g, g) && GainsNothingPrivate(s.g, s.threads[t], pc)
    ensures ThreadOk(env, After(s, g, t, pc), u)
  {
    var s' := After(s, g, t, pc);
    assert ThreadOk(env, s, u) && HeldAlive(s', u) && HeldAlive(s, u) && s'.threads[u] == s.threads[u];
    match s.threads[u] {
      case Installing(v, n, p) =>
        InstallerSame(env, s, g, t, pc, u, v, n, p);
      case Restoring(v, r) =>
        if r.RLoop? || r.RWrite? {
          assert SameOrig(s.g, g, r.e);
        }
      case Dispatching(v, i, k, q) =>
        if q.QFound? || q.QReadSaved? {
          assert SameOrig(s.g, g, q.e);
        }
      case _ =>
    }
  }

  lemma {:induction false} VectorSame(env: Env, s: State, g: Shared, t: Tid, pc: Pc, v: Vec)
    requires Inv(env, s) && t in s.threads && RefInv(After(s, g, t, pc)) && DataSame(s.g, g)
    requires LockInv(After(s, g, t, pc))
    requires Changing(pc) == Changing(s.threads[t]) || (Changing(pc) == None && Settled(env, After(s, g, t, pc), v))
    ensures VectorOk(env, After(s, g, t, pc), v)
  {
    var s' := After(s, g, t, pc);
    assert VectorOk(env, s, v) && LockRole(s, t) && LockRole(s', t);
    if s.g.writer.Some? {
      assert LockRole(s, s.g.writer.value) && LockRole(s', s.g.writer.value);
    }
    if v in s.g.table {
      assert TableAlive(s', v) && TableAlive(s, v) && SameOrig(s.g, g, s.g.table[v]);
    }
  }

  lemma {:induction false} VectorElsewhere(env: Env, s: State, g: Shared, t: Tid, pc: Pc, v: Vec)
    requires Inv(env, s) && t in s.threads && RefInv(After(s, g, t, pc)) && DataSame(s.g, g)
    requires Changing(s.threads[t]).Some? && v != Changing(s.threads[t]).value
    ensures VectorOk(env, After(s, g, t, pc), v)
  {
    var s' := After(s, g, t, pc);
    assert VectorOk(env, s, v) && LockRole(s, t);
    if v in s.g.table {
      assert TableAlive(s', v) && TableAlive(s, v) && SameOrig(s.g, g, s.g.table[v]);
    }
  }

  lemma {:induction false} DataMoved(env: Env, s: State, g: Shared, t: Tid, pc: Pc)
    requires Inv(env, s) && t in s.threads
    requires var s' := After(s, g, t, pc); RefInv(s') && LockInv(s') && ThreadOk(env, s', t)
    requires DataSame(s.g, g) && GainsNothingPrivate(s.g, s.threads[t], pc)
    requires Changing(pc) == Changing(s.threads[t])
             || (Changing(pc) == None && Settled(env, After(s, g, t, pc), Changing(s.threads[t]).value))
    requires forall e | e in g.live && e !in s.g.live :: OriginalsOnly(After(s, g, t, pc), e)
    ensures DataInv(env, After(s, g, t, pc))
  {
    var s' := After(s, g, t, pc);
    forall e
      ensures OriginalsOnly(s', e)
    {
      assert OriginalsOnly(s, e) && SameOrig(s.g, g, e);
    }
    forall u | u in s'.threads
      ensures ThreadOk(env, s', u)
    {
      if u != t {
        OtherThreadSame(env, s, g, t, pc, u);
      }
    }
    forall v
      ensures VectorOk(env, s', v)
    {
      if Changing(pc) == Changing(s.threads[t]) || v == Changing(s.threads[t]).value {
        VectorSame(env, s, g, t, pc, v);
      } else {
        VectorElsewhere(env, s, g, t, pc, v);
      }
    }
  }

  // ---- Steps of the exclusive owner that change a slot, the table or a saved original ----

  /**
   Saved originals are never overwritten, new ones are file system functions, and only an entry in the table gets any.
   */
  ghost predicate Grows(g: Shared, g': Shared, e: EntryId) {
    e in g.live && e in g'.live ==>
      && |g'.live[e].orig| == |g.live[e].orig|
      && (forall k | 0 <= k < |g.live[e].orig| ::
            g'.live[e].orig[k] == g.live[e].orig[k] || (g.live[e].orig[k].NullFn? && g'.live[e].orig[k].FsFn?))
      && (e in g.table.Values || g'.live[e].orig == g.live[e].orig)
  }

  /** The step of writer `t` touches nothing that belongs to a vector other than `v`. */
  ghost predicate OnlyVector(s: State, g: Shared, v: Vec, w: Vec) {
    w != v ==>
      && (w in g.table <==> w in s.g.table)
      && (w in s.g.table ==> g.table[w] == s.g.table[w] && SameOrig(s.g, g, s.g.table[w]))
      && (w in s.g.vectors ==> w in g.vectors && g.vectors[w] == s.g.vectors[w])
  }

  ghost predicate WriterMove(s: State, g: Shared, t: Tid, pc: Pc, v: Vec) {
    && s.g.writer == Some(t) && g.writer == Some(t)
    && t in s.threads && Changing(pc) == Some(v)
    && (Changing(s.threads[t]) == None || Changing(s.threads[t]) == Some(v))
    && GainsNothingPrivate(s.g, s.threads[t], pc)
    && g.vectors.Keys == s.g.vectors.Keys
    && (forall e {:trigger Grows(s.g, g, e)} :: Grows(s.g, g, e))
    && (forall w {:trigger OnlyVector(s, g, v, w)} :: OnlyVector(s, g, v, w))
    && (forall x | x in g.table.Values :: x in s.g.table.Values || Held(s.threads[t]) == Some(x))
  }

  lemma {:induction false} OtherThreadWaits(env: Env, s: State, g: Shared, t: Tid, pc: Pc, v: Vec, u: Tid)
    requires Inv(env, s) && WriterMove(s, g, t, pc, v) && u in s.threads && u != t
    requires RefInv(After(s, g, t, pc))
    ensures ThreadOk(env, After(s, g, t, pc), u)
  {
    var s' := After(s, g, t, pc);
    assert ThreadOk(env, s, u) && HeldAlive(s', u) && LockRole(s, u);
    assert !HoldsShared(s.threads[u]) && !HoldsExclusive(s.threads[u]);
    match s.threads[u] {
      case Installing(w, n, p) =>
        assert Grows(s.g, g, n);
        if p.IWantExclusive? {
          forall x | x != u
            ensures NotHeldBy(s', x, n)
          {
            assert NotHeldBy(s, x, n);
          }
          assert NotHeldBy(s, t, n);
        }
      case Dispatching(w, i, k, q) =>
        if q.QReadSaved? {
          assert Grows(s.g, g, q.e);
        }
      case _ =>
    }
  }

  /** A vector other than the one being changed is as settled as it was. */
  lemma {:induction false} WritersVectors(env: Env, s: State, g: Shared, t: Tid, pc: Pc, v: Vec, w: Vec)
    requires Inv(env, s) && WriterMove(s, g, t, pc, v) && RefInv(After(s, g, t, pc))
    ensures VectorOk(env, After(s, g, t, pc), w)
  {
    assert VectorOk(env, s, w) && OnlyVector(s, g, v, w);
    assert TableAlive(s, w) && TableAlive(After(s, g, t, pc), w);
  }

  lemma {:induction false} WriterMoved(env: Env, s: State, g: Shared, t: Tid, pc: Pc, v: Vec)
    requires Inv(env, s) && WriterMove(s, g, t, pc, v)
    requires var s' := After(s, g, t, pc); RefInv(s') && ThreadOk(env, s', t) && UnregisteredUntouched(env, s')
    requires g.table.Keys <= g.vectors.Keys
    requires forall e | e in g.live :: e in s.g.live
    ensures DataInv(env, After(s, g, t, pc))
  {
    var s' := After(s, g, t, pc);
    forall u | u in s'.threads
      ensures ThreadOk(env, s', u)
    {
      if u != t {
        OtherThreadWaits(env, s, g, t, pc, v, u);
      }
    }
    forall w
      ensures VectorOk(env, s', w)
    {
      WritersVectors(env, s, g, t, pc, v, w);
    }
    forall e
      ensures OriginalsOnly(s', e)
    {
      assert OriginalsOnly(s, e) && Grows(s.g, g, e);
    }
  }
}
