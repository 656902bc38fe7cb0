/** Which entries belong to a vector: every entry is allocated for one vector, and used for no other. */
module HookOwners {
  import opened Wrappers
  import opened HookProtocol
  import opened HookInvariant
  import opened HookRefs
  import opened HookMoves
  import opened HookLedger

  ghost predicate OwnTable(x: Ledger, v: Vec, w: Vec) {
    w in x.s.g.table ==> (x.s.g.table[w] in x.own <==> w == v)
  }

  ghost predicate OwnHeld(x: Ledger, v: Vec, t: Tid) {
    t in x.s.threads && Held(x.s.threads[t]).Some? && Works(x.s.threads[t]).Some? ==>
      (Held(x.s.threads[t]).value in x.own <==> Works(x.s.threads[t]).value == v)
  }

  /** The entries allocated for `v` are in the table for `v` only and held for `v` only, and no others are. */
  ghost predicate Owned(x: Ledger, v: Vec) {
    && (forall e | e in x.own :: e < x.s.g.nextId)
    && (forall w {:trigger OwnTable(x, v, w)} :: OwnTable(x, v, w))
    && (forall t {:trigger OwnHeld(x, v, t)} :: OwnHeld(x, v, t))
  }

  /** What the moves of the thread say about its step. */
  ghost predicate Stepped(env: Env, x: Ledger, t: Tid, next: Next) {
    && Inv(env, x.s) && t in x.s.threads
    && TableMove(x.s.g, next.g, x.s.threads[t], next.pc) && HeldMove(x.s.g, next.g, x.s.threads[t], next.pc)
  }

  lemma {:induction false} OwnTableKept(env: Env, v: Vec, x: Ledger, t: Tid, next: Next, w: Vec)
    requires Stepped(env, x, t, next) && Owned(x, v)
    ensures OwnTable(Book(x, v, t, next), v, w)
  {
    assert OwnTable(x, v, w) && OwnHeld(x, v, t);
    assert TableAlive(x.s, w) && HeldAlive(x.s, t) && Accounted(x.s, x.s.g.nextId);
  }

  lemma {:induction false} OwnHeldKept(env: Env, v: Vec, x: Ledger, t: Tid, next: Next, u: Tid)
    requires Stepped(env, x, t, next) && Owned(x, v)
    ensures OwnHeld(Book(x, v, t, next), v, u)
  {
    assert OwnHeld(x, v, u) && HeldAlive(x.s, u) && Accounted(x.s, x.s.g.nextId);
    if u == t && Works(next.pc).Some? {
      var w := Works(next.pc).value;
      assert ThreadOk(env, x.s, t) && OwnTable(x, v, w) && TableAlive(x.s, w);
    }
  }

  lemma {:induction false} OwnedKept(env: Env, v: Vec, x: Ledger, t: Tid, next: Next)
    requires Stepped(env, x, t, next) && Owned(x, v)
    ensures Owned(Book(x, v, t, next), v)
  {
    forall w
      ensures OwnTable(Book(x, v, t, next), v, w)
    {
      OwnTableKept(env, v, x, t, next, w);
    }
    forall u
      ensures OwnHeld(Book(x, v, t, next), v, u)
    {
      OwnHeldKept(env, v, x, t, next, u);
    }
  }
}
