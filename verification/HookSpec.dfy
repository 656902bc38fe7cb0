/** What one hook or unhook call does to a vector, with calls atomic, and what runs of calls add up to. */
module HookSpec {
  import opened Wrappers
  import opened HookProtocol

  /** The counter and the saved originals of an entry. */
  datatype Saved = Saved(counter: int, orig: seq<Fn>)

  /** A vector and the entry the table holds for it. */
  datatype VecState = VecState(slots: seq<Fn>, entry: Option<Saved>)

  /** `slots` with the first `n` registered operations hooked. */
  function HookedSlots(d: Descriptors, slots: seq<Fn>, n: nat): (r: seq<Fn>)
    requires d.Valid() && d.Fits(|slots|) && n <= |d.slots|
    ensures |r| == |slots|
  {
    if n == 0 then slots else HookedSlots(d, slots, n - 1)[d.slots[n - 1] := HookFn(n - 1)]
  }

  /** The originals saved after hooking the first `n` registered operations of `slots`. */
  function SavedOriginals(d: Descriptors, slots: seq<Fn>, n: nat): (r: seq<Fn>)
    requires d.Valid() && d.Fits(|slots|) && n <= |d.slots|
    ensures |r| == d.enumMax
  {
    if n == 0 then seq(d.enumMax, _ => NullFn)
    else SavedOriginals(d, slots, n - 1)[d.enums[n - 1] := slots[d.slots[n - 1]]]
  }

  /** `slots` with the first `n` registered operations put back; a skipped hook is left alone. */
  function RestoredSlots(d: Descriptors, slots: seq<Fn>, orig: seq<Fn>, n: nat): (r: seq<Fn>)
    requires d.Valid() && d.Fits(|slots|) && |orig| == d.enumMax && n <= |d.slots|
    ensures |r| == |slots|
  {
    if n == 0 then slots
    else if orig[d.enums[n - 1]].NotHookedMark? then RestoredSlots(d, slots, orig, n - 1)
    else RestoredSlots(d, slots, orig, n - 1)[d.slots[n - 1] := orig[d.enums[n - 1]]]
  }

  ghost predicate Shaped(d: Descriptors, st: VecState) {
    && d.Valid() && d.Fits(|st.slots|)
    && (st.entry.Some? ==> |st.entry.value.orig| == d.enumMax)
  }

  function HookOne(d: Descriptors, st: VecState): (r: VecState)
    requires Shaped(d, st)
    ensures Shaped(d, r)
  {
    match st.entry
    case Some(e) => VecState(st.slots, Some(Saved(e.counter + 1, e.orig)))
    case None => VecState(HookedSlots(d, st.slots, |d.slots|), Some(Saved(1, SavedOriginals(d, st.slots, |d.slots|))))
  }

  function UnhookOne(d: Descriptors, st: VecState): (r: VecState)
    requires Shaped(d, st)
    ensures Shaped(d, r)
  {
    match st.entry
    case None => st
    case Some(e) =>
      if e.counter == 1 then VecState(RestoredSlots(d, st.slots, e.orig, |d.slots|), None)
      else VecState(st.slots, Some(Saved(e.counter - 1, e.orig)))
  }

  /** FltGetOriginalVnodeOp with no call in between its two lookups. */
  function OriginalOp(d: Descriptors, st: VecState, i: nat): Fn
    requires Shaped(d, st) && i < |d.slots|
  {
    match st.entry
    case Some(e) => e.orig[d.enums[i]]
    case None => st.slots[d.slots[i]]
  }

  // ---- Slot by slot -------------------------------------------------------

  lemma {:induction false} HookedAt(d: Descriptors, slots: seq<Fn>, n: nat)
    requires d.Valid() && d.Fits(|slots|) && n <= |d.slots|
    ensures forall j | 0 <= j < |d.slots| ::
              HookedSlots(d, slots, n)[d.slots[j]] == if j < n then HookFn(j) else slots[d.slots[j]]
    ensures forall k | 0 <= k < |slots| && k !in d.slots :: HookedSlots(d, slots, n)[k] == slots[k]
  {
    if n > 0 {
      HookedAt(d, slots, n - 1);
    }
  }

  lemma {:induction false} SavedAt(d: Descriptors, slots: seq<Fn>, n: nat)
    requires d.Valid() && d.Fits(|slots|) && n <= |d.slots|
    ensures forall j | 0 <= j < |d.enums| ::
              SavedOriginals(d, slots, n)[d.enums[j]] == if j < n then slots[d.slots[j]] else NullFn
  {
    if n > 0 {
      SavedAt(d, slots, n - 1);
    }
  }

  lemma {:induction false} RestoredAt(d: Descriptors, slots: seq<Fn>, orig: seq<Fn>, n: nat)
    requires d.Valid() && d.Fits(|slots|) && |orig| == d.enumMax && n <= |d.slots|
    ensures forall j | 0 <= j < |d.slots| ::
              RestoredSlots(d, slots, orig, n)[d.slots[j]]
              == if j < n && !orig[d.enums[j]].NotHookedMark? then orig[d.enums[j]] else slots[d.slots[j]]
    ensures forall k | 0 <= k < |slots| && k !in d.slots :: RestoredSlots(d, slots, orig, n)[k] == slots[k]
  {
    if n > 0 {
      RestoredAt(d, slots, orig, n - 1);
    }
  }

  /** What a file system hands out: no marker value among its functions. */
  predicate FileSystemVector(slots: seq<Fn>) { forall f | f in slots :: f.FsFn? }

  /** Unhooking undoes hooking slot for slot. */
  lemma {:induction false} UnhookUndoesHook(d: Descriptors, slots: seq<Fn>)
    requires d.Valid() && d.Fits(|slots|) && FileSystemVector(slots)
    ensures UnhookOne(d, HookOne(d, VecState(slots, None))) == VecState(slots, None)
  {
    var n := |d.slots|;
    var hooked, orig := HookedSlots(d, slots, n), SavedOriginals(d, slots, n);
    HookedAt(d, slots, n);
    SavedAt(d, slots, n);
    RestoredAt(d, hooked, orig, n);
    forall k | 0 <= k < |slots|
      ensures RestoredSlots(d, hooked, orig, n)[k] == slots[k]
    {
      if k in d.slots {
        var j :| 0 <= j < n && d.slots[j] == k;
        assert orig[d.enums[j]] == slots[d.slots[j]];
        assert slots[k] in slots;
      }
    }
  }

  // ---- Runs ---------------------------------------------------------------

  datatype Op = Hook | Unhook

  function Perform(d: Descriptors, st: VecState, op: Op): (r: VecState)
    requires Shaped(d, st)
    ensures Shaped(d, r)
  {
    if op.Hook? then HookOne(d, st) else UnhookOne(d, st)
  }

  function RunOps(d: Descriptors, st: VecState, ops: seq<Op>): (r: VecState)
    requires Shaped(d, st)
    ensures Shaped(d, r)
  {
    if ops == [] then st
    else Perform(d, RunOps(d, st, ops[..|ops| - 1]), ops[|ops| - 1])
  }

  function Count(ops: seq<Op>, op: Op): nat {
    if ops == [] then 0
    else Count(ops[..|ops| - 1], op) + if ops[|ops| - 1] == op then 1 else 0
  }

  /** Each unhook is matched by an earlier hook. */
  predicate Balanced(ops: seq<Op>) {
    forall k | 0 <= k <= |ops| :: Count(ops[..k], Unhook) <= Count(ops[..k], Hook)
  }

  /** The state a vector is in with `depth` hooks outstanding. */
  function AtDepth(d: Descriptors, pristine: seq<Fn>, depth: nat): VecState
    requires d.Valid() && d.Fits(|pristine|)
  {
    if depth == 0 then VecState(pristine, None)
    else VecState(HookedSlots(d, pristine, |d.slots|), Some(Saved(depth, SavedOriginals(d, pristine, |d.slots|))))
  }

  /**
   Balanced hooking: the counter is the number of hooks minus the number of unhooks, the vector is hooked
   while that is positive, and the last unhook restores the vector slot for slot.
   */
  lemma {:induction false} BalancedHooking(d: Descriptors, pristine: seq<Fn>, ops: seq<Op>)
    requires d.Valid() && d.Fits(|pristine|) && FileSystemVector(pristine) && Balanced(ops)
    ensures Count(ops, Hook) >= Count(ops, Unhook)
    ensures RunOps(d, VecState(pristine, None), ops) == AtDepth(d, pristine, Count(ops, Hook) - Count(ops, Unhook))
  {
    assert ops[..|ops|] == ops;
    if ops != [] {
      var before := ops[..|ops| - 1];
      forall k | 0 <= k <= |before|
        ensures Count(before[..k], Unhook) <= Count(before[..k], Hook)
      {
        assert before[..k] == ops[..k];
      }
      BalancedHooking(d, pristine, before);
      UnhookUndoesHook(d, pristine);
    }
  }

  /** Throughout a balanced run a caller is given the file system's own functions. */
  lemma {:induction false} OriginalsThroughout(d: Descriptors, pristine: seq<Fn>, ops: seq<Op>, i: nat)
    requires d.Valid() && d.Fits(|pristine|) && FileSystemVector(pristine) && Balanced(ops) && i < |d.slots|
    ensures OriginalOp(d, RunOps(d, VecState(pristine, None), ops), i) == pristine[d.slots[i]]
  {
    BalancedHooking(d, pristine, ops);
    SavedAt(d, pristine, |d.slots|);
  }

  /** Hooks and unhooks in excess of balance: an unhook of a vector that is not hooked changes nothing. */
  function Depth(ops: seq<Op>): nat {
    if ops == [] then 0
    else
      var before := Depth(ops[..|ops| - 1]);
      if ops[|ops| - 1].Hook? then before + 1 else if before == 0 then 0 else before - 1
  }

  lemma {:induction false} AnyRun(d: Descriptors, pristine: seq<Fn>, ops: seq<Op>)
    requires d.Valid() && d.Fits(|pristine|) && FileSystemVector(pristine)
    ensures RunOps(d, VecState(pristine, None), ops) == AtDepth(d, pristine, Depth(ops))
  {
    if ops != [] {
      AnyRun(d, pristine, ops[..|ops| - 1]);
      UnhookUndoesHook(d, pristine);
    }
  }
}
