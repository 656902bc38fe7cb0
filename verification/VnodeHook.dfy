/** The hook table and its entries as the driver updates them in place, one call at a time. */
module VnodeHook {
  import opened Wrappers
  import opened HookProtocol
  import opened HookSpec

  /** FltVnodeHookEntry: the counter and the originals array. */
  class Entry {
    var vNodeCounter: int
    const origVop: array<Fn>

    constructor (enumMax: nat)
      ensures vNodeCounter == 0 && fresh(origVop) && origVop.Length == enumMax
      ensures origVop[..] == seq(enumMax, _ => NullFn)
    {
      vNodeCounter := 0;
      origVop := new Fn[enumMax](_ => NullFn);
      new;
      assert origVop[..] == seq(enumMax, _ => NullFn);
    }

    method GetOriginalVop(indx: nat) returns (f: Fn)
      requires indx < origVop.Length
      ensures f == origVop[indx]
    {
      f := origVop[indx];
    }

    method SetOriginalVop(indx: nat, orig: Fn)
      requires indx < origVop.Length && origVop[indx].NullFn?
      modifies origVop
      ensures origVop[..] == old(origVop[..])[indx := orig]
    {
      origVop[indx] := orig;
    }

    method IsHooked(indx: nat) returns (b: bool)
      requires indx < origVop.Length
      ensures b == !origVop[indx].NotHookedMark?
    {
      b := origVop[indx] != NotHookedMark;
    }

    method IncrementVnodeCounter() returns (before: int)
      modifies this`vNodeCounter
      ensures before == old(vNodeCounter) && vNodeCounter == before + 1
    {
      before := vNodeCounter;
      vNodeCounter := vNodeCounter + 1;
    }

    method DecrementVnodeCounter() returns (before: int)
      modifies this`vNodeCounter
      ensures before == old(vNodeCounter) && vNodeCounter == before - 1
    {
      before := vNodeCounter;
      vNodeCounter := vNodeCounter - 1;
    }
  }

  datatype VType = VREG | VDIR | VOther

  /** A vnode as far as hooking looks at it; no vector means the layout of the vnode is not known. */
  datatype Vnode = Vnode(vtype: VType, recycled: bool, vop: Option<array<Fn>>)
  {
    predicate DiskRelated() { vtype.VREG? || vtype.VDIR? }
  }

  datatype IOReturn = Success | Error | NoDevice | NoMemory

  class HooksTable {
    const d: Descriptors
    var table: map<array<Fn>, Entry>

    ghost predicate Valid()
      reads this, table.Values
    {
      && d.Valid()
      && (forall v | v in table :: d.Fits(v.Length) && table[v].origVop.Length == d.enumMax)
      && (forall v, w | v in table && w in table :: table[v].origVop != w)
      && (forall v, w | v in table && w in table && v != w ::
            table[v] != table[w] && table[v].origVop != table[w].origVop)
    }

    /** `v` belongs to a file system: it has all registered slots and is not an entry's own array. */
    ghost predicate Vector(v: array<Fn>)
      reads this, table.Values
    {
      d.Fits(v.Length) && forall e | e in table.Values :: e.origVop != v
    }

    ghost function Abs(v: array<Fn>): (st: VecState)
      requires Valid() && Vector(v)
      reads this, table.Values, v, set e | e in table.Values :: e.origVop
      ensures Shaped(d, st)
    {
      VecState(v[..], if v in table then Some(Saved(table[v].vNodeCounter, table[v].origVop[..])) else None)
    }

    constructor (d: Descriptors)
      requires d.Valid()
      ensures Valid() && this.d == d && table == map[]
    {
      this.d := d;
      table := map[];
    }

    /** The hooking loop of FltHookVnodeVop: save each original, then overwrite its slot. */
    method InstallHooks(v: array<Fn>, entry: Entry)
      requires d.Valid() && d.Fits(v.Length) && entry.origVop.Length == d.enumMax && entry.origVop != v
      requires entry.origVop[..] == seq(d.enumMax, _ => NullFn)
      modifies v, entry.origVop
      ensures v[..] == HookedSlots(d, old(v[..]), |d.slots|)
      ensures entry.origVop[..] == SavedOriginals(d, old(v[..]), |d.slots|)
    {
      ghost var was := v[..];
      var i := 0;
      while i < |d.slots|
        invariant i <= |d.slots|
        invariant v[..] == HookedSlots(d, was, i)
        invariant entry.origVop[..] == SavedOriginals(d, was, i)
      {
        assert v[..][d.slots[i]] == was[d.slots[i]] by {
          HookedAt(d, was, i);
        }
        assert entry.origVop[..][d.enums[i]] == NullFn by {
          SavedAt(d, was, i);
        }
        var original := v[d.slots[i]];
        entry.SetOriginalVop(d.enums[i], original);
        v[d.slots[i]] := HookFn(i);
        i := i + 1;
      }
    }

    /** The loop of FltUnHookVnodeVop: put back every original that was really hooked. */
    method RestoreOriginals(v: array<Fn>, entry: Entry)
      requires d.Valid() && d.Fits(v.Length) && entry.origVop.Length == d.enumMax && entry.origVop != v
      modifies v
      ensures v[..] == RestoredSlots(d, old(v[..]), entry.origVop[..], |d.slots|)
    {
      ghost var was := v[..];
      var i := 0;
      while i < |d.slots|
        invariant i <= |d.slots|
        invariant v[..] == RestoredSlots(d, was, entry.origVop[..], i)
      {
        var hooked := entry.IsHooked(d.enums[i]);
        if hooked {
          var original := entry.GetOriginalVop(d.enums[i]);
          v[d.slots[i]] := original;
        }
        i := i + 1;
      }
    }

    /** Everything about the vectors in the table other than `v` is as it was. */
    twostate predicate OthersKept(v: array<Fn>)
      requires old(Valid()) && Valid()
      reads this, table.Values, table.Keys, set e | e in table.Values :: e.origVop
    {
      forall w | w in old(table) && w != v ::
        w in table && old(Vector(w)) && Vector(w) && Abs(w) == old(Abs(w))
    }

    /** Adding an entry for `v` alone leaves all others as they are. */
    twostate lemma {:induction false} OthersStay(v: array<Fn>)
      requires old(Valid()) && Valid() && v in table && v !in old(table) && table == old(table)[v := table[v]]
      requires table[v] !in old(table).Values && table[v].origVop !in old(table).Keys
      requires forall w | w in old(table) ::
                 && w[..] == old(w[..]) && table[w].origVop == old(table[w].origVop)
                 && table[w].vNodeCounter == old(table[w].vNodeCounter)
                 && table[w].origVop[..] == old(table[w].origVop[..])
      requires old(forall w, e | w in table && e in table.Values :: e.origVop != w)
      ensures OthersKept(v)
    {
      forall w | w in old(table) && w != v
        ensures w in table && old(Vector(w)) && Vector(w) && Abs(w) == old(Abs(w))
      {
        assert table[w] in old(table).Values;
      }
    }

    /** The new entry is in the table, counted once. */
    method AddEntry(v: array<Fn>, newEntry: Entry)
      requires Valid() && Vector(v) && v !in table
      requires newEntry !in table.Values && newEntry.vNodeCounter == 0 && newEntry.origVop.Length == d.enumMax
      requires newEntry.origVop != v && newEntry.origVop !in table.Keys
      requires forall e | e in table.Values :: e.origVop != newEntry.origVop
      modifies this, newEntry
      ensures Valid() && Vector(v) && table == old(table)[v := newEntry]
      ensures newEntry.vNodeCounter == 1
    {
      table := table[v := newEntry];
      var _ := newEntry.IncrementVnodeCounter();
    }

    /** The exclusive section of FltHookVnodeVop for a vector that is still not in the table. */
    method AddAndHook(v: array<Fn>, newEntry: Entry)
      requires Valid() && Vector(v) && v !in table
      requires newEntry !in table.Values && newEntry.vNodeCounter == 0 && newEntry.origVop.Length == d.enumMax
      requires newEntry.origVop[..] == seq(d.enumMax, _ => NullFn)
      requires newEntry.origVop != v && newEntry.origVop !in table.Keys
      requires forall e | e in table.Values :: e.origVop != newEntry.origVop
      modifies this, v, newEntry, newEntry.origVop
      ensures Valid() && Vector(v) && table.Keys == old(table.Keys) + {v}
      ensures Abs(v) == HookOne(d, old(Abs(v)))
      ensures OthersKept(v)
    {
      AddEntry(v, newEntry);
      InstallHooks(v, newEntry);
      OthersStay(v);
    }

    /**
     FltHookVnodeVop.  `canAllocate` says whether the new entry can be allocated, `canAdd` whether the hash
     table accepts it; both matter only for a vector that is not hooked yet.
     */
    method HookVnodeVop(vnode: Vnode, canAllocate: bool, canAdd: bool) returns (rc: IOReturn, isVopHooked: bool)
      requires Valid() && (vnode.vop.Some? ==> Vector(vnode.vop.value))
      modifies this, table.Values, if vnode.vop.Some? then {vnode.vop.value} else {}
      ensures Valid()
      ensures rc == if vnode.vop.None? then Error
                    else if vnode.recycled then NoDevice
                    else if (vnode.vtype != VREG && vnode.vtype != VDIR) || vnode.vop.value in old(table)
                         || (canAllocate && canAdd) then Success
                    else NoMemory
      ensures isVopHooked == (rc == Success && (vnode.vtype == VREG || vnode.vtype == VDIR))
      ensures isVopHooked ==>
                var v := vnode.vop.value;
                && table.Keys == old(table.Keys) + {v}
                && Vector(v) && Abs(v) == HookOne(d, old(Abs(v))) && OthersKept(v)
      ensures !isVopHooked ==> unchanged(this, old(table.Values)) && (vnode.vop.Some? ==> unchanged(vnode.vop.value))
    {
      if vnode.vop.None? {
        return Error, false;
      }
      if vnode.recycled {
        return NoDevice, false;
      }
      if !vnode.DiskRelated() {
        return Success, false;
      }
      var v := vnode.vop.value;
      if v in table {
        var _ := table[v].IncrementVnodeCounter();
        return Success, true;
      }
      if !canAllocate {
        return NoMemory, false;
      }
      var newEntry := new Entry(d.enumMax);
      if !canAdd {
        return NoMemory, false;
      }
      AddAndHook(v, newEntry);
      return Success, true;
    }

    /** FltUnHookVnodeVop */
    method UnHookVnodeVop(vnode: Vnode)
      requires Valid() && (vnode.vop.Some? ==> Vector(vnode.vop.value))
      modifies this, table.Values, if vnode.vop.Some? then {vnode.vop.value} else {}
      ensures Valid()
      ensures (vnode.vtype == VREG || vnode.vtype == VDIR) && vnode.vop.Some? ==>
                var v := vnode.vop.value;
                && Vector(v) && Abs(v) == UnhookOne(d, old(Abs(v))) && OthersKept(v)
                && table.Keys <= old(table.Keys) <= table.Keys + {v}
      ensures (vnode.vtype != VREG && vnode.vtype != VDIR) || vnode.vop.None? ==>
                unchanged(this, old(table.Values)) && (vnode.vop.Some? ==> unchanged(vnode.vop.value))
    {
      if !vnode.DiskRelated() || vnode.vop.None? {
        return;
      }
      var v := vnode.vop.value;
      if v !in table {
        return;
      }
      var existing := table[v];
      var before := existing.DecrementVnodeCounter();
      if before != 1 {
        return;
      }
      table := table - {v};
      RestoreOriginals(v, existing);
    }

    /** FltGetOriginalVnodeOp */
    method GetOriginalVnodeOp(v: array<Fn>, i: nat) returns (original: Fn)
      requires Valid() && Vector(v) && i < |d.slots|
      ensures original == OriginalOp(d, Abs(v), i)
    {
      if v in table {
        original := table[v].GetOriginalVop(d.enums[i]);
      } else {
        original := v[d.slots[i]];
      }
    }
  }
}
