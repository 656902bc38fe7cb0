/**
 Recognising the start of a function in memory, with the decoder used as the filter uses it: fifteen entries decoded
 from a hundred bytes, of which the first is a push and the second a move.
 */
module FunctionStart {
  import opened Wrappers
  import opened X86
  import opened PrefixBytes
  import opened AddressForms
  import opened OperandBytes
  import opened OperandPieces
  import opened OpcodePaths
  import opened DecodeRun
  import opened DecodeLoop
  import opened Listings
  import opened Assembly
  import opened Distorm
  import D = DecodeInst

  const ENTRIES := 15
  const LENGTH := 100
  const PAGE_SIZE := 4096
  const PUSH_ID := 2
  const MOV_ID := 0x2a

  const NO_FEATURES: Features := Features(false, false, false, {})

  // ---- The check ----------------------------------------------------------------------------------

  predicate HasId(what: What, id: nat) { what.Known? && what.info.id == id }

  /** Decoding needs all fifteen entries, the first a push and the second a move. */
  predicate StartsFunction(used: seq<DInst>) {
    |used| == ENTRIES && HasId(used[0].what, PUSH_ID) && HasId(used[1].what, MOV_ID)
  }

  /** The entries that are used for a hundred bytes at an address. */
  ghost function UsedFor(t: Tables, mode: Mode, bytes: seq<Byte>, address: nat): seq<DInst>
    requires t.WellFormed() && Fits(Steps(t, mode))
  {
    Run(Steps(t, mode), ConfigFor(NO_FEATURES), Code(bytes, address), 0, ENTRIES).used
  }

  /** What the check looks at before it reads: the first byte, and if the end is on another page the last one. */
  predicate Readable(mapped: nat -> bool, address: nat) {
    && mapped(address / PAGE_SIZE)
    && (address / PAGE_SIZE != (address + LENGTH) / PAGE_SIZE ==> mapped((address + LENGTH - 1) / PAGE_SIZE))
  }

  /** Looking at two bytes is looking at all of them; `mapped` tells which pages are backed by memory. */
  lemma {:induction false} TwoBytesAreEnough(mapped: nat -> bool, address: nat)
    ensures Readable(mapped, address)
            <==> forall x {:trigger x / PAGE_SIZE} | address <= x < address + LENGTH :: mapped(x / PAGE_SIZE)
  {
    var first, last := address / PAGE_SIZE, (address + LENGTH - 1) / PAGE_SIZE;
    if Readable(mapped, address) {
      forall x | address <= x < address + LENGTH
        ensures mapped(x / PAGE_SIZE)
      {
        assert x / PAGE_SIZE == first || x / PAGE_SIZE == last;
      }
    }
  }

  /**
   DdIsFunctionAtKernelAddress: with all hundred bytes backed by memory, whether they start a function. The kernel is
   64 bits wide if `lp64`.
   */
  method IsFunctionAt(t: Tables, lp64: bool, address: nat, memory: nat -> Byte, mapped: nat -> bool)
    returns (found: bool)
    requires t.WellFormed()
    ensures var mode := if lp64 then Bits64 else Bits32;
            Fits(Steps(t, mode))
            && (found <==>
                  && (forall x {:trigger x / PAGE_SIZE} | address <= x < address + LENGTH :: mapped(x / PAGE_SIZE))
                  && StartsFunction(UsedFor(t, mode, seq(LENGTH, i requires 0 <= i < LENGTH => memory(address + i)),
                                            address)))
  {
    TwoBytesAreEnough(mapped, address);
    var mode := if lp64 then Bits64 else Bits32;
    StepsFit(t, mode);
    if !mapped(address / PAGE_SIZE) {
      return false;
    }
    if address / PAGE_SIZE != (address + LENGTH) / PAGE_SIZE && !mapped((address + LENGTH - 1) / PAGE_SIZE) {
      return false;
    }
    var bytes := seq(LENGTH, i requires 0 <= i < LENGTH => memory(address + i));
    var result := new Slot[ENTRIES](_ => Text(0, 0, ""));
    var res, used := Decompose64(t, address, Some(bytes), LENGTH, if lp64 then 2 else 1, NO_FEATURES, result, ENTRIES);
    assert bytes[..LENGTH] == bytes;
    ghost var es := UsedFor(t, mode, bytes, address);
    assert result[..used] == Raws(es);
    if (res != DECRES_SUCCESS && res != DECRES_MEMORYERR) || used < ENTRIES {
      return false;
    }
    assert result[0] == result[..used][0] && result[1] == result[..used][1];
    found := HasId(result[0].inst.what, PUSH_ID) && HasId(result[1].inst.what, MOV_ID);
  }

  /** Fifteen lines of which the first is a push and the second a move are recognised, whatever follows them. */
  lemma {:induction false} ListingIsRecognised(t: Tables, mode: Mode, lines: seq<Line>, bytes: seq<Byte>, address: nat)
    requires t.WellFormed() && Fits(Steps(t, mode)) && TakesAll(Steps(t, mode), lines) && |lines| == ENTRIES
    requires BytesOf(lines) <= bytes && lines[0].info.id == PUSH_ID && lines[1].info.id == MOV_ID
    ensures UsedFor(t, mode, bytes, address)
            == EntriesOf(lines, Code(bytes, address), ConfigFor(NO_FEATURES).mask, 0)
    ensures StartsFunction(UsedFor(t, mode, bytes, address))
  {
    var step, c, code, end := Steps(t, mode), ConfigFor(NO_FEATURES), Code(bytes, address), |BytesOf(lines)|;
    assert bytes[0..end] == BytesOf(lines);
    ListingIsUsed(step, lines, code, c, 0, end, ENTRIES, 0);
    NeverPastCapacity(step, c, code, end, 0);
    EntryAt(lines, code, c.mask, 0, 0);
    EntryAt(lines, code, c.mask, 0, 1);
  }
}
