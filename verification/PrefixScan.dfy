/** The scan for prefixes in front of an instruction. */
module PrefixScan {
  import opened Wrappers
  import opened X86

  // ---- What the prefixes of an instruction are ----------------------------------

  /** The legacy or REX prefix that a byte is. */
  function PrefixOf(b: Byte, mode: Mode): Option<Prefix> {
    if 0x40 <= b <= 0x4f then if mode == Bits64 then Some(Rex) else None
    else if b == 0xf0 then Some(Lock)
    else if b == 0xf2 then Some(Repnz)
    else if b == 0xf3 then Some(Rep)
    else if b == 0x2e then Some(Cs)
    else if b == 0x36 then Some(Ss)
    else if b == 0x3e then Some(Ds)
    else if b == 0x26 then Some(Es)
    else if b == 0x64 then Some(Fs)
    else if b == 0x65 then Some(Gs)
    else if b == 0x66 then Some(OpSize)
    else if b == 0x67 then Some(AddrSize)
    else None
  }

  /** How many prefixes come first, VEX not counted: never more than fifteen. */
  function Leading(s: seq<Byte>, mode: Mode, k: nat): (n: nat)
    requires k <= |s| && k <= INST_MAXIMUM_SIZE
    ensures k <= n <= |s| && n <= INST_MAXIMUM_SIZE
    ensures forall i | k <= i < n :: PrefixOf(s[i], mode).Some?
    ensures n < |s| && n < INST_MAXIMUM_SIZE ==> PrefixOf(s[n], mode).None?
    decreases |s| - k
  {
    if k < |s| && k < INST_MAXIMUM_SIZE && PrefixOf(s[k], mode).Some? then Leading(s, mode, k + 1) else k
  }

  /** The kinds of the first `k` prefixes. */
  function Kinds(s: seq<Byte>, mode: Mode, k: nat): set<Prefix>
    requires k <= |s| && forall i | 0 <= i < k :: PrefixOf(s[i], mode).Some?
  {
    if k == 0 then {} else Kinds(s, mode, k - 1) + {PrefixOf(s[k - 1], mode).value}
  }

  /** The position of the last REX among the first `k` prefixes, or -1. */
  function LastRex(s: seq<Byte>, mode: Mode, k: nat): (r: int)
    requires k <= |s|
    ensures -1 <= r < k
    ensures r >= 0 ==> PrefixOf(s[r], mode) == Some(Rex)
    ensures forall i | r < i < k :: PrefixOf(s[i], mode) != Some(Rex)
  {
    if k == 0 then -1 else if PrefixOf(s[k - 1], mode) == Some(Rex) then k - 1 else LastRex(s, mode, k - 1)
  }

  /** The low four bits of a REX prefix. */
  function RexBits(b: Byte): set<Ex> {
    (if Bit(b, 1) then {ExB} else {}) + (if Bit(b, 2) then {ExX} else {})
    + (if Bit(b, 4) then {ExR} else {}) + (if Bit(b, 8) then {ExW} else {})
  }

  const NO_PREFIXES: Prefixes := Prefixes({}, {}, NoExt, 0, 0, 0, false)

  /** What is known after the first `k` prefixes. */
  function Scanned(s: seq<Byte>, mode: Mode, k: nat): Prefixes
    requires k <= |s| && forall i | 0 <= i < k :: PrefixOf(s[i], mode).Some?
  {
    var r := LastRex(s, mode, k);
    if r < 0 then Prefixes(Kinds(s, mode, k), {}, NoExt, 0, 0, k, false)
    else Prefixes(Kinds(s, mode, k), RexBits(s[r]), RexExt, r, 0, k, false)
  }

  /** Outside 64 bits, what looks like VEX is one only if the next byte says mod = 11. */
  predicate VexAt(s: seq<Byte>, mode: Mode, k: nat, escape: Byte, length: nat) {
    && 2 <= length && k + length <= |s| && s[k] == escape && k + length <= INST_MAXIMUM_SIZE
    && (mode == Bits64 || s[k + 1] >= INST_DIVIDED_MODRM)
  }

  function Vex2Bits(b: Byte, mode: Mode): set<Ex> {
    (if !Bit(b, 0x80) && mode == Bits64 then {ExR} else {}) + (if Bit(b, 4) then {ExL} else {})
  }

  function Vex3Bits(b: Byte, c: Byte): set<Ex> {
    (if !Bit(b, 0x20) then {ExB} else {}) + (if !Bit(b, 0x40) then {ExX} else {})
    + (if !Bit(b, 0x80) then {ExR} else {})
    + (if Bit(c, 4) then {ExL} else {}) + (if Bit(c, 0x80) then {ExW} else {})
  }

  function WithVex2(s: seq<Byte>, mode: Mode, ps: Prefixes): Prefixes {
    var k := ps.last;
    if !VexAt(s, mode, k, 0xc5, 2) then ps
    else ps.(decoded := ps.decoded + {Vex}, ext := Vex2, vexPos := k + 1,
             vrex := ps.vrex + Vex2Bits(s[k + 1], mode), last := k + 2)
  }

  function WithVex3(s: seq<Byte>, mode: Mode, ps: Prefixes): Prefixes {
    var k := ps.last;
    if !VexAt(s, mode, k, 0xc4, 3) then ps
    else ps.(decoded := ps.decoded + {Vex}, ext := Vex3, vexPos := k + 1,
             vrex := ps.vrex + Vex3Bits(s[k + 1], s[k + 2]) - (if mode == Bits64 then {} else {ExB, ExX, ExR, ExW}),
             last := k + 3)
  }

  /** A VEX prefix, if there is one, comes last. */
  function WithVex(s: seq<Byte>, mode: Mode, ps: Prefixes): Prefixes {
    if VexAt(s, mode, ps.last, 0xc5, 2) then WithVex2(s, mode, ps) else WithVex3(s, mode, ps)
  }

  lemma {:induction false} KindsHaveNoVex(s: seq<Byte>, mode: Mode, k: nat)
    requires k <= |s| && forall i | 0 <= i < k :: PrefixOf(s[i], mode).Some?
    ensures Vex !in Kinds(s, mode, k)
  {
    if k > 0 {
      KindsHaveNoVex(s, mode, k - 1);
    }
  }

  /** The prefixes that a stream of bytes starts with. */
  function PrefixesOf(s: seq<Byte>, mode: Mode): (ps: Prefixes)
    ensures ps.last <= |s| && ps.last <= INST_MAXIMUM_SIZE
    ensures Vex in ps.decoded <==> ps.last > Leading(s, mode, 0)
    ensures Vex in ps.decoded ==> 0 < ps.vexPos && ps.vexPos + (if ps.ext == Vex3 then 2 else 1) == ps.last
    ensures Vex !in ps.decoded ==> forall i | 0 <= i < ps.last :: PrefixOf(s[i], mode).Some?
  {
    KindsHaveNoVex(s, mode, Leading(s, mode, 0));
    WithVex(s, mode, Scanned(s, mode, Leading(s, mode, 0)))
  }

  /** A kind of prefix counts as present exactly if one of the leading bytes is such a prefix. */
  lemma {:induction false} KindsAre(s: seq<Byte>, mode: Mode, k: nat, p: Prefix)
    requires k <= |s| && forall i | 0 <= i < k :: PrefixOf(s[i], mode).Some?
    ensures p in Kinds(s, mode, k) <==> exists i :: 0 <= i < k && PrefixOf(s[i], mode) == Some(p)
  {
    if k > 0 {
      KindsAre(s, mode, k - 1, p);
      assert PrefixOf(s[k - 1], mode) == Some(p) ==> p in Kinds(s, mode, k);
    }
  }

  /** prefixes_is_valid */
  predicate IsValid(b: Byte, mode: Mode) { PrefixOf(b, mode).Some? || b == 0xc5 || b == 0xc4 }

  /** A stream that does not start with a prefix byte has no prefixes. */
  lemma {:induction false} InvalidHasNone(s: seq<Byte>, mode: Mode)
    requires s != [] && !IsValid(s[0], mode)
    ensures PrefixesOf(s, mode) == NO_PREFIXES
  {
  }

  // ---- The scan -------------------------------------------------------------------

  class PrefixState {
    var decoded: set<Prefix>
    var vrex: set<Ex>
    var ext: ExtType
    var rexPos: int
    var vexPos: nat
    var last: nat
    var opSizeMandatory: bool

    function Value(): Prefixes
      reads this
    {
      Prefixes(decoded, vrex, ext, rexPos, vexPos, last, opSizeMandatory)
    }

    constructor ()
      ensures Value() == NO_PREFIXES
    {
      decoded, vrex, ext, rexPos, vexPos, last, opSizeMandatory := {}, {}, NoExt, 0, 0, 0, false;
    }

    /** One turn of the loop of prefixes_decode. */
    method Track(s: seq<Byte>, index: nat, mode: Mode) returns (done: bool)
      requires index < |s| && forall i | 0 <= i < index :: PrefixOf(s[i], mode).Some?
      requires Value() == Scanned(s, mode, index)
      modifies this
      ensures done <==> PrefixOf(s[index], mode).None?
      ensures Value() == Scanned(s, mode, if done then index else index + 1)
    {
      var p := PrefixOf(s[index], mode);
      if p.None? {
        return true;
      }
      decoded := decoded + {p.value};
      if p.value == Rex {
        vrex, rexPos, ext := RexBits(s[index]), index, RexExt;
      }
      last := index + 1;
      done := false;
    }

    /** The part of prefixes_decode for VEX of two bytes, with `codeLen` bytes behind the other prefixes. */
    method TrackVex2(s: seq<Byte>, mode: Mode, codeLen: nat)
      requires last + codeLen == |s|
      modifies this
      ensures Value() == WithVex2(s, mode, old(Value()))
    {
      if codeLen >= 2 && s[last] == 0xc5 && last <= INST_MAXIMUM_SIZE - 2 {
        if mode == Bits64 || s[last + 1] >= INST_DIVIDED_MODRM {
          vexPos := last + 1;
          decoded := decoded + {Vex};
          ext := Vex2;
          vrex := vrex + Vex2Bits(s[vexPos], mode);
          last := last + 2;
        }
      }
    }

    /** What a VEX of three bytes sets. */
    method TakeVex3(s: seq<Byte>, mode: Mode)
      requires VexAt(s, mode, last, 0xc4, 3)
      modifies this
      ensures Value() == WithVex3(s, mode, old(Value()))
    {
      vexPos := last + 1;
      decoded := decoded + {Vex};
      ext := Vex3;
      vrex := vrex + Vex3Bits(s[vexPos], s[vexPos + 1]);
      if mode != Bits64 {
        vrex := vrex - {ExB, ExX, ExR, ExW};
      }
      last := last + 3;
    }

    /** The part of prefixes_decode for VEX of three bytes; `codeLen` does not count a VEX of two bytes. */
    method TrackVex3(s: seq<Byte>, mode: Mode, codeLen: nat)
      requires last + codeLen == |s| || (Vex in decoded && last <= |s| && last + codeLen == |s| + 2)
      modifies this
      ensures Value() == if Vex in old(decoded) then old(Value()) else WithVex3(s, mode, old(Value()))
    {
      if codeLen >= 3 && s[last] == 0xc4 && last <= INST_MAXIMUM_SIZE - 3 && Vex !in decoded {
        if mode == Bits64 || s[last + 1] >= INST_DIVIDED_MODRM {
          TakeVex3(s, mode);
        }
      }
    }

    /** The loop of prefixes_decode: read as many prefixes as possible, up to fifteen bytes. */
    method TrackAll(s: seq<Byte>, mode: Mode)
      requires Value() == NO_PREFIXES
      modifies this
      ensures Value() == Scanned(s, mode, Leading(s, mode, 0))
    {
      var index, done := 0, false;
      while !done && index < |s| && index < INST_MAXIMUM_SIZE
        invariant index <= |s| && index <= INST_MAXIMUM_SIZE
        invariant forall i | 0 <= i < index :: PrefixOf(s[i], mode).Some?
        invariant Leading(s, mode, 0) == Leading(s, mode, index)
        invariant done ==> index < |s| && PrefixOf(s[index], mode).None?
        invariant Value() == Scanned(s, mode, index)
        decreases |s| - index, !done
      {
        done := Track(s, index, mode);
        if !done {
          index := index + 1;
        }
      }
    }

    /** prefixes_decode */
    method Decode(s: seq<Byte>, mode: Mode)
      requires Value() == NO_PREFIXES
      modifies this
      ensures Value() == PrefixesOf(s, mode)
    {
      TrackAll(s, mode);
      KindsHaveNoVex(s, mode, last);
      var codeLen := |s| - last;
      TrackVex2(s, mode, codeLen);
      TrackVex3(s, mode, codeLen);
    }
  }
}
