/** How many bytes the operands of an instruction take, and which operands are refused. */
module OperandBytes {
  import opened Wrappers
  import opened X86
  import opened PrefixScan
  import opened OpcodeTrie

  /** What the operands are extracted with: sizes in effect, ModR/M byte, prefixes left, flags of the instruction. */
  datatype Context = Context(mode: Mode, opSize: Mode, addrSize: Mode, modrm: Byte, ps: Prefixes, flags: set<Flag>)

  function Mod(modrm: Byte): nat { modrm / 64 }
  function Rm(modrm: Byte): nat { modrm % 8 }

  /** decode_get_effective_addr_size */
  function EffectiveAddrSize(mode: Mode, decoded: set<Prefix>): Mode {
    if AddrSize !in decoded then mode
    else match mode case Bits16 => Bits32 case Bits32 => Bits16 case Bits64 => Bits32
  }

  /** decode_get_effective_op_size */
  function EffectiveOpSize(mode: Mode, decoded: set<Prefix>, vrex: set<Ex>, flags: set<Flag>): Mode {
    if OpSize in decoded then if mode == Bits16 then Bits32 else Bits16
    else if mode == Bits64 then
      if (Bits64Operands in flags && NeedsRex !in flags) || (Rex in decoded && ExW in vrex) then Bits64 else Bits32
    else mode
  }

  // ---- How many bytes an operand takes ---------------------------------------------

  /** `n` more bytes from `p` on, if the stream has them. */
  function Take(s: seq<Byte>, p: nat, n: nat): Option<nat> {
    if p + n <= |s| then Some(p + n) else None
  }

  /** The bytes of a displacement behind a ModR/M byte, and behind a SIB byte with no base. */
  function DisplacementBytes(mod: nat, sib: Byte): nat {
    if mod == 1 then 1 else if mod == 2 || sib % 8 == 5 then 4 else 0
  }

  /** The bytes behind a ModR/M byte that refers to memory: SIB and displacement. */
  function Memory(s: seq<Byte>, p: nat, mod: nat, rm: nat, addrSize: Mode): Option<nat> {
    if addrSize == Bits16 then
      Take(s, p, if mod == 0 && rm == 6 then 2 else if mod == 1 then 1 else if mod == 2 then 2 else 0)
    else if mod == 0 && rm == 5 then Take(s, p, 4)
    else if rm == 4 then
      if p < |s| then Take(s, p + 1, DisplacementBytes(mod, s[p])) else None
    else Take(s, p, DisplacementBytes(mod, 0))
  }

  /** Control registers 0, 2, 3, 4 and 8; the eighth bit comes from REX.R, or from LOCK in 32 bits. */
  predicate IsControlRegister(c: Context) {
    var eighth := ExR in c.ps.vrex || (c.mode == Bits32 && Lock in c.ps.decoded);
    var reg := if eighth then Reg(c.modrm) + 8 else Reg(c.modrm);
    reg < 9 && reg != 1 && !(5 <= reg <= 7)
  }

  predicate IsDebugRegister(c: Context) { Reg(c.modrm) != 4 && Reg(c.modrm) != 5 && ExR !in c.ps.vrex }

  /** A destination must not be CS. */
  predicate IsSegmentRegister(c: Context, first: bool) { !(first && Reg(c.modrm) == 1) && Reg(c.modrm) <= 5 }

  function ImmediateBytes(c: Context): nat {
    if c.opSize == Bits16 then 2
    else if c.opSize == Bits64 && Bits64Operands in c.flags && NeedsRex in c.flags then 8
    else 4
  }

  function OffsetBytes(addrSize: Mode): nat {
    match addrSize case Bits16 => 2 case Bits32 => 4 case Bits64 => 8
  }

  function OperandOf(kind: OperandKind, c: Context, s: seq<Byte>, p: nat, first: bool): (q: Option<nat>)
    ensures p <= |s| && q.Some? ==> p <= q.value <= |s|
  {
    match kind
    case MemoryOnly => if Mod(c.modrm) == 3 then None else Memory(s, p, Mod(c.modrm), Rm(c.modrm), c.addrSize)
    case MemoryOptional => if Mod(c.modrm) == 3 then Some(p) else Memory(s, p, Mod(c.modrm), Rm(c.modrm), c.addrSize)
    case RegisterOrMemory => if Mod(c.modrm) == 3 then Some(p) else Memory(s, p, Mod(c.modrm), Rm(c.modrm), c.addrSize)
    case Fixed(n) => Take(s, p, n)
    case Immediate => Take(s, p, ImmediateBytes(c))
    case FarPointer => Take(s, p, if c.opSize == Bits16 then 4 else 6)
    case Relative => Take(s, p, if c.opSize == Bits16 then 2 else 4)
    case Offset => Take(s, p, OffsetBytes(c.addrSize))
    case ControlRegister => if IsControlRegister(c) then Some(p) else None
    case DebugRegister => if IsDebugRegister(c) then Some(p) else None
    case SegmentRegister => if IsSegmentRegister(c, first) then Some(p) else None
    case OpcodeRegister => Some(p)
    case Implied => Some(p)
    case Unknown => None
  }

  /** The place behind one operand that starts at `p`, or none if the operand is refused or cut off. */
  function Operand1(t: Operand, c: Context, s: seq<Byte>, p: nat, first: bool): (q: Option<nat>)
    ensures p <= |s| && q.Some? ==> p <= q.value <= |s|
  {
    OperandOf(Kind(t), c, s, p, first)
  }

  /** The operands after the first, as far as the instruction has them. */
  function Operands3(info: Info, c: Context, s: seq<Byte>, p: nat): (q: Option<nat>)
    ensures p <= |s| && q.Some? ==> p <= q.value <= |s|
  {
    if UseOp3 !in info.flags then Some(p)
    else
      var q := Operand1(info.op3, c, s, p, false);
      if q.None? || UseOp4 !in info.flags then q else Operand1(info.op4, c, s, q.value, false)
  }

  function Operands2(info: Info, c: Context, s: seq<Byte>, p: nat): (q: Option<nat>)
    ensures p <= |s| && q.Some? ==> p <= q.value <= |s|
  {
    if info.s == NONE then Some(p)
    else
      var q := Operand1(info.s, c, s, p, false);
      if q.None? then None else Operands3(info, c, s, q.value)
  }

  /** The place behind all operands of an instruction; there is no later operand without the ones before it. */
  function Operands(info: Info, c: Context, s: seq<Byte>, p: nat): (q: Option<nat>)
    ensures p <= |s| && q.Some? ==> p <= q.value <= |s|
  {
    if info.d == NONE then Some(p)
    else
      var q := Operand1(info.d, c, s, p, true);
      if q.None? then None else Operands2(info, c, s, q.value)
  }

  // ---- The extraction ----------------------------------------------------------------

  /** What an extraction did: it moved to `expected` with everything paid for, or it failed. */
  predicate Moved(ok: bool, ci: CodeInfo, expected: Option<nat>)
    reads ci
  {
    if ok then expected == Some(ci.code) && ci.AtUnpaidByte() else expected.None?
  }

  /** read_stream_safe_uint and read_stream_safe_sint: pay first, then read; the bytes that were read are `value`. */
  method ReadStream(ci: CodeInfo, size: nat) returns (ok: bool, value: seq<Byte>)
    requires ci.AtUnpaidByte()
    modifies ci
    ensures Moved(ok, ci, Take(ci.bytes, old(ci.code), size))
    ensures ok ==> value == ci.bytes[old(ci.code)..old(ci.code) + size]
  {
    value := [];
    ci.codeLen := ci.codeLen - size;
    if ci.codeLen < 0 {
      return false, [];
    }
    value := ci.bytes[ci.code..ci.code + size];
    ci.code := ci.code + size;
    ok := true;
  }

  /** operands_extract_modrm, for memory. */
  method ExtractMemory(ci: CodeInfo, mod: nat, rm: nat, addrSize: Mode) returns (ok: bool)
    requires ci.AtUnpaidByte() && mod < 3 && rm < 8
    modifies ci
    ensures Moved(ok, ci, Memory(ci.bytes, old(ci.code), mod, rm, addrSize))
  {
    var value;
    if addrSize == Bits16 {
      if mod == 0 && rm == 6 {
        ok, value := ReadStream(ci, 2);
        return;
      }
      if mod == 1 {
        ok, value := ReadStream(ci, 1);
        return;
      } else if mod == 2 {
        ok, value := ReadStream(ci, 2);
        return;
      }
      return true;
    }
    if mod == 0 && rm == 5 {
      ok, value := ReadStream(ci, 4);
      return;
    }
    var sib: Byte := 0;
    if rm == 4 {
      ok, value := ReadStream(ci, 1);
      if !ok {
        return;
      }
      sib := value[0];
    }
    if mod == 1 {
      ok, value := ReadStream(ci, 1);
      return;
    } else if mod == 2 || sib % 8 == 5 {
      ok, value := ReadStream(ci, 4);
      return;
    }
    ok := true;
  }

  /**
   operands_extract. The register operands that are part of the opcode look one byte back, at the last opcode byte,
   so something must have been read before.
   */
  method Extract(ci: CodeInfo, kind: OperandKind, c: Context, first: bool) returns (ok: bool)
    requires ci.AtUnpaidByte() && ci.code > 0
    modifies ci
    ensures Moved(ok, ci, OperandOf(kind, c, ci.bytes, old(ci.code), first))
  {
    var mod, rm := Mod(c.modrm), Rm(c.modrm);
    var value;
    match kind {
      case MemoryOnly =>
        if mod == 3 {
          return false;
        }
        ok := ExtractMemory(ci, mod, rm, c.addrSize);
      case MemoryOptional =>
        if mod == 3 {
          return true;
        }
        ok := ExtractMemory(ci, mod, rm, c.addrSize);
      case RegisterOrMemory =>
        if mod == 3 {
          return true;
        }
        ok := ExtractMemory(ci, mod, rm, c.addrSize);
      case Fixed(n) => ok, value := ReadStream(ci, n);
      case Immediate => ok, value := ReadStream(ci, ImmediateBytes(c));
      case FarPointer => ok, value := ReadStream(ci, if c.opSize == Bits16 then 4 else 6);
      case Relative => ok, value := ReadStream(ci, if c.opSize == Bits16 then 2 else 4);
      case Offset => ok, value := ReadStream(ci, OffsetBytes(c.addrSize));
      case ControlRegister => ok := IsControlRegister(c);
      case DebugRegister => ok := IsDebugRegister(c);
      case SegmentRegister => ok := IsSegmentRegister(c, first);
      case OpcodeRegister =>
        var reg := ci.bytes[ci.code - 1] % 8;
        ok := true;
      case Implied => ok := true;
      case Unknown => ok := false;
    }
  }

  /** The part of decode_inst that extracts the operands in order. */
  method ExtractAll(ci: CodeInfo, info: Info, c: Context) returns (ok: bool)
    requires ci.AtUnpaidByte() && ci.code > 0
    modifies ci
    ensures Moved(ok, ci, Operands(info, c, ci.bytes, old(ci.code)))
  {
    if info.d == NONE {
      return true;
    }
    ok := Extract(ci, Kind(info.d), c, true);
    if !ok || info.s == NONE {
      return;
    }
    ok := Extract(ci, Kind(info.s), c, false);
    if !ok || UseOp3 !in info.flags {
      return;
    }
    ok := Extract(ci, Kind(info.op3), c, false);
    if !ok || UseOp4 !in info.flags {
      return;
    }
    ok := Extract(ci, Kind(info.op4), c, false);
  }
}
