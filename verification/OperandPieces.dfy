/** How operands are written behind the opcode, type by type, and that exactly these bytes are read. */
module OperandPieces {
  import opened Wrappers
  import opened X86
  import opened OpcodeTrie
  import opened OperandBytes
  import opened AddressForms
  import D = DecodeInst

  // ---- One operand --------------------------------------------------------------------------------

  /** `tail` completes the reference to memory that the ModR/M byte starts. */
  ghost predicate InMemory(c: Context, tail: seq<Byte>) {
    exists f: Form, reg {:trigger Modrm(f.ModField(), reg, f.RmField())} ::
      f.Legal(c.addrSize) && reg < 8 && c.modrm == Modrm(f.ModField(), reg, f.RmField()) && tail == f.Tail()
  }

  ghost predicate OnlyInMemory(c: Context, tail: seq<Byte>) { c.modrm < 0xc0 && InMemory(c, tail) }

  ghost predicate InRegisterOrMemory(c: Context, tail: seq<Byte>) {
    if c.modrm >= 0xc0 then tail == [] else InMemory(c, tail)
  }

  /** CR0, CR2, CR3, CR4 and CR8: REX.R, or in 32-bit code LOCK, adds eight. */
  predicate NamesControlRegister(c: Context) {
    var plus8 := ExR in c.ps.vrex || (c.mode == Bits32 && Lock in c.ps.decoded);
    var cr := (c.modrm / 8) % 8 + if plus8 then 8 else 0;
    cr == 0 || cr == 2 || cr == 3 || cr == 4 || cr == 8
  }

  /**
   `tail` is what operand `t` has behind the opcode and its ModR/M byte; `first` says that it is the first operand.
   */
  ghost predicate Piece(t: Operand, c: Context, first: bool, tail: seq<Byte>) {
    match t
    case NONE => false
    // Memory, and never a register.
    case MEM | MEM32 | MEM64 | MEM128 | MEM32_64 | MEM64_128 | MEM16_FULL | MEM16_3264 => OnlyInMemory(c, tail)
    case LMEM128_256 | FPUM16 | FPUM32 | FPUM64 | FPUM80 => OnlyInMemory(c, tail)
    // A register or memory; the memory that is optional counts as absent if there is a register.
    case MEM_OPT => InRegisterOrMemory(c, tail)
    case RM8 | RM16 | RM32 | RM_FULL | RM32_64 | RM16_32 | WRM32_64 | RFULL_M16 => InRegisterOrMemory(c, tail)
    case R32_M8 | R32_M16 | R32_64_M8 | R32_64_M16 | REG32_64_M8 | REG32_64_M16 => InRegisterOrMemory(c, tail)
    case MM32 | MM64 | XMM16 | XMM32 | XMM64 | XMM128 | WXMM32_64 | LXMM64_128 => InRegisterOrMemory(c, tail)
    case YMM256 | YXMM64_256 | YXMM128_256 => InRegisterOrMemory(c, tail)
    // Immediates of a size of their own.
    case IMM8 | SEIMM8 | IMM8_1 | IMM8_2 | RELCB | XMM_IMM | YXMM_IMM => |tail| == 1
    case IMM16 | IMM16_1 => |tail| == 2
    case IMM32 => |tail| == 4
    // Immediates as wide as the operand: of 64 bits only if REX asks for it, and then whole.
    case IMM_FULL =>
      if c.opSize == Bits16 then |tail| == 2
      else |tail| == if c.opSize == Bits64 && Bits64Operands in c.flags && NeedsRex in c.flags then 8 else 4
    case RELC_FULL => |tail| == if c.opSize == Bits16 then 2 else 4
    case PTR16_FULL => |tail| == 2 + if c.opSize == Bits16 then 2 else 4
    // Offsets are as wide as addresses.
    case MOFFS8 | MOFFS_FULL => |tail| == (match c.addrSize case Bits16 => 2 case Bits32 => 4 case Bits64 => 8)
    // Registers in the reg field, some of which do not exist.
    case CREG => tail == [] && NamesControlRegister(c)
    case DREG => tail == [] && (c.modrm / 8) % 8 != 4 && (c.modrm / 8) % 8 != 5 && ExR !in c.ps.vrex
    case SREG => tail == [] && (c.modrm / 8) % 8 < 6 && (first ==> (c.modrm / 8) % 8 != 1)
    // Everything else is in the opcode, in the ModR/M byte or in VEX, or is understood.
    case _ => tail == []
  }

  lemma {:induction false} FormFields(f: Form, addrSize: Mode, reg: nat, modrm: Byte)
    requires f.Legal(addrSize) && reg < 8 && modrm == f.ModField() * 64 + reg * 8 + f.RmField()
    ensures Mod(modrm) == f.ModField() < 3 && Rm(modrm) == f.RmField() < 8
  {
    FieldsOf(f.ModField(), reg, f.RmField());
  }

  lemma {:induction false} MemoryIsRead(c: Context, tail: seq<Byte>, s: seq<Byte>, p: nat)
    requires p <= |s| && InMemory(c, tail) && tail <= s[p..]
    ensures Mod(c.modrm) < 3 && Memory(s, p, Mod(c.modrm), Rm(c.modrm), c.addrSize) == Some(p + |tail|)
  {
    var f: Form, reg :| f.Legal(c.addrSize) && reg < 8 && c.modrm == Modrm(f.ModField(), reg, f.RmField())
                        && tail == f.Tail();
    FormFields(f, c.addrSize, reg, c.modrm);
    FormIsRead(f, c.addrSize, s, p);
  }

  lemma {:induction false} ReadIsMemory(c: Context, s: seq<Byte>, p: nat)
    requires p <= |s| && Mod(c.modrm) < 3 && Memory(s, p, Mod(c.modrm), Rm(c.modrm), c.addrSize).Some?
    ensures var q := Memory(s, p, Mod(c.modrm), Rm(c.modrm), c.addrSize).value;
            p <= q <= |s| && InMemory(c, s[p..q])
  {
    var f := ReadIsForm(s, p, Mod(c.modrm), Rm(c.modrm), c.addrSize);
    ByteOf(c.modrm);
    assert c.modrm == Modrm(f.ModField(), c.modrm / 8 % 8, f.RmField());
  }

  /** The operands that ModR/M may refer to memory with, those that are bytes of their own, and the registers. */
  predicate MayBeMemory(kind: OperandKind) { kind.MemoryOnly? || kind.MemoryOptional? || kind.RegisterOrMemory? }

  predicate IsImmediate(kind: OperandKind) {
    kind.Fixed? || kind.Immediate? || kind.FarPointer? || kind.Relative? || kind.Offset?
  }

  function ImmediateSize(kind: OperandKind, c: Context): nat
    requires IsImmediate(kind)
  {
    match kind
    case Fixed(n) => n
    case Immediate => ImmediateBytes(c)
    case FarPointer => if c.opSize == Bits16 then 4 else 6
    case Relative => if c.opSize == Bits16 then 2 else 4
    case Offset => OffsetBytes(c.addrSize)
  }

  lemma {:induction false} MemoryPiece(t: Operand, c: Context, first: bool, tail: seq<Byte>)
    requires MayBeMemory(Kind(t))
    ensures Piece(t, c, first, tail)
            <==> if c.modrm >= 0xc0 then !Kind(t).MemoryOnly? && tail == [] else InMemory(c, tail)
  {
  }

  lemma {:induction false} ImmediatePiece(t: Operand, c: Context, first: bool, tail: seq<Byte>)
    requires IsImmediate(Kind(t))
    ensures Piece(t, c, first, tail) <==> |tail| == ImmediateSize(Kind(t), c)
  {
  }

  lemma {:induction false} NamedRegister(t: Operand, c: Context, first: bool, tail: seq<Byte>, s: seq<Byte>, p: nat)
    requires t == CREG || t == DREG || t == SREG
    ensures Piece(t, c, first, tail) <==> tail == [] && OperandOf(Kind(t), c, s, p, first) == Some(p)
    ensures OperandOf(Kind(t), c, s, p, first).Some? ==> OperandOf(Kind(t), c, s, p, first).value == p
  {
  }

  lemma {:induction false} ImpliedRegister(t: Operand, c: Context, first: bool, tail: seq<Byte>, s: seq<Byte>, p: nat)
    requires Kind(t).OpcodeRegister? || Kind(t).Implied? || Kind(t).Unknown?
    ensures Piece(t, c, first, tail) <==> tail == [] && OperandOf(Kind(t), c, s, p, first) == Some(p)
    ensures OperandOf(Kind(t), c, s, p, first).Some? ==> OperandOf(Kind(t), c, s, p, first).value == p
  {
  }

  lemma {:induction false} NamedKinds(t: Operand)
    requires !MayBeMemory(Kind(t)) && !IsImmediate(Kind(t))
    ensures t == CREG || t == DREG || t == SREG || Kind(t).OpcodeRegister? || Kind(t).Implied? || Kind(t).Unknown?
  {
  }

  lemma {:induction false} RegisterPieceIs(t: Operand, c: Context, first: bool, tail: seq<Byte>, s: seq<Byte>, p: nat)
    requires !MayBeMemory(Kind(t)) && !IsImmediate(Kind(t))
    ensures Piece(t, c, first, tail) <==> tail == [] && OperandOf(Kind(t), c, s, p, first) == Some(p)
    ensures OperandOf(Kind(t), c, s, p, first).Some? ==> OperandOf(Kind(t), c, s, p, first).value == p
  {
    NamedKinds(t);
    if t == CREG || t == DREG || t == SREG {
      NamedRegister(t, c, first, tail, s, p);
    } else {
      ImpliedRegister(t, c, first, tail, s, p);
    }
  }

  lemma {:induction false} MemoryOperandIsRead(kind: OperandKind, c: Context, first: bool, tail: seq<Byte>,
                                               s: seq<Byte>, p: nat)
    requires p <= |s| && tail <= s[p..] && MayBeMemory(kind)
    requires if c.modrm >= 0xc0 then !kind.MemoryOnly? && tail == [] else InMemory(c, tail)
    ensures OperandOf(kind, c, s, p, first) == Some(p + |tail|)
  {
    if c.modrm < 0xc0 {
      MemoryIsRead(c, tail, s, p);
    }
  }

  lemma {:induction false} ReadIsMemoryOperand(kind: OperandKind, c: Context, first: bool, s: seq<Byte>, p: nat)
    requires p <= |s| && MayBeMemory(kind) && OperandOf(kind, c, s, p, first).Some?
    ensures var tail := s[p..OperandOf(kind, c, s, p, first).value];
            if c.modrm >= 0xc0 then !kind.MemoryOnly? && tail == [] else InMemory(c, tail)
  {
    if c.modrm < 0xc0 {
      ReadIsMemory(c, s, p);
    }
  }

  lemma {:induction false} ImmediateIsRead(kind: OperandKind, c: Context, first: bool, s: seq<Byte>, p: nat)
    requires p <= |s| && IsImmediate(kind)
    ensures OperandOf(kind, c, s, p, first)
            == if p + ImmediateSize(kind, c) <= |s| then Some(p + ImmediateSize(kind, c)) else None
  {
  }

  /** An operand as it is written, with anything behind it, is read to its end and no further. */
  lemma {:induction false} PieceIsRead(t: Operand, c: Context, first: bool, tail: seq<Byte>, s: seq<Byte>, p: nat,
                                       end: nat)
    requires p <= |s| && tail <= s[p..] && (Piece(t, c, first, tail) == true) && end == p + |tail|
    ensures Operand1(t, c, s, p, first) == Some(end)
  {
    var kind := Kind(t);
    if MayBeMemory(kind) {
      MemoryPiece(t, c, first, tail);
      MemoryOperandIsRead(kind, c, first, tail, s, p);
    } else if IsImmediate(kind) {
      ImmediatePiece(t, c, first, tail);
      ImmediateIsRead(kind, c, first, s, p);
    } else {
      RegisterPieceIs(t, c, first, tail, s, p);
    }
  }

  /** What is read for an operand is an operand as it is written. */
  lemma {:induction false} ReadIsPiece(t: Operand, c: Context, first: bool, s: seq<Byte>, p: nat)
    requires p <= |s| && Operand1(t, c, s, p, first).Some?
    ensures Piece(t, c, first, s[p..Operand1(t, c, s, p, first).value]) == true
  {
    var kind := Kind(t);
    var tail := s[p..Operand1(t, c, s, p, first).value];
    if MayBeMemory(kind) {
      MemoryPiece(t, c, first, tail);
      ReadIsMemoryOperand(kind, c, first, s, p);
    } else if IsImmediate(kind) {
      ImmediatePiece(t, c, first, tail);
      ImmediateIsRead(kind, c, first, s, p);
    } else {
      RegisterPieceIs(t, c, first, tail, s, p);
    }
  }

  // ---- All operands of an instruction -------------------------------------------------------------

  /** The operands an instruction has; there is none behind a missing one. */
  function Listed(info: Info): seq<Operand> {
    if info.d == NONE then []
    else if info.s == NONE then [info.d]
    else if UseOp3 !in info.flags then [info.d, info.s]
    else if UseOp4 !in info.flags then [info.d, info.s, info.op3]
    else [info.d, info.s, info.op3, info.op4]
  }

  /** `tails` are the pieces of these operands. */
  ghost predicate Pieces(ts: seq<Operand>, c: Context, first: bool, tails: seq<seq<Byte>>) {
    |ts| == |tails| && forall i | 0 <= i < |ts| :: Piece(ts[i], c, first && i == 0, tails[i])
  }

  function Joined(tails: seq<seq<Byte>>): seq<Byte> { if tails == [] then [] else tails[0] + Joined(tails[1..]) }

  /** Reading these operands one behind the other. */
  function ReadAll(ts: seq<Operand>, c: Context, s: seq<Byte>, p: nat, first: bool): Option<nat> {
    if ts == [] then Some(p)
    else
      var q := Operand1(ts[0], c, s, p, first);
      if q.None? then None else ReadAll(ts[1..], c, s, q.value, false)
  }

  lemma {:induction false} ReadAllOfMore(t: Operand, ts: seq<Operand>, c: Context, s: seq<Byte>, p: nat, first: bool)
    ensures var q := Operand1(t, c, s, p, first);
            ReadAll([t] + ts, c, s, p, first) == if q.None? then None else ReadAll(ts, c, s, q.value, false)
  {
    assert ([t] + ts)[1..] == ts;
  }

  lemma {:induction false} OperandsAreListed(info: Info, c: Context, s: seq<Byte>, p: nat)
    ensures Operands(info, c, s, p) == ReadAll(Listed(info), c, s, p, true)
  {
    forall q
      ensures ReadAll([info.op3], c, s, q, false) == Operand1(info.op3, c, s, q, false)
      ensures ReadAll([info.op4], c, s, q, false) == Operand1(info.op4, c, s, q, false)
      ensures UseOp3 in info.flags ==>
                Operands3(info, c, s, q)
                == ReadAll(if UseOp4 in info.flags then [info.op3, info.op4] else [info.op3], c, s, q, false)
    {
      ReadAllOfMore(info.op3, [], c, s, q, false);
      ReadAllOfMore(info.op4, [], c, s, q, false);
      ReadAllOfMore(info.op3, [info.op4], c, s, q, false);
      assert [info.op3] + [info.op4] == [info.op3, info.op4];
    }
    var others := Listed(info);
    if |others| > 1 {
      var more := others[2..];
      assert others == [info.d] + ([info.s] + more);
      ReadAllOfMore(info.d, [info.s] + more, c, s, p, true);
      forall q
        ensures ReadAll([info.s] + more, c, s, q, false) == Operands2(info, c, s, q)
      {
        ReadAllOfMore(info.s, more, c, s, q, false);
      }
    }
  }

  /** A stretch of two parts has the second behind the first. */
  lemma {:induction false} TwoParts(a: seq<Byte>, b: seq<Byte>, s: seq<Byte>, p: nat, q: nat)
    requires p <= |s| && a + b <= s[p..] && q == p + |a|
    ensures q <= |s| && a <= s[p..] && b <= s[q..]
  {
    assert s[q..] == s[p..][|a|..];
    assert (a + b)[|a|..] == b && (a + b)[..|a|] == a;
  }

  /** The operands of an instruction as they are written, with anything behind them, are read to their end. */
  lemma {:induction false} PiecesAreRead(ts: seq<Operand>, c: Context, first: bool, tails: seq<seq<Byte>>,
                                         s: seq<Byte>, p: nat, end: nat)
    requires p <= |s| && Pieces(ts, c, first, tails) && Joined(tails) <= s[p..] && end == p + |Joined(tails)|
    ensures ReadAll(ts, c, s, p, first) == Some(end)
    decreases |ts|
  {
    if ts != [] {
      var q := p + |tails[0]|;
      TwoParts(tails[0], Joined(tails[1..]), s, p, q);
      assert Piece(ts[0], c, first, tails[0]) == true;
      PieceIsRead(ts[0], c, first, tails[0], s, p, q);
      PiecesAreRead(ts[1..], c, false, tails[1..], s, q, end);
    }
  }

  /** What is read for the operands of an instruction is operands as they are written. */
  lemma {:induction false} ReadIsPieces(ts: seq<Operand>, c: Context, first: bool, s: seq<Byte>, p: nat)
    returns (tails: seq<seq<Byte>>)
    requires p <= |s| && ReadAll(ts, c, s, p, first).Some?
    ensures var q := ReadAll(ts, c, s, p, first).value;
            p <= q <= |s| && Pieces(ts, c, first, tails) && Joined(tails) == s[p..q]
    decreases |ts|
  {
    if ts == [] {
      tails := [];
    } else {
      var r := Operand1(ts[0], c, s, p, first).value;
      ReadIsPiece(ts[0], c, first, s, p);
      var rest := ReadIsPieces(ts[1..], c, false, s, r);
      tails := [s[p..r]] + rest;
      assert tails[1..] == rest;
    }
  }
}
