/** The vocabulary of the x86 decoder: modes, prefixes, operand types and the trie of instructions. */
module X86 {
  import Bytes

  type Byte = Bytes.Byte

  datatype Mode = Bits16 | Bits32 | Bits64

  const INST_MAXIMUM_SIZE := 15
  const INST_WAIT_INDEX := 0x9b
  const INST_LEA_INDEX := 0x8d
  const INST_ARPL_INDEX := 0x63
  const INST_NOP_INDEX := 0x90
  const INST_DIVIDED_MODRM := 0xc0
  const INST_CMP_MAX_RANGE := 8
  const ESCAPE_BYTE_3DNOW := 0x0f

  /** Whether the bit of the given weight is set. */
  predicate Bit(b: nat, weight: nat)
    requires weight > 0
  {
    b / weight % 2 == 1
  }

  // ---- Prefixes -------------------------------------------------------------

  datatype Prefix = Lock | Repnz | Rep | Cs | Ss | Ds | Es | Fs | Gs | OpSize | AddrSize | Rex | Vex

  /** The bits that REX and VEX extend an instruction with. */
  datatype Ex = ExB | ExX | ExR | ExW | ExL

  datatype ExtType = NoExt | RexExt | Vex2 | Vex3

  const SEGMENTS32: set<Prefix> := {Cs, Ss, Ds, Es}
  const SEGMENTS: set<Prefix> := {Cs, Ss, Ds, Es, Fs, Gs}

  /** What is known of the prefixes of an instruction; positions count from its first prefix. */
  datatype Prefixes = Prefixes(
    decoded: set<Prefix>, vrex: set<Ex>, ext: ExtType, rexPos: int, vexPos: nat, last: nat, opSizeMandatory: bool)

  // ---- Operands -------------------------------------------------------------

  datatype Operand =
    | NONE
    | IMM8 | IMM16 | IMM_FULL | IMM32 | SEIMM8 | IMM16_1 | IMM8_1 | IMM8_2
    | REG8 | REG16 | REG_FULL | REG32 | REG32_64 | FREG32_64_RM
    | RM8 | RM16 | RM_FULL | RM32_64 | RM16_32 | FPUM16 | FPUM32 | FPUM64 | FPUM80
    | R32_M8 | R32_M16 | R32_64_M8 | R32_64_M16 | RFULL_M16
    | CREG | DREG | SREG | SEG | ACC8 | ACC16 | ACC_FULL | ACC_FULL_NOT64
    | MEM16_FULL | PTR16_FULL | MEM16_3264 | RELCB | RELC_FULL
    | MEM | MEM_OPT | MEM32 | MEM32_64 | MEM64 | MEM128 | MEM64_128 | MOFFS8 | MOFFS_FULL
    | CONST1 | REGCL | IB_RB | IB_R_FULL | REGI_ESI | REGI_EDI | REGI_EBXAL | REGI_EAX | REGDX | REGECX
    | FPU_SI | FPU_SSI | FPU_SIS | MM | MM_RM | MM32 | MM64
    | XMM | XMM_RM | XMM16 | XMM32 | XMM64 | XMM128 | REGXMM0
    | RM32 | REG32_64_M8 | REG32_64_M16 | WREG32_64 | WRM32_64 | WXMM32_64 | VXMM | XMM_IMM
    | YXMM | YXMM_IMM | YMM | YMM256 | VYMM | VYXMM | YXMM64_256 | YXMM128_256 | LXMM64_128 | LMEM128_256

  /** Where an operand is encoded, which is all that decides how many bytes it takes. */
  datatype OperandKind =
    | MemoryOnly | MemoryOptional | RegisterOrMemory
    | Fixed(bytes: nat) | Immediate | FarPointer | Relative | Offset
    | ControlRegister | DebugRegister | SegmentRegister
    | OpcodeRegister | Implied | Unknown

  function Kind(t: Operand): OperandKind {
    match t
    case MEM64_128 | MEM32 | MEM32_64 | MEM64 | MEM128 | MEM16_FULL | MEM16_3264 | FPUM16 | FPUM32 | FPUM64 | FPUM80
       | LMEM128_256 | MEM => MemoryOnly
    case MEM_OPT => MemoryOptional
    case RM_FULL | RM16 | RM32_64 | RM16_32 | WXMM32_64 | WRM32_64 | YXMM64_256 | YXMM128_256 | LXMM64_128 | RFULL_M16
       | RM8 | R32_M8 | R32_64_M8 | REG32_64_M8 | XMM16 | R32_M16 | R32_64_M16 | REG32_64_M16
       | RM32 | MM32 | XMM32 | MM64 | XMM64 | XMM128 | YMM256 => RegisterOrMemory
    case IMM8 | SEIMM8 | IMM8_1 | IMM8_2 | RELCB | XMM_IMM | YXMM_IMM => Fixed(1)
    case IMM16 | IMM16_1 => Fixed(2)
    case IMM32 => Fixed(4)
    case IMM_FULL => Immediate
    case PTR16_FULL => FarPointer
    case RELC_FULL => Relative
    case MOFFS8 | MOFFS_FULL => Offset
    case CREG => ControlRegister
    case DREG => DebugRegister
    case SREG => SegmentRegister
    case FPU_SI | FPU_SSI | FPU_SIS | IB_RB | IB_R_FULL => OpcodeRegister
    case REG8 | REG16 | REG_FULL | REG32 | REG32_64 | FREG32_64_RM | MM | MM_RM | REGXMM0 | XMM | XMM_RM | SEG
       | ACC8 | ACC16 | ACC_FULL_NOT64 | ACC_FULL | CONST1 | REGCL | REGI_ESI | REGI_EDI | REGDX | REGECX | REGI_EBXAL
       | REGI_EAX | VXMM | YXMM | YMM | VYMM | VYXMM | WREG32_64 => Implied
    case NONE => Unknown
  }

  // ---- Instructions -----------------------------------------------------------

  datatype Flag =
    | ModrmRequired | ModrmIncluded | NotDivided | ForceReg0 | ModRR
    | TakesOpSize | UseOp3 | UseOp4 | Fetch3DNow | PseudoOpcode
    | Invalid64 | Fetch64 | Bits64Operands | NeedsRex | ForceVexL

  type FlowControl = f: nat | f < 8
  const FC_NONE: FlowControl := 0

  /** An instruction of the table: its number, operands, flow control class and flags. */
  datatype Info = Info(id: nat, d: Operand, s: Operand, op3: Operand, op4: Operand, fc: FlowControl, flags: set<Flag>)

  /** A node of the trie: nothing, an instruction, or a list of 8, 256, 72 or 12 nodes. */
  datatype Node =
    | Nothing
    | Leaf(info: Info)
    | Group(kids: seq<Node>)
    | Full(kids: seq<Node>)
    | Divided(kids: seq<Node>)
    | Prefixed(kids: seq<Node>)

  predicate IsLeaf(n: Node) { n.Nothing? || n.Leaf? }

  predicate IsPrefixed(n: Node) { n.Prefixed? && |n.kids| == 12 && forall i | 0 <= i < 12 :: IsLeaf(n.kids[i]) }

  predicate IsLeafy(n: Node) { IsLeaf(n) || IsPrefixed(n) }

  /** What a list at the second byte may hold. */
  predicate IsSecond(n: Node) {
    || IsLeafy(n)
    || (n.Group? && |n.kids| == 8 && forall i | 0 <= i < 8 :: IsLeafy(n.kids[i]))
    || (n.Divided? && |n.kids| == 72 && forall i | 0 <= i < 72 :: IsLeaf(n.kids[i]))
    || (n.Full? && |n.kids| == 256 && forall i | 0 <= i < 256 :: IsLeafy(n.kids[i]))
  }

  predicate IsFullOfSeconds(n: Node) { n.Full? && |n.kids| == 256 && forall i | 0 <= i < 256 :: IsSecond(n.kids[i]) }

  /** What the list at the first byte may hold. */
  predicate IsFirst(n: Node) {
    || IsLeaf(n)
    || (n.Group? && |n.kids| == 8 && forall i | 0 <= i < 8 :: IsLeaf(n.kids[i]))
    || (n.Divided? && |n.kids| == 72 && forall i | 0 <= i < 72 :: IsLeafy(n.kids[i]))
    || IsFullOfSeconds(n)
  }

  /** The tables the decoder starts from, and the instructions it knows by name. */
  datatype Tables = Tables(
    root: Node, table0F: Node, table0F38: Node, table0F3A: Node, table3DNow: Node,
    arpl: Info, movsxd: Info, nop: Info, pause: Info)
  {
    predicate WellFormed() {
      && root.Full? && |root.kids| == 256 && (forall i | 0 <= i < 256 :: IsFirst(root.kids[i]))
      && IsFullOfSeconds(table0F)
      && table0F38.Full? && |table0F38.kids| == 256 && (forall i | 0 <= i < 256 :: IsLeafy(table0F38.kids[i]))
      && table0F3A.Full? && |table0F3A.kids| == 256 && (forall i | 0 <= i < 256 :: IsLeafy(table0F3A.kids[i]))
      && table3DNow.Full? && |table3DNow.kids| == 256 && (forall i | 0 <= i < 256 :: IsLeaf(table3DNow.kids[i]))
    }
  }

  /** The stand-in for a 3DNow! instruction while only its operands are known. */
  const II_3DNOW: Info := Info(0, MM, MM64, NONE, NONE, 4, {ModrmRequired, Fetch3DNow})
}
