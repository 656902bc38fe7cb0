/**
 The start of a file system operation that the filter expects to find, taken from its own notes: fifteen instructions of
 32-bit code, decoded with what the generated tables have for them.
 */
module Prologue {
  import opened Wrappers
  import opened X86
  import opened PrefixScan
  import opened PrefixBytes
  import opened AddressForms
  import opened OperandBytes
  import opened OperandPieces
  import opened OpcodePaths
  import opened DecodeRun
  import opened DecodeLoop
  import opened Listings
  import opened Assembly
  import opened FunctionStart
  import Distorm
  import D = DecodeInst

  // ---- Instructions without prefixes in 32-bit code -----------------------------------------------

  const NOTHING: Prefixes := Prefixes({}, {}, NoExt, 0, 0, 0, false)

  function Context32(info: Info, modrm: Byte): Context {
    Context(Bits32, Bits32, Bits32, if ModrmRequired in info.flags then modrm else 0, NOTHING, info.flags)
  }

  /** The opcode leads to the instruction, without prefixes. */
  ghost predicate StandsPlain(t: Tables, path: Path, info: Info) { Stands(t, path, NOTHING, Bits32, info, NOTHING) }

  /** What a plain instruction needs: no suffix, and nothing asked of the mode or of the ModR/M byte. */
  predicate IsPlain(info: Info) {
    && info.d != NONE && Fetch64 !in info.flags && ForceReg0 !in info.flags && ModRR !in info.flags
    && Fetch3DNow !in info.flags && PseudoOpcode !in info.flags && UseOp3 !in info.flags && UseOp4 !in info.flags
  }

  lemma {:induction false} ContextIs(info: Info, modrm: Byte)
    ensures Left([], None, Bits32) == NOTHING
    ensures D.ContextOf(info, modrm, D.WithoutOpSize(NOTHING), Bits32) == Context32(info, modrm)
  {
  }

  /** The line is a plain instruction, with this opcode, this ModR/M byte behind it, and these operands. */
  ghost predicate IsLine(t: Tables, line: Line, path: Path, extra: seq<Byte>, tails: seq<seq<Byte>>) {
    var info, modrm := line.info, if extra != [] then extra[0] else path.Bytes()[|path.Bytes()| - 1];
    && IsPlain(info) && |extra| == Extra(info)
    && line.bytes == path.Bytes() + (extra + Joined(tails)) && |line.bytes| <= 15
    && StandsPlain(t, path, info)
    && path.b !in [0xc4, 0xc5] && NoPrefix([path.Bytes()[0]], Bits32)
    && Pieces(Listed(info), Context32(info, modrm), true, tails)
  }

  lemma {:induction false} PlainLine(t: Tables, line: Line, path: Path, extra: seq<Byte>, tails: seq<seq<Byte>>)
    requires t.WellFormed() && IsLine(t, line, path, extra, tails)
    ensures Takes(Steps(t, Bits32), line)
  {
    var code := Encoding([], None, path, extra, tails, []);
    ContextIs(line.info, code.Modrm());
    assert code.Bytes() == line.bytes;
    LineFrom(t, line, Bits32, code, line.info, NOTHING);
    LineIsTaken(t, line, Bits32);
  }

  /** The step takes every plain instruction of the tables. */
  ghost predicate TakesPlain(step: Step, t: Tables) {
    forall line, path, extra, tails {:trigger IsLine(t, line, path, extra, tails)} ::
      IsLine(t, line, path, extra, tails) ==> Takes(step, line)
  }

  lemma {:induction false} DecoderTakesPlain(t: Tables)
    requires t.WellFormed()
    ensures TakesPlain(Steps(t, Bits32), t)
  {
    forall line, path, extra, tails | IsLine(t, line, path, extra, tails)
      ensures Takes(Steps(t, Bits32), line)
    {
      PlainLine(t, line, path, extra, tails);
    }
  }

  /** Such a line from its parts. */
  lemma {:induction false} LineOf(step: Step, t: Tables, line: Line, path: Path, extra: seq<Byte>, modrm: Byte,
                                  tails: seq<seq<Byte>>)
    requires TakesPlain(step, t)
    requires (IsPlain(line.info) == true) && |extra| == Extra(line.info) && path.b !in [0xc4, 0xc5]
    requires line.bytes == path.Bytes() + (extra + Joined(tails)) && |line.bytes| <= 15
    requires NoPrefix([path.Bytes()[0]], Bits32)
    requires modrm == if extra != [] then extra[0] else path.Bytes()[|path.Bytes()| - 1]
    requires StandsPlain(t, path, line.info)
             == Pieces(Listed(line.info), Context32(line.info, modrm), true, tails) == true
    ensures Takes(step, line)
  {
    assert IsLine(t, line, path, extra, tails);
  }

  /**
   The bytes of a single opcode byte, with a ModR/M byte behind it or without, and of one whose ModR/M byte is its own.
   */
  lemma {:induction false} ByteOpcode(b: Byte, tails: seq<seq<Byte>>, rest: seq<Byte>)
    requires Joined(tails) == rest
    ensures [b] + rest == First(b).Bytes() + ([] + Joined(tails))
  {
  }

  lemma {:induction false} ModrmOpcode(b: Byte, modrm: Byte, tails: seq<seq<Byte>>, rest: seq<Byte>)
    requires Joined(tails) == rest
    ensures [b, modrm] + rest == First(b).Bytes() + ([modrm] + Joined(tails))
  {
  }

  lemma {:induction false} RegOpcode(b: Byte, modrm: Byte, tails: seq<seq<Byte>>, rest: seq<Byte>)
    requires Joined(tails) == rest
    ensures [b, modrm] + rest == FirstReg(b, modrm).Bytes() + ([] + Joined(tails))
  {
  }

  lemma {:induction false} NotAPrefix(b: Byte)
    requires 0x50 <= b < 0x58 || 0xe8 <= b < 0xea
    ensures NoPrefix([b], Bits32) == true
  {
  }

  /** Lines of the three kinds. */
  lemma {:induction false} ModrmLineOf(step: Step, t: Tables, b: Byte, info: Info, modrm: Byte, tails: seq<seq<Byte>>,
                                       bytes: seq<Byte>)
    requires TakesPlain(step, t) && (IsPlain(info) == true) && Extra(info) == 1 && 0x80 <= b < 0xc0
    requires bytes == First(b).Bytes() + ([modrm] + Joined(tails)) && |bytes| <= 15
    requires StandsPlain(t, First(b), info)
             == Pieces(Listed(info), Context32(info, modrm), true, tails) == true
    ensures Takes(step, Line(bytes, info))
  {
    LineOf(step, t, Line(bytes, info), First(b), [modrm], modrm, tails);
  }

  lemma {:induction false} ByteLineOf(step: Step, t: Tables, b: Byte, info: Info, tails: seq<seq<Byte>>,
                                      bytes: seq<Byte>)
    requires TakesPlain(step, t) && (IsPlain(info) == true) && Extra(info) == 0
    requires b != 0xc4 && b != 0xc5 && (NoPrefix([b], Bits32) == true)
    requires bytes == First(b).Bytes() + ([] + Joined(tails)) && |bytes| <= 15
    requires StandsPlain(t, First(b), info) == Pieces(Listed(info), Context32(info, b), true, tails) == true
    ensures Takes(step, Line(bytes, info))
  {
    LineOf(step, t, Line(bytes, info), First(b), [], b, tails);
  }

  lemma {:induction false} RegLineOf(step: Step, t: Tables, b: Byte, info: Info, modrm: Byte, tails: seq<seq<Byte>>,
                                     bytes: seq<Byte>)
    requires TakesPlain(step, t) && (IsPlain(info) == true) && Extra(info) == 0
    requires b != 0xc4 && b != 0xc5 && NoPrefix([b], Bits32)
    requires bytes == FirstReg(b, modrm).Bytes() + ([] + Joined(tails)) && |bytes| <= 15
    requires StandsPlain(t, FirstReg(b, modrm), info)
             == Pieces(Listed(info), Context32(info, modrm), true, tails) == true
    ensures Takes(step, Line(bytes, info))
  {
    LineOf(step, t, Line(bytes, info), FirstReg(b, modrm), [], modrm, tails);
  }

  // ---- The shapes of instructions -----------------------------------------------------------------

  predicate PushesRegister(info: Info) { info.d == IB_R_FULL && info.s == NONE && info.flags == {Bits64Operands} }

  predicate Jumps(info: Info) { info.d == RELC_FULL && info.s == NONE && info.flags == {Bits64Operands} }

  predicate Stores(info: Info) { info.d == RM_FULL && info.s == REG_FULL && info.flags == {ModrmRequired} }

  predicate Loads(info: Info) {
    info.d == REG_FULL && (info.s == RM_FULL || info.s == MEM) && info.flags == {ModrmRequired}
  }

  predicate TakesConstant(info: Info) {
    info.d == RM_FULL && info.s == IMM_FULL && info.flags == {ModrmRequired, ModrmIncluded}
  }

  lemma {:induction false} ShapeIsPlain(info: Info)
    requires PushesRegister(info) || Jumps(info) || Stores(info) || Loads(info) || TakesConstant(info)
    ensures (IsPlain(info) == true) && info.d != NONE
    ensures Stores(info) || Loads(info) ==> Extra(info) == 1
    ensures PushesRegister(info) || Jumps(info) || TakesConstant(info) ==> Extra(info) == 0
  {
  }

  /** The pieces of one operand, and of two. */
  lemma {:induction false} OnePiece(info: Info, c: Context, a: seq<Byte>)
    requires info.d != NONE && info.s == NONE && Piece(info.d, c, true, a) == true
    ensures (Pieces(Listed(info), c, true, [a]) == true) && Joined([a]) == a
  {
  }

  lemma {:induction false} TwoPieces(info: Info, c: Context, a: seq<Byte>, b: seq<Byte>)
    requires info.d != NONE && info.s != NONE && UseOp3 !in info.flags
    requires Piece(info.d, c, true, a) == Piece(info.s, c, false, b) == true
    ensures (Pieces(Listed(info), c, true, [a, b]) == true) && Joined([a, b]) == a + b
  {
    assert Joined([b]) == b && [a, b][1..] == [b];
  }

  lemma {:induction false} RegisterPiece(c: Context, first: bool)
    ensures Piece(REG_FULL, c, first, []) == Piece(IB_R_FULL, c, first, []) == true
    ensures c.modrm >= 0xc0 ==> Piece(RM_FULL, c, first, []) == true
  {
  }

  lemma {:induction false} MemoryPieceOf(c: Context, first: bool, tail: seq<Byte>)
    requires InMemory(c, tail) && c.modrm < 0xc0
    ensures Piece(RM_FULL, c, first, tail) == Piece(MEM, c, first, tail) == true
  {
  }

  lemma {:induction false} ConstantPiece(c: Context, first: bool, tail: seq<Byte>)
    requires c.opSize == Bits32 && |tail| == 4
    ensures Piece(IMM_FULL, c, first, tail) == Piece(RELC_FULL, c, first, tail) == true
  {
  }

  lemma {:induction false} PushLine(step: Step, t: Tables, b: Byte, info: Info)
    requires TakesPlain(step, t)
    requires (StandsPlain(t, First(b), info) == true) && PushesRegister(info) && 0x50 <= b < 0x58
    ensures Takes(step, Line([b], info))
  {
    ShapeIsPlain(info);
    RegisterPiece(Context32(info, b), true);
    OnePiece(info, Context32(info, b), []);
    NotAPrefix(b);
    ByteOpcode(b, [[]], []);
    ByteLineOf(step, t, b, info, [[]], [b]);
  }

  lemma {:induction false} CallLine(step: Step, t: Tables, b: Byte, info: Info, target: seq<Byte>, bytes: seq<Byte>)
    requires TakesPlain(step, t)
    requires (StandsPlain(t, First(b), info) == true) && Jumps(info) && 0xe8 <= b < 0xea
    requires |target| == 4 && bytes == [b] + target
    ensures Takes(step, Line(bytes, info))
  {
    ShapeIsPlain(info);
    ConstantPiece(Context32(info, b), true, target);
    OnePiece(info, Context32(info, b), target);
    NotAPrefix(b);
    ByteOpcode(b, [target], target);
    ByteLineOf(step, t, b, info, [target], bytes);
  }

  /** Between two registers. */
  lemma {:induction false} MoveLine(step: Step, t: Tables, b: Byte, info: Info, modrm: Byte)
    requires TakesPlain(step, t)
    requires (StandsPlain(t, First(b), info) == true) && Stores(info) && 0x80 <= b < 0xc0 && modrm >= 0xc0
    ensures Takes(step, Line([b, modrm], info))
  {
    ShapeIsPlain(info);
    RegisterPiece(Context32(info, modrm), true);
    RegisterPiece(Context32(info, modrm), false);
    TwoPieces(info, Context32(info, modrm), [], []);
    ModrmOpcode(b, modrm, [[], []], []);
    ModrmLineOf(step, t, b, info, modrm, [[], []], [b, modrm]);
  }

  lemma {:induction false} FormIsMemory(f: Form, reg: nat, info: Info)
    requires f.Legal(Bits32) && reg < 8 && ModrmRequired in info.flags
    ensures f.ModField() < 3 && f.RmField() < 8 && Modrm(f.ModField(), reg, f.RmField()) < 0xc0
    ensures InMemory(Context32(info, Modrm(f.ModField(), reg, f.RmField())), f.Tail())
  {
  }

  /** A register stored to memory. */
  lemma {:induction false} StoreOf(step: Step, t: Tables, b: Byte, info: Info, modrm: Byte, tail: seq<Byte>,
                                   bytes: seq<Byte>)
    requires TakesPlain(step, t)
    requires (StandsPlain(t, First(b), info) == true) && Stores(info) && 0x80 <= b < 0xc0
    requires modrm < 0xc0 && InMemory(Context32(info, modrm), tail) && bytes == [b, modrm] + tail && |bytes| <= 15
    ensures Takes(step, Line(bytes, info))
  {
    ShapeIsPlain(info);
    var c := Context32(info, modrm);
    MemoryPieceOf(c, true, tail);
    RegisterPiece(c, false);
    TwoPieces(info, c, tail, []);
    ModrmOpcode(b, modrm, [tail, []], tail);
    ModrmLineOf(step, t, b, info, modrm, [tail, []], bytes);
  }

  /** A register loaded from memory, or with its address. */
  lemma {:induction false} LoadOf(step: Step, t: Tables, b: Byte, info: Info, modrm: Byte, tail: seq<Byte>,
                                  bytes: seq<Byte>)
    requires TakesPlain(step, t)
    requires (StandsPlain(t, First(b), info) == true) && Loads(info) && 0x80 <= b < 0xc0
    requires modrm < 0xc0 && InMemory(Context32(info, modrm), tail) && bytes == [b, modrm] + tail && |bytes| <= 15
    ensures Takes(step, Line(bytes, info))
  {
    ShapeIsPlain(info);
    var c := Context32(info, modrm);
    RegisterPiece(c, true);
    MemoryPieceOf(c, false, tail);
    TwoPieces(info, c, [], tail);
    ModrmOpcode(b, modrm, [[], tail], tail);
    ModrmLineOf(step, t, b, info, modrm, [[], tail], bytes);
  }

  /** A register stored to memory, loaded from it, or loaded with its address. */
  lemma {:induction false} MemoryLine(step: Step, t: Tables, b: Byte, info: Info, reg: nat, f: Form, bytes: seq<Byte>)
    requires TakesPlain(step, t)
    requires (StandsPlain(t, First(b), info) == true) && (Stores(info) || Loads(info)) && 0x80 <= b < 0xc0
    requires f.Legal(Bits32) && reg < 8 && f.ModField() < 3 && f.RmField() < 8
    requires bytes == [b, Modrm(f.ModField(), reg, f.RmField())] + f.Tail()
    ensures Takes(step, Line(bytes, info))
  {
    FormIsMemory(f, reg, info);
    var modrm, tail := Modrm(f.ModField(), reg, f.RmField()), f.Tail();
    assert |bytes| == 2 + |tail| <= 7;
    if Stores(info) {
      StoreOf(step, t, b, info, modrm, tail, bytes);
    } else {
      LoadOf(step, t, b, info, modrm, tail, bytes);
    }
  }

  /** A constant and a register. */
  lemma {:induction false} ConstantLine(step: Step, t: Tables, b: Byte, info: Info, modrm: Byte, imm: seq<Byte>,
                                        bytes: seq<Byte>)
    requires TakesPlain(step, t)
    requires (StandsPlain(t, FirstReg(b, modrm), info) == true) && TakesConstant(info) && modrm >= 0xc0
    requires b == 0x81 && |imm| == 4 && bytes == [b, modrm] + imm
    ensures Takes(step, Line(bytes, info))
  {
    ShapeIsPlain(info);
    var c := Context32(info, modrm);
    RegisterPiece(c, true);
    ConstantPiece(c, false, imm);
    TwoPieces(info, c, [], imm);
    RegOpcode(b, modrm, [[], imm], imm);
    RegLineOf(step, t, b, info, modrm, [[], imm], bytes);
  }

  /** A constant stored to memory. */
  lemma {:induction false} StoreLine(step: Step, t: Tables, b: Byte, info: Info, modrm: Byte, tail: seq<Byte>,
                                     imm: seq<Byte>, bytes: seq<Byte>)
    requires TakesPlain(step, t)
    requires (StandsPlain(t, FirstReg(b, modrm), info) == true) && TakesConstant(info) && modrm < 0xc0
    requires b == 0xc7 && |imm| == 4 && bytes == [b, modrm] + (tail + imm) && |bytes| <= 15
    requires InMemory(Context32(info, modrm), tail)
    ensures Takes(step, Line(bytes, info))
  {
    ShapeIsPlain(info);
    var c := Context32(info, modrm);
    MemoryPieceOf(c, true, tail);
    ConstantPiece(c, false, imm);
    TwoPieces(info, c, tail, imm);
    RegOpcode(b, modrm, [tail, imm], tail + imm);
    RegLineOf(step, t, b, info, modrm, [tail, imm], bytes);
  }

  // ---- The instructions ---------------------------------------------------------------------------

  const PUSH: Info := Info(2, IB_R_FULL, NONE, NONE, NONE, 0, {Bits64Operands})
  const SUB: Info := Info(9, RM_FULL, IMM_FULL, NONE, NONE, 0, {ModrmRequired, ModrmIncluded})
  const STORE: Info := Info(42, RM_FULL, REG_FULL, NONE, NONE, 0, {ModrmRequired})
  const LOAD: Info := Info(42, REG_FULL, RM_FULL, NONE, NONE, 0, {ModrmRequired})
  const STORE_IMM: Info := Info(42, RM_FULL, IMM_FULL, NONE, NONE, 0, {ModrmRequired, ModrmIncluded})
  const LEA: Info := Info(43, REG_FULL, MEM, NONE, NONE, 0, {ModrmRequired})
  const CALL: Info := Info(82, RELC_FULL, NONE, NONE, NONE, 1, {Bits64Operands})

  /** What the generated tables have at their opcodes. */
  predicate HasThem(t: Tables)
    requires t.WellFormed()
  {
    && t.root.kids[0x55] == Leaf(PUSH) && t.root.kids[0xe8] == Leaf(CALL)
    && t.root.kids[0x89] == Leaf(STORE) && t.root.kids[0x8b] == Leaf(LOAD) && t.root.kids[0x8d] == Leaf(LEA)
    && t.root.kids[0x81].Group? && |t.root.kids[0x81].kids| == 8 && t.root.kids[0x81].kids[5] == Leaf(SUB)
    && t.root.kids[0xc7].Group? && |t.root.kids[0xc7].kids| == 8 && t.root.kids[0xc7].kids[0] == Leaf(STORE_IMM)
  }

  lemma {:induction false} StandsFirst(t: Tables, b: Byte, info: Info)
    requires t.WellFormed() && t.root.kids[b] == Leaf(info) && b !in [0x63, 0x90, 0x9b]
    ensures StandsPlain(t, First(b), info)
  {
    assert NOTHING.(decoded := {} - {Cs, Ss, Ds, Es, Fs, Gs}) == NOTHING;
  }

  lemma {:induction false} StandsReg(t: Tables, b: Byte, modrm: Byte, info: Info)
    requires t.WellFormed() && b != 0x9b
    requires t.root.kids[b].Group? && |t.root.kids[b].kids| == 8 && t.root.kids[b].kids[RegField(modrm)] == Leaf(info)
    ensures StandsPlain(t, FirstReg(b, modrm), info)
  {
  }

  // ---- The listing --------------------------------------------------------------------------------

  /** The first fifteen instructions of the operation. */
  function LineAt(i: nat): Line {
    match i
    case 0 => Line([0x55], PUSH)
    case 1 => Line([0x89, 0xe5], STORE)
    case 2 => Line([0x81, 0xec, 0xd8, 0, 0, 0], SUB)
    case 3 => Line([0x89, 0x5d, 0xf4], STORE)
    case 4 => Line([0x89, 0x75, 0xf8], STORE)
    case 5 => Line([0x89, 0x7d, 0xfc], STORE)
    case 6 => Line([0x8b, 0x5d, 0x10], LOAD)
    case 7 => Line([0x8b, 0x75, 0x14], LOAD)
    case 8 => Line([0x8b, 0x45, 0x18], LOAD)
    case 9 => Line([0x89, 0x04, 0x24], STORE)
    case 10 => Line([0xe8, 0x81, 0x1d, 0xea, 0xff], CALL)
    case 11 => Line([0x89, 0x85, 0x74, 0xff, 0xff, 0xff], STORE)
    case 12 => Line([0xc7, 0x44, 0x24, 0x0c, 0x28, 0, 0, 0], STORE_IMM)
    case 13 => Line([0x8d, 0x7d, 0x94], LEA)
    case _ => Line([0x89, 0x7c, 0x24, 0x08], STORE)
  }

  /** The addresses noted beside them. */
  function AddressAt(i: nat): nat {
    match i
    case 0 => 0x488e8b
    case 1 => 0x488e8c
    case 2 => 0x488e8e
    case 3 => 0x488e94
    case 4 => 0x488e97
    case 5 => 0x488e9a
    case 6 => 0x488e9d
    case 7 => 0x488ea0
    case 8 => 0x488ea3
    case 9 => 0x488ea6
    case 10 => 0x488ea9
    case 11 => 0x488eae
    case 12 => 0x488eb4
    case 13 => 0x488ebc
    case _ => 0x488ebf
  }

  function Listing(): (lines: seq<Line>)
    ensures |lines| == 15 && forall i | 0 <= i < 15 :: lines[i] == LineAt(i)
  {
    seq(15, i requires 0 <= i < 15 => LineAt(i))
  }

  function Addresses(): (addresses: seq<nat>)
    ensures |addresses| == 15 && forall i | 0 <= i < 15 :: addresses[i] == AddressAt(i)
  {
    seq(15, i requires 0 <= i < 15 => AddressAt(i))
  }

  /** What the listing needs of the tables. */
  ghost predicate AllStand(t: Tables) {
    && StandsPlain(t, First(0x55), PUSH) && StandsPlain(t, First(0xe8), CALL)
    && StandsPlain(t, First(0x89), STORE) && StandsPlain(t, First(0x8b), LOAD) && StandsPlain(t, First(0x8d), LEA)
    && StandsPlain(t, FirstReg(0x81, 0xec), SUB) && StandsPlain(t, FirstReg(0xc7, 0x44), STORE_IMM)
  }

  /** Where the instructions stand in the tables. */
  lemma {:induction false} TheyStand(t: Tables)
    requires t.WellFormed() && HasThem(t)
    ensures AllStand(t) == true
  {
    StandsFirst(t, 0x55, PUSH);
    StandsFirst(t, 0xe8, CALL);
    StandsFirst(t, 0x89, STORE);
    StandsFirst(t, 0x8b, LOAD);
    StandsFirst(t, 0x8d, LEA);
    StandsReg(t, 0x81, 0xec, SUB);
    StandsReg(t, 0xc7, 0x44, STORE_IMM);
  }

  /** A register stored below or above EBP, loaded from there, or loaded with that address. */
  lemma {:induction false} EbpLine(step: Step, t: Tables, b: Byte, info: Info, reg: nat, disp: seq<Byte>,
                                   bytes: seq<Byte>)
    requires TakesPlain(step, t)
    requires (StandsPlain(t, First(b), info) == true) && 0x80 <= b < 0xc0 && (Stores(info) || Loads(info))
    requires reg < 8 && (|disp| == 1 || |disp| == 4)
    requires bytes == [b, (if |disp| == 1 then 0x45 else 0x85) + reg * 8] + disp
    ensures Takes(step, Line(bytes, info))
  {
    MemoryLine(step, t, b, info, reg, Based(5, disp), bytes);
  }

  lemma {:induction false} ShortEbpLine(step: Step, t: Tables, i: nat)
    requires TakesPlain(step, t)
    requires StandsPlain(t, First(0x89), STORE) == StandsPlain(t, First(0x8b), LOAD)
             == StandsPlain(t, First(0x8d), LEA) == true
    requires 3 <= i <= 8 || i == 13
    ensures Takes(step, LineAt(i))
  {
    var b, modrm, disp := LineAt(i).bytes[0], LineAt(i).bytes[1], LineAt(i).bytes[2];
    var reg := match i case 3 => 3 case 4 => 6 case 5 => 7 case 6 => 3 case 7 => 6 case 8 => 0 case _ => 7;
    EbpLine(step, t, b, LineAt(i).info, reg, [disp], LineAt(i).bytes);
  }

  lemma {:induction false} LongEbpLine(step: Step, t: Tables)
    requires TakesPlain(step, t)
    requires StandsPlain(t, First(0x89), STORE) == true
    ensures Takes(step, LineAt(11))
  {
    EbpLine(step, t, 0x89, STORE, 0, [0x74, 0xff, 0xff, 0xff], LineAt(11).bytes);
  }

  /** EAX stored at ESP, and EDI above it. */
  lemma {:induction false} EspLine(step: Step, t: Tables, i: nat)
    requires TakesPlain(step, t)
    requires (StandsPlain(t, First(0x89), STORE) == true) && (i == 9 || i == 14)
    ensures Takes(step, LineAt(i))
  {
    MemoryLine(step, t, 0x89, STORE, if i == 9 then 0 else 7, Indexed(0, 4, 4, LineAt(i).bytes[3..]), LineAt(i).bytes);
  }

  lemma {:induction false} StoreAboveEsp(step: Step, t: Tables)
    requires TakesPlain(step, t)
    requires StandsPlain(t, FirstReg(0xc7, 0x44), STORE_IMM) == true
    ensures Takes(step, LineAt(12))
  {
    var f := Indexed(0, 4, 4, [0x0c]);
    FormIsMemory(f, 0, STORE_IMM);
    StoreLine(step, t, 0xc7, STORE_IMM, 0x44, f.Tail(), [0x28, 0, 0, 0], LineAt(12).bytes);
  }

  lemma {:induction false} SubFromEsp(step: Step, t: Tables)
    requires TakesPlain(step, t)
    requires StandsPlain(t, FirstReg(0x81, 0xec), SUB) == true
    ensures Takes(step, LineAt(2))
  {
    ConstantLine(step, t, 0x81, SUB, 0xec, LineAt(2).bytes[2..], LineAt(2).bytes);
  }

  lemma {:induction false} CallOut(step: Step, t: Tables)
    requires TakesPlain(step, t)
    requires StandsPlain(t, First(0xe8), CALL) == true
    ensures Takes(step, LineAt(10))
  {
    CallLine(step, t, 0xe8, CALL, LineAt(10).bytes[1..], LineAt(10).bytes);
  }

  lemma {:induction false} PushAndMove(step: Step, t: Tables, i: nat)
    requires TakesPlain(step, t)
    requires (StandsPlain(t, First(0x55), PUSH) == StandsPlain(t, First(0x89), STORE) == true) && i < 2
    ensures Takes(step, LineAt(i))
  {
    if i == 0 {
      PushLine(step, t, 0x55, PUSH);
    } else {
      MoveLine(step, t, 0x89, STORE, 0xe5);
    }
  }

  lemma {:induction false} EveryLine(step: Step, t: Tables, i: nat)
    requires TakesPlain(step, t)
    requires (AllStand(t) == true) && i < 15
    ensures Takes(step, LineAt(i))
  {
    if 3 <= i <= 8 || i == 13 {
      ShortEbpLine(step, t, i);
    } else if i == 9 || i == 14 {
      EspLine(step, t, i);
    } else if i == 11 {
      LongEbpLine(step, t);
    } else if i == 12 {
      StoreAboveEsp(step, t);
    } else if i == 2 {
      SubFromEsp(step, t);
    } else if i == 10 {
      CallOut(step, t);
    } else {
      PushAndMove(step, t, i);
    }
  }

  lemma {:induction false} ListingIsTaken(t: Tables)
    requires t.WellFormed() && HasThem(t)
    ensures TakesAll(Steps(t, Bits32), Listing())
  {
    TheyStand(t);
    DecoderTakesPlain(t);
    forall i | 0 <= i < 15
      ensures Takes(Steps(t, Bits32), Listing()[i])
    {
      EveryLine(Steps(t, Bits32), t, i);
    }
  }

  lemma {:induction false} AddressesFit(j: nat)
    requires j < 14
    ensures AddressAt(j + 1) == AddressAt(j) + |LineAt(j).bytes|
  {
  }

  lemma {:induction false} EntriesAreNoted(code: Code, mask: Mask, i: nat)
    requires code.offset == 0x488e8b && i < 15
    ensures EntriesOf(Listing(), code, mask, 0)[i]
            == DInst(mask(AddressAt(i)), |LineAt(i).bytes|, Known(LineAt(i).info))
  {
    var lines, addresses := Listing(), Addresses();
    forall j | 0 <= j < |lines| - 1
      ensures addresses[j + 1] == addresses[j] + |lines[j].bytes|
    {
      AddressesFit(j);
    }
    EntryAt(lines, code, mask, 0, i);
    AddressesAre(lines, addresses, i);
  }

  lemma {:induction false} AddressesAreSmall(i: nat)
    ensures AddressAt(i) < 0x1_0000_0000
    ensures Distorm.ConfigFor(NO_FEATURES).mask(AddressAt(i)) == AddressAt(i)
  {
  }

  /**
   With any bytes behind it, the start of the operation is decoded as the fifteen instructions noted, each at its
   address, and is recognised as a function.
   */
  lemma {:induction false} OperationIsRecognised(t: Tables, bytes: seq<Byte>)
    requires t.WellFormed() && HasThem(t) && |bytes| == LENGTH && BytesOf(Listing()) <= bytes
    ensures Fits(Steps(t, Bits32))
    ensures var used := UsedFor(t, Bits32, bytes, 0x488e8b);
            && StartsFunction(used)
            && forall i | 0 <= i < 15 :: used[i] == DInst(AddressAt(i), |LineAt(i).bytes|, Known(LineAt(i).info))
  {
    StepsFit(t, Bits32);
    ListingIsTaken(t);
    ListingIsRecognised(t, Bits32, Listing(), bytes, 0x488e8b);
    var code, mask := Code(bytes, 0x488e8b), Distorm.ConfigFor(NO_FEATURES).mask;
    forall i | 0 <= i < 15
      ensures EntriesOf(Listing(), code, mask, 0)[i]
              == DInst(AddressAt(i), |LineAt(i).bytes|, Known(LineAt(i).info))
    {
      EntriesAreNoted(code, mask, i);
      AddressesAreSmall(i);
    }
  }
}
