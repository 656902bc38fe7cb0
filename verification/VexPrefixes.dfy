/**
 Which prefixes in front of VEX make an instruction illegal.  The comment at inst_vex_lookup names 66, f0, f2, f3 and
 REX; the decoder refuses the first four, but has dropped REX before it looks.
 */
module VexPrefixes {
  import opened Wrappers
  import opened X86
  import opened PrefixScan
  import opened OpcodeTrie
  import opened DecodeLoop
  import opened DecodeRun
  import opened OperandBytes
  import D = DecodeInst

  /** A prefix of kind `p` among the bytes in front of VEX. */
  ghost predicate Precedes(s: seq<Byte>, mode: Mode, p: Prefix) {
    exists i :: 0 <= i < Leading(s, mode, 0) && PrefixOf(s[i], mode) == Some(p)
  }

  /** What the trie walk is given of the prefixes in front of VEX. */
  lemma {:induction false} KindsBeforeVex(s: seq<Byte>, mode: Mode, p: Prefix)
    requires Vex in PrefixesOf(s, mode).decoded && p != Vex
    ensures p in PrefixesOf(s, mode).decoded <==> Precedes(s, mode, p)
  {
    KindsAre(s, mode, Leading(s, mode, 0), p);
  }

  /** REX in front of VEX is never right before the opcode. */
  lemma {:induction false} RexIsDropped(s: seq<Byte>, mode: Mode)
    requires Vex in PrefixesOf(s, mode).decoded
    ensures Rex !in Adjusted(PrefixesOf(s, mode), mode).decoded
  {
    var k := Leading(s, mode, 0);
    KindsBeforeVex(s, mode, Rex);
    if mode != Bits64 {
      assert forall i | 0 <= i < k :: PrefixOf(s[i], mode) != Some(Rex);
    }
  }

  ghost predicate Refusable(s: seq<Byte>, mode: Mode) {
    Precedes(s, mode, OpSize) || Precedes(s, mode, Lock) || Precedes(s, mode, Rep) || Precedes(s, mode, Repnz)
  }

  /** The other prefixes that make VEX illegal are still there when the decoder looks. */
  lemma {:induction false} OthersStay(s: seq<Byte>, mode: Mode, p: Prefix)
    requires Vex in PrefixesOf(s, mode).decoded && p in NOT_WITH_VEX && p != Rex
    ensures p in Adjusted(PrefixesOf(s, mode), mode).decoded <==> Precedes(s, mode, p)
  {
    KindsBeforeVex(s, mode, p);
  }

  /** A VEX instruction is refused for its prefixes exactly when 66, f0, f2 or f3 precedes; REX makes no difference. */
  lemma {:induction false} RefusedPrefixes(s: seq<Byte>, mode: Mode)
    requires Vex in PrefixesOf(s, mode).decoded
    ensures Adjusted(PrefixesOf(s, mode), mode).decoded * NOT_WITH_VEX != {} <==> Refusable(s, mode)
  {
    RexIsDropped(s, mode);
    OthersStay(s, mode, OpSize);
    OthersStay(s, mode, Lock);
    OthersStay(s, mode, Rep);
    OthersStay(s, mode, Repnz);
    Meets(Adjusted(PrefixesOf(s, mode), mode).decoded);
  }

  function InfoOf(found: Lookup): Option<Info> { if found.Found? then Some(found.info) else None }

  /**
   With the REX goes the record of what kind of VEX there is, so behind REX a VEX of two bytes is looked up as one of
   three, its second byte taken for the map and the opcode for the last byte of the prefix.
   */
  lemma {:induction false} RexHidesShortVex(t: Tables, s: seq<Byte>)
    requires var ps := PrefixesOf(s, Bits64);
             t.WellFormed() && Vex in ps.decoded && Precedes(s, Bits64, Rex) && ps.ext == Vex2 && ps.last < |s|
    ensures var ps := PrefixesOf(s, Bits64);
            var now := Adjusted(ps, Bits64);
            && now.ext == NoExt && ps.vexPos + 1 == ps.last
            && InfoOf(VexFound(t, s, ps.last, now)) == InfoOf(VexFound(t, s, ps.last, now.(ext := Vex3)))
  {
    KindsBeforeVex(s, Bits64, Rex);
  }

  // ---- An input on which it matters -------------------------------------------------------------

  /** The additions behind 0f 58: without a prefix, with 66, f3 and f2, and the same four with VEX. */
  const ADDPS: Info := Info(557, XMM, XMM128, NONE, NONE, FC_NONE, {ModrmRequired})
  const ADDPD: Info := Info(558, XMM, XMM128, NONE, NONE, FC_NONE, {ModrmRequired})
  const ADDSS: Info := Info(559, XMM, XMM32, NONE, NONE, FC_NONE, {ModrmRequired})
  const ADDSD: Info := Info(560, XMM, XMM64, NONE, NONE, FC_NONE, {ModrmRequired})
  const VADDPS: Info := Info(561, YXMM, VYXMM, YXMM128_256, NONE, FC_NONE, {ModrmRequired, UseOp3})
  const VADDPD: Info := Info(562, YXMM, VYXMM, YXMM128_256, NONE, FC_NONE, {ModrmRequired, UseOp3})
  const VADDSS: Info := Info(563, XMM, VXMM, XMM32, NONE, FC_NONE, {ModrmRequired, UseOp3})
  const VADDSD: Info := Info(564, XMM, VXMM, XMM64, NONE, FC_NONE, {ModrmRequired, UseOp3})

  /** What the generated tables have behind 0f 58. */
  const ADDITIONS: Node :=
    Prefixed([Leaf(ADDPS), Leaf(ADDPD), Leaf(ADDSS), Leaf(ADDSD),
              Leaf(VADDPS), Leaf(VADDPD), Leaf(VADDSS), Leaf(VADDSD), Nothing, Nothing, Nothing, Nothing])

  /** A vector addition of doubles, and the same behind a REX. */
  const VEX_ADD: seq<Byte> := [0xc5, 0xe1, 0x58, 0xc0]
  const REX_VEX_ADD: seq<Byte> := [0x40, 0xc5, 0xe1, 0x58, 0xc0]

  lemma {:induction false} VexAddPrefixes()
    ensures PrefixesOf(VEX_ADD, Bits64) == Prefixes({Vex}, {}, Vex2, 0, 1, 2, false)
  {
    var s := VEX_ADD;
    assert PrefixOf(s[0], Bits64).None?;
    assert Leading(s, Bits64, 0) == 0;
    assert Scanned(s, Bits64, 0) == NO_PREFIXES;
    assert VexAt(s, Bits64, 0, 0xc5, 2);
  }

  lemma {:induction false} RexVexAddPrefixes()
    ensures Precedes(REX_VEX_ADD, Bits64, Rex)
    ensures PrefixesOf(REX_VEX_ADD, Bits64) == Prefixes({Rex, Vex}, {}, Vex2, 0, 2, 3, false)
  {
    var s := REX_VEX_ADD;
    assert PrefixOf(s[0], Bits64) == Some(Rex) && PrefixOf(s[1], Bits64).None?;
    assert Leading(s, Bits64, 1) == 1 && Leading(s, Bits64, 0) == 1;
    assert Kinds(s, Bits64, 1) == {Rex};
    assert Scanned(s, Bits64, 1) == Prefixes({Rex}, {}, RexExt, 0, 0, 1, false);
    assert VexAt(s, Bits64, 1, 0xc5, 2);
  }

  /** An addition of two vector registers into a third. */
  predicate AddsVectors(info: Info) {
    && info.d == YXMM && info.s == VYXMM && info.op3 == YXMM128_256 && info.flags == {ModrmRequired, UseOp3}
  }

  /** A register takes no byte behind the ModR/M byte. */
  lemma {:induction false} RegisterEnds(t: Operand, c: Context, s: seq<Byte>, p: nat, first: bool)
    requires Kind(t) == Implied || (Kind(t) == RegisterOrMemory && Mod(c.modrm) == 3)
    ensures Operand1(t, c, s, p, first) == Some(p)
  {
  }

  lemma {:induction false} AdditionOperands(info: Info, c: Context, s: seq<Byte>, p: nat)
    requires AddsVectors(info) && c.modrm == 0xc0 && p <= |s|
    ensures Operands(info, c, s, p) == Some(p)
  {
    assert Mod(c.modrm) == 3;
    RegisterEnds(info.d, c, s, p, true);
    RegisterEnds(info.s, c, s, p, false);
    RegisterEnds(info.op3, c, s, p, false);
  }

  lemma {:induction false} AdditionBehind(t: Tables, info: Info, s: seq<Byte>, ps: Prefixes, m: nat)
    requires t.WellFormed() && AddsVectors(info) && m + 1 == |s| <= INST_MAXIMUM_SIZE && s[m] == 0xc0
    ensures D.Behind(t, info, m, ps, s, Bits64) == D.Instruction(info, m + 1)
  {
    AdditionOperands(info, D.ContextOf(info, s[m], ps, Bits64), s, m + 1);
    assert D.Suffix(t, info, s, m + 1) == D.Instruction(info, m + 1);
  }

  lemma {:induction false} AdditionEnds(t: Tables, info: Info, s: seq<Byte>, ps: Prefixes, p: nat)
    requires t.WellFormed() && AddsVectors(info) && p + 2 == |s| <= INST_MAXIMUM_SIZE && s[p + 1] == 0xc0
    ensures D.Rest(t, info, p, ps, s, Bits64) == D.Instruction(info, p + 2)
  {
    AdditionBehind(t, info, s, ps, p + 1);
  }

  /** A chunk that is one instruction, from the steps of decoding it. */
  lemma {:induction false} ChunkIs(t: Tables, s: seq<Byte>, ps: Prefixes, p: nat, info: Info)
    requires t.WellFormed() && Adjusted(PrefixesOf(s, Bits64), Bits64) == ps && PrefixesOf(s, Bits64).last == p
    requires p < |s| < INST_MAXIMUM_SIZE && (Vex in ps.decoded ==> ps.vexPos + 1 < |s|)
    requires Opcode(t, s, p, ps, Bits64) == Found(info, p, ps)
    requires D.Rest(t, info, p, D.WithoutOpSize(ps), s, Bits64) == D.Instruction(info, |s|)
    ensures ChunkOf(t, s, Bits64) == One(Known(info), |s|)
  {
    assert D.InstructionAt(t, s, p, ps, Bits64) == D.Instruction(info, |s|);
  }

  lemma {:induction false} VexAddOpcode(t: Tables, ps: Prefixes)
    requires t.WellFormed() && t.table0F.kids[0x58] == ADDITIONS && ps == Prefixes({Vex}, {}, Vex2, 0, 1, 2, false)
    ensures Opcode(t, VEX_ADD, 2, ps, Bits64) == Found(VADDPD, 2, ps)
  {
    Meets(ps.decoded);
    assert VexIndex(VEX_ADD, ps) == 5;
  }

  /** On its own the vector addition is what it should be. */
  lemma {:induction false} VexAddIsDecoded(t: Tables)
    requires t.WellFormed() && t.table0F.kids[0x58] == ADDITIONS
    ensures ChunkOf(t, VEX_ADD, Bits64) == One(Known(VADDPD), 4)
  {
    VexAddPrefixes();
    var ps := Prefixes({Vex}, {}, Vex2, 0, 1, 2, false);
    assert Adjusted(PrefixesOf(VEX_ADD, Bits64), Bits64) == ps;
    VexAddOpcode(t, ps);
    AdditionEnds(t, VADDPD, VEX_ADD, D.WithoutOpSize(ps), 2);
    ChunkIs(t, VEX_ADD, ps, 2, VADDPD);
  }

  lemma {:induction false} RexVexAddOpcode(t: Tables, ps: Prefixes)
    requires t.WellFormed() && t.table0F.kids[0x58] == ADDITIONS && ps == Prefixes({Vex}, {}, NoExt, 0, 2, 3, false)
    ensures Opcode(t, REX_VEX_ADD, 3, ps, Bits64) == Found(VADDPS, 3, ps)
  {
    Meets(ps.decoded);
    assert VexIndex(REX_VEX_ADD, ps) == 4;
  }

  lemma {:induction false} RexVexAddIsDecoded(t: Tables)
    requires t.WellFormed() && t.table0F.kids[0x58] == ADDITIONS
    ensures ChunkOf(t, REX_VEX_ADD, Bits64) == One(Known(VADDPS), 5)
  {
    RexVexAddPrefixes();
    var ps := Prefixes({Vex}, {}, NoExt, 0, 2, 3, false);
    assert Adjusted(PrefixesOf(REX_VEX_ADD, Bits64), Bits64) == ps;
    RexVexAddOpcode(t, ps);
    AdditionEnds(t, VADDPS, REX_VEX_ADD, D.WithoutOpSize(ps), 3);
    ChunkIs(t, REX_VEX_ADD, ps, 3, VADDPS);
  }

  /**
   Behind a REX, which makes it illegal, it is decoded all the same, and as another instruction: the addition of
   singles.  Had the REX been kept, the lookup would have refused it.
   */
  lemma {:induction false} RexBeforeVexIsDecoded(t: Tables)
    requires t.WellFormed() && t.table0F.kids[0x58] == ADDITIONS
    ensures Precedes(REX_VEX_ADD, Bits64, Rex)
    ensures ChunkOf(t, REX_VEX_ADD, Bits64) == One(Known(VADDPS), 5)
    ensures ChunkOf(t, REX_VEX_ADD[1..], Bits64) == One(Known(VADDPD), 4)
    ensures Opcode(t, REX_VEX_ADD, 3, PrefixesOf(REX_VEX_ADD, Bits64), Bits64).NotFound?
  {
    RexVexAddPrefixes();
    Meets(PrefixesOf(REX_VEX_ADD, Bits64).decoded);
    RexVexAddIsDecoded(t);
    assert REX_VEX_ADD[1..] == VEX_ADD;
    VexAddIsDecoded(t);
  }
}
