/** What prefixes do to an instruction, byte by byte: which one of a prefixed list they select, and which sizes. */
module PrefixEffects {
  import opened Wrappers
  import opened X86
  import opened PrefixScan
  import opened PrefixBytes
  import opened OpcodeTrie
  import opened OpcodePaths
  import opened OperandBytes
  import opened OperandPieces
  import opened DecodeRun
  import opened DecodeLoop
  import opened Assembly
  import opened Listings
  import opened VexPrefixes
  import D = DecodeInst

  // ---- Mandatory prefixes -------------------------------------------------------------------------

  /** The instruction that a stream is looked up as. */
  function LookedUp(t: Tables, s: seq<Byte>, mode: Mode): Option<Info>
    requires t.WellFormed()
  {
    var ps := PrefixesOf(s, mode);
    if ps.last >= |s| then None
    else InfoOf(Opcode(t, s, ps.last, Adjusted(ps, mode), mode))
  }

  /** An instruction of a prefixed list, one that it must have. */
  function Chosen(n: Node): Option<Info> { if n.Leaf? then Some(n.info) else None }

  /** One of a prefixed list, or else the first. */
  function ChosenOr(n: Node, fallback: Node): Option<Info> { if n.Leaf? then Some(n.info) else Chosen(fallback) }

  /** One of a prefixed list that takes an operand size. */
  function ChosenSized(n: Node): Option<Info> { if n.Leaf? && TakesOpSize in n.info.flags then Some(n.info) else None }

  /** The list at the second byte behind 0f. */
  predicate IsListed(t: Tables, b: Byte, kids: seq<Node>) {
    && t.WellFormed() && b != 0x0f && t.root.kids[0x0f].Full? && |t.root.kids[0x0f].kids| == 256
    && t.root.kids[0x0f].kids[b] == Prefixed(kids) && |kids| == 12
  }

  lemma {:induction false} OpcodeSelects(t: Tables, b: Byte, kids: seq<Node>, s: seq<Byte>, p: nat, ps: Prefixes,
                                         mode: Mode)
    requires IsListed(t, b, kids) && p + 1 < |s| && s[p] == 0x0f && s[p + 1] == b && Vex !in ps.decoded
    ensures IsPrefixed(Prefixed(kids)) && Opcode(t, s, p, ps, mode) == Select(Prefixed(kids), p + 1, ps)
  {
    assert IsFirst(t.root.kids[0x0f]);
    assert IsSecond(t.root.kids[0x0f].kids[b]);
  }

  lemma {:induction false} ListedSelects(t: Tables, b: Byte, kids: seq<Node>, pre: seq<Written>, rest: seq<Byte>,
                                         mode: Mode, s: seq<Byte>)
    requires IsListed(t, b, kids) && AllLegal(pre, mode) && |pre| < INST_MAXIMUM_SIZE
    requires s == Spelled(pre) + ([0x0f, b] + rest)
    ensures IsPrefixed(Prefixed(kids))
    ensures LookedUp(t, s, mode) == InfoOf(Select(Prefixed(kids), |pre| + 1, Left(pre, None, mode)))
  {
    var body := [0x0f, b] + rest;
    SpelledIsRead(pre, body, mode);
    LeftIsAdjusted(pre, mode);
    assert s[|pre|] == body[0] && s[|pre| + 1] == body[1];
    OpcodeSelects(t, b, kids, s, |pre|, Left(pre, None, mode), mode);
  }

  /** The prefixes that select, and their bytes. */
  predicate MaySelect(p: Prefix) { p == OpSize || p == Rep || p == Repnz }

  predicate Selects(x: Byte) { x == 0x66 || x == 0xf3 || x == 0xf2 }

  function SelectorOf(x: Byte): (p: Prefix)
    requires Selects(x)
    ensures MaySelect(p) && LegacyByte(p) == x
  {
    if x == 0x66 then OpSize else if x == 0xf3 then Rep else Repnz
  }

  lemma {:induction false} OneKind(p: Prefix)
    ensures KindsIn([Legacy(p)]) == {p} && Spelled([Legacy(p)]) == [LegacyByte(p)]
  {
    KindsInMore([], Legacy(p));
    assert [] + [Legacy(p)] == [Legacy(p)];
    assert KindsIn([]) == {};
  }

  lemma {:induction false} TwoKinds(p: Prefix, q: Prefix)
    ensures KindsIn([Legacy(p), Legacy(q)]) == {p, q}
    ensures Spelled([Legacy(p), Legacy(q)]) == [LegacyByte(p), LegacyByte(q)]
  {
    OneKind(p);
    KindsInMore([Legacy(p)], Legacy(q));
    assert [Legacy(p)] + [Legacy(q)] == [Legacy(p), Legacy(q)];
  }

  /** Selecting prefixes are neither REX nor segment overrides, so they are left as they are. */
  lemma {:induction false} SelectorsStay(pre: seq<Written>, mode: Mode)
    requires forall p | p in KindsIn(pre) :: MaySelect(p)
    ensures Left(pre, None, mode).decoded == KindsIn(pre)
  {
  }

  lemma {:induction false} OneLeft(p: Prefix, mode: Mode)
    requires MaySelect(p)
    ensures Left([Legacy(p)], None, mode).decoded == {p} && Spelled([Legacy(p)]) == [LegacyByte(p)]
  {
    OneKind(p);
    SelectorsStay([Legacy(p)], mode);
  }

  lemma {:induction false} TwoLeft(p: Prefix, q: Prefix, mode: Mode)
    requires MaySelect(p) && MaySelect(q)
    ensures Left([Legacy(p), Legacy(q)], None, mode).decoded == {p, q}
    ensures Spelled([Legacy(p), Legacy(q)]) == [LegacyByte(p), LegacyByte(q)]
  {
    TwoKinds(p, q);
    SelectorsStay([Legacy(p), Legacy(q)], mode);
  }

  lemma {:induction false} NoneLeft(mode: Mode)
    ensures Left([], None, mode).decoded == {} && forall s: seq<Byte> :: Spelled([]) + s == s
  {
  }

  lemma {:induction false} OneInFront(x: Byte, b: Byte, rest: seq<Byte>)
    requires Selects(x)
    ensures [x, 0x0f, b] + rest == Spelled([Legacy(SelectorOf(x))]) + ([0x0f, b] + rest)
  {
    OneKind(SelectorOf(x));
  }

  lemma {:induction false} TwoInFront(x: Byte, y: Byte, b: Byte, rest: seq<Byte>)
    requires Selects(x) && Selects(y)
    ensures [x, y, 0x0f, b] + rest == Spelled([Legacy(SelectorOf(x)), Legacy(SelectorOf(y))]) + ([0x0f, b] + rest)
  {
    TwoKinds(SelectorOf(x), SelectorOf(y));
  }

  lemma {:induction false} SelectedByNone(kids: seq<Node>, at: nat, ps: Prefixes)
    requires IsPrefixed(Prefixed(kids)) && ps.decoded == {}
    ensures InfoOf(Select(Prefixed(kids), at, ps)) == Chosen(kids[0])
  {
  }

  lemma {:induction false} SelectedByOne(kids: seq<Node>, at: nat, ps: Prefixes, p: Prefix)
    requires IsPrefixed(Prefixed(kids)) && MaySelect(p) && ps.decoded == {p}
    ensures InfoOf(Select(Prefixed(kids), at, ps))
            == ChosenOr(kids[if p == OpSize then 1 else if p == Rep then 2 else 3], kids[0])
  {
  }

  lemma {:induction false} SelectedByTwo(kids: seq<Node>, at: nat, ps: Prefixes, p: Prefix, q: Prefix)
    requires IsPrefixed(Prefixed(kids)) && MaySelect(p) && MaySelect(q) && p != q && ps.decoded == {p, q}
    ensures InfoOf(Select(Prefixed(kids), at, ps))
            == if p != OpSize && q != OpSize then None else ChosenSized(kids[if p == Rep || q == Rep then 2 else 3])
  {
  }

  /** Without a prefix the first of the list is found. */
  lemma {:induction false} NoPrefixSelects(t: Tables, b: Byte, kids: seq<Node>, rest: seq<Byte>, mode: Mode)
    requires IsListed(t, b, kids)
    ensures LookedUp(t, [0x0f, b] + rest, mode) == Chosen(kids[0])
  {
    NoneLeft(mode);
    ListedSelects(t, b, kids, [], rest, mode, [0x0f, b] + rest);
    SelectedByNone(kids, 1, Left([], None, mode));
  }

  /**
   Behind 66 the second of the list is found, behind f3 the third and behind f2 the fourth, or the first if it is none.
   */
  lemma {:induction false} OnePrefixSelects(t: Tables, b: Byte, kids: seq<Node>, x: Byte, rest: seq<Byte>, mode: Mode)
    requires IsListed(t, b, kids) && (x == 0x66 || x == 0xf3 || x == 0xf2)
    ensures LookedUp(t, [x, 0x0f, b] + rest, mode)
            == ChosenOr(kids[if x == 0x66 then 1 else if x == 0xf3 then 2 else 3], kids[0])
  {
    var p := SelectorOf(x);
    OneLeft(p, mode);
    OneInFront(x, b, rest);
    ListedSelects(t, b, kids, [Legacy(p)], rest, mode, [x, 0x0f, b] + rest);
    SelectedByOne(kids, 2, Left([Legacy(p)], None, mode), p);
  }

  /**
   With f3 or f2, a 66 on either side is an operand size, and what is selected is found only if it takes one; f2 and f3
   together find nothing.
   */
  lemma {:induction false} TwoPrefixesSelect(t: Tables, b: Byte, kids: seq<Node>, x: Byte, y: Byte, rest: seq<Byte>,
                                             mode: Mode)
    requires IsListed(t, b, kids) && x != y
    requires (x == 0x66 || x == 0xf3 || x == 0xf2) && (y == 0x66 || y == 0xf3 || y == 0xf2)
    ensures LookedUp(t, [x, y, 0x0f, b] + rest, mode)
            == if x != 0x66 && y != 0x66 then None else ChosenSized(kids[if x == 0xf3 || y == 0xf3 then 2 else 3])
  {
    var p, q := SelectorOf(x), SelectorOf(y);
    TwoLeft(p, q, mode);
    TwoInFront(x, y, b, rest);
    ListedSelects(t, b, kids, [Legacy(p), Legacy(q)], rest, mode, [x, y, 0x0f, b] + rest);
    SelectedByTwo(kids, 3, Left([Legacy(p), Legacy(q)], None, mode), p, q);
  }

  // ---- The additions ------------------------------------------------------------------------------

  /** An instruction of a register and a register or memory. */
  predicate TakesTwo(info: Info) {
    info.d == XMM && (info.s == XMM32 || info.s == XMM64 || info.s == XMM128) && info.flags == {ModrmRequired}
  }

  lemma {:induction false} TwoRegisters(info: Info, c: Context)
    requires TakesTwo(info) && c.modrm == 0xc0
    ensures Pieces(Listed(info), c, true, [[], []]) == true
  {
  }

  /** An instruction of two registers behind at most one prefix. */
  lemma {:induction false} RegistersLine(t: Tables, pre: seq<Written>, info: Info, left: Prefixes, mode: Mode)
    requires AllLegal(pre, mode) && |pre| <= 1 && info.flags == {ModrmRequired}
    requires Leads(t, pre, None, Second(0x0f, 0x58), mode, info, left)
             == Pieces(Listed(info), D.ContextOf(info, 0xc0, D.WithoutOpSize(left), mode), true, [[], []]) == true
    ensures IsInstruction(t, Line(Spelled(pre) + [0x0f, 0x58, 0xc0], info), mode)
  {
    var code := Encoding(pre, None, Second(0x0f, 0x58), [0xc0], [[], []], []);
    assert Joined([[], []]) == [];
    assert code.Bytes() == Spelled(pre) + [0x0f, 0x58, 0xc0];
    LineFrom(t, Line(Spelled(pre) + [0x0f, 0x58, 0xc0], info), mode, code, info, left);
  }

  /** The prefix that selects an addition, and what is left of it. */
  lemma {:induction false} AdditionLeads(t: Tables, p: Prefix, mode: Mode)
    requires t.WellFormed() && IsListed(t, 0x58, ADDITIONS.kids) && MaySelect(p)
    ensures var left := Left([Legacy(p)], None, mode).(decoded := {}, opSizeMandatory := p == OpSize);
            var info := if p == OpSize then ADDPD else if p == Rep then ADDSS else ADDSD;
            Leads(t, [Legacy(p)], None, Second(0x0f, 0x58), mode, info, left) == true
  {
    OneLeft(p, mode);
    assert {p} - {p} == {};
  }

  lemma {:induction false} RegistersAreDecoded(t: Tables, pre: seq<Written>, info: Info, left: Prefixes, mode: Mode)
    requires t.WellFormed() && AllLegal(pre, mode) && |pre| <= 1 && TakesTwo(info)
    requires Leads(t, pre, None, Second(0x0f, 0x58), mode, info, left) == true
    ensures Takes(Steps(t, mode), Line(Spelled(pre) + [0x0f, 0x58, 0xc0], info))
  {
    TwoRegisters(info, D.ContextOf(info, 0xc0, D.WithoutOpSize(left), mode));
    RegistersLine(t, pre, info, left, mode);
    LineIsTaken(t, Line(Spelled(pre) + [0x0f, 0x58, 0xc0], info), mode);
  }

  /** By what the generated tables have behind 0f 58: an addition without a prefix, in any mode and whatever follows. */
  lemma {:induction false} AdditionIsDecoded(t: Tables, rest: seq<Byte>, mode: Mode)
    requires t.WellFormed() && IsListed(t, 0x58, ADDITIONS.kids)
    ensures ChunkOf(t, [0x0f, 0x58, 0xc0] + rest, mode) == One(Known(ADDPS), 3)
  {
    var left, line := Left([], None, mode), Line([0x0f, 0x58, 0xc0], ADDPS);
    assert left.decoded == {};
    RegistersAreDecoded(t, [], ADDPS, left, mode);
    assert Spelled([]) + [0x0f, 0x58, 0xc0] == line.bytes;
    assert Steps(t, mode)(line.bytes + rest) == One(Known(ADDPS), 3);
  }

  /** And behind 66, f3 and f2: packed doubles, a single and a double. */
  lemma {:induction false} PrefixedAdditionIsDecoded(t: Tables, x: Byte, rest: seq<Byte>, mode: Mode)
    requires t.WellFormed() && IsListed(t, 0x58, ADDITIONS.kids) && (x == 0x66 || x == 0xf3 || x == 0xf2)
    ensures ChunkOf(t, [x, 0x0f, 0x58, 0xc0] + rest, mode)
            == One(Known(if x == 0x66 then ADDPD else if x == 0xf3 then ADDSS else ADDSD), 4)
  {
    var p := SelectorOf(x);
    var left := Left([Legacy(p)], None, mode).(decoded := {}, opSizeMandatory := p == OpSize);
    var info := if p == OpSize then ADDPD else if p == Rep then ADDSS else ADDSD;
    var line := Line([x, 0x0f, 0x58, 0xc0], info);
    AdditionLeads(t, p, mode);
    OneKind(p);
    RegistersAreDecoded(t, [Legacy(p)], info, left, mode);
    assert Spelled([Legacy(p)]) + [0x0f, 0x58, 0xc0] == line.bytes;
    assert Steps(t, mode)(line.bytes + rest) == One(Known(info), 4);
  }

  // ---- Sizes --------------------------------------------------------------------------------------

  /** REX right before the opcode, with the W bit. */
  predicate Wide(pre: seq<Written>, mode: Mode) {
    mode == Bits64 && pre != [] && pre[|pre| - 1].RexWith? && ExW in pre[|pre| - 1].bits
  }

  lemma {:induction false} HasLegacy(pre: seq<Written>, p: Prefix)
    requires p != Rex
    ensures p in KindsIn(pre) <==> Legacy(p) in pre
  {
    assert Legacy(p) in pre ==> Legacy(p).Kind() in KindsIn(pre);
    if p in KindsIn(pre) {
      var w :| w in pre && w.Kind() == p;
      assert w == Legacy(p);
    }
  }

  /** The prefixes that bear on sizes, in what counts of them. */
  lemma {:induction false} LeftForSizes(pre: seq<Written>, mode: Mode)
    requires AllLegal(pre, mode)
    ensures var left := Left(pre, None, mode);
            && (OpSize in left.decoded <==> Legacy(OpSize) in pre)
            && (AddrSize in left.decoded <==> Legacy(AddrSize) in pre)
            && (Rex in left.decoded && ExW in left.vrex <==> Wide(pre, mode))
            && (left.ext == RexExt && ExW in left.vrex <==> Wide(pre, mode)) && !left.opSizeMandatory
  {
    HasLegacy(pre, OpSize);
    HasLegacy(pre, AddrSize);
    RexAtTheEnd(pre, mode);
    if mode != Bits64 {
      NoRexOutside(pre, mode);
    } else if pre != [] && pre[|pre| - 1].RexWith? {
      assert pre[|pre| - 1] in pre;
    }
  }

  /**
   The sizes in effect. Operands have 16 bits in 16-bit code and 32 bits elsewhere, and 66 changes one into the other;
   in 64-bit code REX.W makes them 64 bits whatever else is there, and some instructions have 64 bits of their own
   accord. Addresses are as wide as the code, and 67 makes them 32 bits in 16-bit and 64-bit code and 16 bits in 32-bit
   code.
   */
  lemma {:induction false} SizesInEffect(pre: seq<Written>, info: Info, modrm: Byte, mode: Mode)
    requires AllLegal(pre, mode)
    ensures var c := D.ContextOf(info, modrm, D.WithoutOpSize(Left(pre, None, mode)), mode);
            var op, wide := Legacy(OpSize) in pre, Bits64Operands in info.flags && NeedsRex !in info.flags;
            && (mode == Bits16 ==> c.opSize == if op then Bits32 else Bits16)
            && (mode == Bits32 ==> c.opSize == if op then Bits16 else Bits32)
            && (mode == Bits64 ==>
                  c.opSize == if Wide(pre, mode) then Bits64
                              else if op then Bits16
                              else if wide then Bits64
                              else Bits32)
            && c.addrSize == (if Legacy(AddrSize) !in pre then mode else if mode == Bits32 then Bits16 else Bits32)
            && c.mode == mode && c.flags == info.flags && c.modrm == (if ModrmRequired in info.flags then modrm else 0)
  {
    LeftForSizes(pre, mode);
  }

  /**
   So an immediate as wide as the operand takes 2 bytes in 16-bit code and 4 elsewhere, the other way round behind 66;
   with REX.W it takes 4, or 8 for the instructions that ask for REX to be 64 bits wide.
   */
  lemma {:induction false} ImmediateSizes(pre: seq<Written>, info: Info, modrm: Byte, mode: Mode, first: bool,
                                          tail: seq<Byte>)
    requires AllLegal(pre, mode) && !(Bits64Operands in info.flags && NeedsRex !in info.flags)
    ensures var c, op := D.ContextOf(info, modrm, D.WithoutOpSize(Left(pre, None, mode)), mode), Legacy(OpSize) in pre;
            && (mode == Bits16 ==> (Piece(IMM_FULL, c, first, tail) <==> |tail| == if op then 4 else 2))
            && (mode == Bits32 ==> (Piece(IMM_FULL, c, first, tail) <==> |tail| == if op then 2 else 4))
            && (mode == Bits64 && !Wide(pre, mode) ==>
                  (Piece(IMM_FULL, c, first, tail) <==> |tail| == if op then 2 else 4))
            && (mode == Bits64 && Wide(pre, mode) ==>
                  (Piece(IMM_FULL, c, first, tail)
                   <==> |tail| == if Bits64Operands in info.flags && NeedsRex in info.flags then 8 else 4))
  {
    SizesInEffect(pre, info, modrm, mode);
  }
}
