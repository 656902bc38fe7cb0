/**
 Machine code as it is written, prefixes, opcode, ModR/M byte, operands and suffix one behind the other, and the decoder
 as the inverse: what is decoded is what is written, and nothing else is.
 */
module Assembly {
  import opened Wrappers
  import opened X86
  import opened PrefixScan
  import opened PrefixBytes
  import opened OpcodeTrie
  import opened OpcodePaths
  import opened OperandBytes
  import opened OperandPieces
  import opened DecodeRun
  import opened DecodeLoop
  import opened Listings
  import D = DecodeInst

  /** An instruction; `extra` is the ModR/M byte if the opcode does not have it already. */
  datatype Encoding = Encoding(
    pre: seq<Written>, vex: Option<VexWritten>, path: Path, extra: seq<Byte>, tails: seq<seq<Byte>>, suffix: seq<Byte>)
  {
    predicate Sized() { vex.Some? ==> vex.value.Sized() }

    /** The prefixes. */
    function Front(): seq<Byte>
      requires Sized()
    {
      Spelled(pre) + if vex.Some? then vex.value.Bytes() else []
    }

    function Body(): (s: seq<Byte>)
      ensures s != [] && s[0] == path.Bytes()[0]
    {
      path.Bytes() + (extra + (Joined(tails) + suffix))
    }

    function Bytes(): seq<Byte>
      requires Sized()
    {
      Front() + Body()
    }

    function Modrm(): Byte { if extra != [] then extra[0] else path.Bytes()[|path.Bytes()| - 1] }
  }

  /**
   The prefixes that count: in 64 bits REX only right before the opcode, though the bits of one elsewhere stay, and no
   segment overrides but FS and GS; so REX in front of VEX does not count, and hides of which form the VEX is.
   */
  ghost function Left(pre: seq<Written>, vex: Option<VexWritten>, mode: Mode): Prefixes
    requires vex.Some? ==> vex.value.Legal(mode)
  {
    var all := if vex.Some? then FactsWithVex(pre, vex.value, mode) else Facts(pre);
    if mode != Bits64 then all
    else if vex.Some? then
      all.(decoded := all.decoded - {Cs, Ss, Ds, Es, Rex}, ext := if Rex in KindsIn(pre) then NoExt else all.ext)
    else if pre != [] && pre[|pre| - 1].RexWith? then all.(decoded := all.decoded - {Cs, Ss, Ds, Es})
    else all.(decoded := all.decoded - {Cs, Ss, Ds, Es, Rex}, ext := NoExt)
  }

  /** The byte behind the operands of a comparison, one of eight predicates. */
  predicate Compared(info: Info, s: seq<Byte>) {
    if PseudoOpcode in info.flags then |s| == 1 && s[0] < 8 else s == []
  }

  /** What follows the operands: for 3DNow! the byte that tells which instruction it is. */
  predicate Suffixed(t: Tables, found: Info, suffix: seq<Byte>, info: Info) {
    if Fetch3DNow in found.flags
    then suffix != [] && FullKid(t.table3DNow, suffix[0]) == Leaf(info) && Compared(info, suffix[1..])
    else info == found && Compared(info, suffix)
  }

  /** What an instruction asks of the mode and of its ModR/M byte. */
  predicate Allowed(found: Info, mode: Mode, modrm: Byte) {
    && (if mode == Bits64 then Invalid64 !in found.flags else Fetch64 !in found.flags)
    && (ModrmRequired in found.flags && ForceReg0 in found.flags ==> RegField(modrm) == 0)
    && (ModrmRequired in found.flags && ModRR in found.flags ==> modrm >= 0xc0)
  }

  function Extra(found: Info): nat { if ModrmRequired in found.flags && ModrmIncluded !in found.flags then 1 else 0 }

  /**
   The opcode leads to `found`, without VEX or behind it. A short VEX must not follow REX.
   */
  ghost predicate Leads(t: Tables, pre: seq<Written>, vex: Option<VexWritten>, path: Path, mode: Mode, found: Info,
                        left: Prefixes)
  {
    match vex
    case None => Stands(t, path, Left(pre, None, mode), mode, found, left)
    case Some(v) =>
      && v.Legal(mode) && left == Left(pre, Some(v), mode) && (v.Short? ==> Rex !in KindsIn(pre))
      && VexStands(t, v, path, left, found)
  }

  /**
   The code is an instruction: the opcode leads to `found` and leaves the prefixes `left`, the ModR/M byte and the
   operands are those it needs, and with its suffix it is `info`.
   */
  ghost predicate Assembles(t: Tables, code: Encoding, mode: Mode, found: Info, left: Prefixes, info: Info) {
    && AllLegal(code.pre, mode) && Leads(t, code.pre, code.vex, code.path, mode, found, left)
    && Allowed(found, mode, code.Modrm()) && |code.extra| == Extra(found)
    && Pieces(Listed(found), D.ContextOf(found, code.Modrm(), D.WithoutOpSize(left), mode), true, code.tails)
    && Suffixed(t, found, code.suffix, info)
  }

  // ---- What is written is decoded -----------------------------------------------------------------

  lemma {:induction false} RexAtTheEnd(pre: seq<Written>, mode: Mode)
    requires AllLegal(pre, mode)
    ensures Rex in KindsIn(pre) <==> exists w | w in pre :: w.RexWith?
    ensures Rex in KindsIn(pre) ==> LastPlace(pre) < |pre| && pre[LastPlace(pre)].RexWith?
    ensures Rex in KindsIn(pre) ==> (LastPlace(pre) == |pre| - 1 <==> pre[|pre| - 1].RexWith?)
    ensures Vex !in KindsIn(pre)
  {
    if pre != [] {
      var k := |pre| - 1;
      assert pre == pre[..k] + [pre[k]];
      KindsInMore(pre[..k], pre[k]);
      RexAtTheEnd(pre[..k], mode);
    }
  }

  /** What the decoder keeps of the prefixes is what counts. */
  lemma {:induction false} LeftIsAdjusted(pre: seq<Written>, mode: Mode)
    requires AllLegal(pre, mode)
    ensures Adjusted(Facts(pre), mode) == Left(pre, None, mode) && Vex !in Left(pre, None, mode).decoded
  {
    RexAtTheEnd(pre, mode);
    assert SEGMENTS32 == {Cs, Ss, Ds, Es};
    if mode == Bits64 {
      var all := Facts(pre);
      if Rex !in all.decoded {
        assert all.decoded - {Cs, Ss, Ds, Es} == all.decoded - {Cs, Ss, Ds, Es, Rex};
      } else if !pre[|pre| - 1].RexWith? {
        assert all.decoded - {Rex} - {Cs, Ss, Ds, Es} == all.decoded - {Cs, Ss, Ds, Es, Rex};
      } else {
        assert pre[|pre| - 1] in pre;
      }
    }
  }

  lemma {:induction false} LastBitsAreRex(pre: seq<Written>, mode: Mode)
    requires AllLegal(pre, mode)
    ensures ExL !in LastBits(pre)
  {
    if pre != [] {
      assert pre[|pre| - 1] in pre;
      LastBitsAreRex(pre[..|pre| - 1], mode);
    }
  }

  lemma {:induction false} VexLeftIsAdjusted(pre: seq<Written>, v: VexWritten, mode: Mode)
    requires AllLegal(pre, mode) && v.Legal(mode)
    ensures Adjusted(FactsWithVex(pre, v, mode), mode) == Left(pre, Some(v), mode)
    ensures Rex !in Left(pre, Some(v), mode).decoded && Vex in Left(pre, Some(v), mode).decoded
    ensures ExL in Left(pre, Some(v), mode).vrex <==> v.l
  {
    RexAtTheEnd(pre, mode);
    assert SEGMENTS32 == {Cs, Ss, Ds, Es};
    LastBitsAreRex(pre, mode);
    if mode == Bits64 {
      var all := FactsWithVex(pre, v, mode);
      if Rex !in all.decoded {
        assert all.decoded - {Cs, Ss, Ds, Es} == all.decoded - {Cs, Ss, Ds, Es, Rex};
      } else {
        assert all.decoded - {Rex} - {Cs, Ss, Ds, Es} == all.decoded - {Cs, Ss, Ds, Es, Rex};
      }
    } else {
      NoRexOutside(pre, mode);
    }
  }

  lemma {:induction false} SuffixIsRead(t: Tables, found: Info, suffix: seq<Byte>, info: Info, s: seq<Byte>, q: nat)
    requires t.WellFormed() && q <= |s| && suffix <= s[q..] && Suffixed(t, found, suffix, info)
    ensures D.Suffix(t, found, s, q) == D.Instruction(info, q + |suffix|)
  {
    assert suffix != [] ==> s[q] == suffix[0];
    assert |suffix| > 1 ==> s[q + 1] == suffix[1];
  }

  lemma {:induction false} ReadIsSuffix(t: Tables, found: Info, s: seq<Byte>, q: nat)
    requires t.WellFormed() && q <= |s| && D.Suffix(t, found, s, q).Instruction?
    ensures var d := D.Suffix(t, found, s, q);
            q <= d.end <= |s| && Suffixed(t, found, s[q..d.end], d.info)
  {
    var d := D.Suffix(t, found, s, q);
    var suffix := s[q..d.end];
    assert suffix != [] ==> suffix[0] == s[q];
    if |suffix| > 1 {
      assert suffix[1..][0] == s[q + 1];
    }
  }

  /** The parts of the code in a stream: where the opcode ends, where the operands start and where the suffix. */
  lemma {:induction false} PartsOf(code: Encoding, s: seq<Byte>, p: nat, m: nat, q: nat)
    requires p <= |s| && code.Body() <= s[p..] && |code.extra| <= 1
    requires m + 1 == p + |code.path.Bytes()| + |code.extra| && q == m + 1 + |Joined(code.tails)|
    ensures m < |s| && q + |code.suffix| == p + |code.Body()| <= |s|
    ensures PathFits(code.path, s, p) && s[m] == code.Modrm()
    ensures Joined(code.tails) <= s[m + 1..] && code.suffix <= s[q..]
  {
    var a, b := code.path.Bytes(), Joined(code.tails) + code.suffix;
    TwoParts(a, code.extra + b, s, p, p + |a|);
    TwoParts(code.extra, b, s, p + |a|, m + 1);
    TwoParts(Joined(code.tails), code.suffix, s, m + 1, q);
    assert forall i | 0 <= i < |a| :: s[p..][i] == a[i];
    assert code.extra != [] ==> s[p + |a|..][0] == code.extra[0];
  }

  lemma {:induction false} OperandsAreRead(found: Info, c: Context, tails: seq<seq<Byte>>, s: seq<Byte>, r: nat, q: nat)
    requires r <= |s| && Joined(tails) <= s[r..] && Pieces(Listed(found), c, true, tails) == true
    requires q == r + |Joined(tails)|
    ensures Operands(found, c, s, r) == Some(q)
  {
    OperandsAreListed(found, c, s, r);
    PiecesAreRead(Listed(found), c, true, tails, s, r, q);
  }

  /** From the last opcode byte or the ModR/M byte at `m` on, with the operands at `r` and the suffix at `q`. */
  lemma {:induction false} BehindIsRead(t: Tables, found: Info, m: nat, ps: Prefixes, suffix: seq<Byte>, info: Info,
                                        s: seq<Byte>, mode: Mode, c: Context, r: nat, q: nat, end: nat)
    requires t.WellFormed() && m < |s| && r == m + 1 && c == D.ContextOf(found, s[m], ps, mode)
    requires q <= |s| && suffix <= s[q..] && Suffixed(t, found, suffix, info) && end == q + |suffix|
    requires Operands(found, c, s, r) == Some(q)
    ensures D.Behind(t, found, m, ps, s, mode)
            == if end <= INST_MAXIMUM_SIZE then D.Instruction(info, end) else D.Undecodable
  {
    SuffixIsRead(t, found, suffix, info, s, q);
  }

  lemma {:induction false} ExtraIs(found: Info, at: nat)
    ensures D.ModrmAt(found, at) == at + Extra(found)
  {
  }

  lemma {:induction false} AllowedIs(found: Info, mode: Mode, modrm: Byte)
    ensures Allowed(found, mode, modrm)
            <==> D.Suits(found, mode) && (ModrmRequired in found.flags ==> D.ModrmSuits(found, modrm))
  {
    RegFieldIs(modrm);
  }

  lemma {:induction false} RestIsBehind(t: Tables, found: Info, at: nat, ps: Prefixes, s: seq<Byte>, mode: Mode, m: nat)
    requires t.WellFormed() && m == D.ModrmAt(found, at)
    ensures D.Rest(t, found, at, ps, s, mode)
            == if m < |s| && D.Suits(found, mode) && (ModrmRequired in found.flags ==> D.ModrmSuits(found, s[m]))
               then D.Behind(t, found, m, ps, s, mode) else D.Undecodable
  {
  }

  /** From the found opcode on, which ends at `at`, with the ModR/M byte or the last opcode byte at `m`. */
  lemma {:induction false} RestIsRead(t: Tables, code: Encoding, mode: Mode, found: Info, left: Prefixes, info: Info,
                                      s: seq<Byte>, p: nat, at: nat, m: nat, end: nat)
    requires t.WellFormed() && p <= |s| && code.Body() <= s[p..]
    requires Assembles(t, code, mode, found, left, info) == true
    requires at + 1 == p + |code.path.Bytes()| && m == at + |code.extra| && end == p + |code.Body()|
    ensures D.Rest(t, found, at, D.WithoutOpSize(left), s, mode)
            == if end <= INST_MAXIMUM_SIZE then D.Instruction(info, end) else D.Undecodable
  {
    var r := m + 1;
    var q := r + |Joined(code.tails)|;
    PartsOf(code, s, p, m, q);
    ExtraIs(found, at);
    AllowedIs(found, mode, s[m]);
    RestIsBehind(t, found, at, D.WithoutOpSize(left), s, mode, m);
    var c := D.ContextOf(found, s[m], D.WithoutOpSize(left), mode);
    OperandsAreRead(found, c, code.tails, s, r, q);
    BehindIsRead(t, found, m, D.WithoutOpSize(left), code.suffix, info, s, mode, c, r, q, end);
  }

  /** What the decoder is given of the prefixes, and what it reads out of VEX, in a stream that starts with the code. */
  ghost predicate Given(t: Tables, code: Encoding, mode: Mode, s: seq<Byte>, p: nat, ps: Prefixes)
    requires AllLegal(code.pre, mode) && (code.vex.Some? ==> code.vex.value.Legal(mode))
  {
    && ps == Left(code.pre, code.vex, mode) && p == |code.Front()| == ps.last < |s|
    && PrefixesOf(s, mode).last == p && Adjusted(PrefixesOf(s, mode), mode) == ps
    && (code.vex.None? ==> Vex !in ps.decoded)
    && (code.vex.Some? ==>
          ps.vexPos + 1 < |s|
          && ((code.vex.value.Short? && Rex in KindsIn(code.pre)) || VexReads(t, code.vex.value, s, ps)))
  }

  lemma {:induction false} SameReads(t: Tables, s: seq<Byte>, a: Prefixes, b: Prefixes)
    requires a.vexPos == b.vexPos && a.vexPos + 1 < |s| && (a.ext == Vex2 <==> b.ext == Vex2)
    ensures VexTable(t, s, a) == VexTable(t, s, b) && VexIndex(s, a) == VexIndex(s, b)
  {
  }

  lemma {:induction false} VexIsReadBack(t: Tables, pre: seq<Written>, v: VexWritten, mode: Mode, s: seq<Byte>,
                                         body: seq<Byte>, ps: Prefixes)
    requires t.WellFormed() && AllLegal(pre, mode) && v.Legal(mode) && body != []
    requires |pre| + |v.Bytes()| <= INST_MAXIMUM_SIZE
    requires s == Spelled(pre) + (v.Bytes() + body) && ps == Left(pre, Some(v), mode)
    ensures ps.vexPos + 1 < |s| && ((v.Short? && Rex in KindsIn(pre)) || VexReads(t, v, s, ps))
  {
    VexIsRead(t, pre, v, body, mode);
    VexLeftIsAdjusted(pre, v, mode);
    var all := FactsWithVex(pre, v, mode);
    assert ps.vexPos == all.vexPos == |pre| + 1;
    if !(v.Short? && Rex in KindsIn(pre)) {
      if mode != Bits64 {
        NoRexOutside(pre, mode);
      }
      SameReads(t, s, ps, all);
    }
  }

  lemma {:induction false} VexIsGiven(t: Tables, code: Encoding, mode: Mode, s: seq<Byte>, body: seq<Byte>, p: nat,
                                      ps: Prefixes)
    requires t.WellFormed() && AllLegal(code.pre, mode) && code.vex.Some? && code.vex.value.Legal(mode) && body != []
    requires s == Spelled(code.pre) + (code.vex.value.Bytes() + body)
    requires p == |code.Front()| < INST_MAXIMUM_SIZE && ps == Left(code.pre, code.vex, mode)
    ensures Given(t, code, mode, s, p, ps) == true
  {
    var v := code.vex.value;
    VexIsReadBack(t, code.pre, v, mode, s, body, ps);
    assert PrefixesOf(s, mode) == FactsWithVex(code.pre, v, mode) by {
      VexIsRead(t, code.pre, v, body, mode);
    }
    VexLeftIsAdjusted(code.pre, v, mode);
  }

  lemma {:induction false} PlainIsGiven(t: Tables, code: Encoding, mode: Mode, s: seq<Byte>, body: seq<Byte>, p: nat,
                                        ps: Prefixes)
    requires AllLegal(code.pre, mode) && code.vex.None? && body != [] && NoPrefix(body, mode)
    requires s == Spelled(code.pre) + body
    requires p == |code.Front()| < INST_MAXIMUM_SIZE && ps == Left(code.pre, None, mode)
    ensures Given(t, code, mode, s, p, ps) == true
  {
    SpelledIsRead(code.pre, body, mode);
    LeftIsAdjusted(code.pre, mode);
  }

  lemma {:induction false} ThreeParts(front: seq<Byte>, body: seq<Byte>, rest: seq<Byte>, s: seq<Byte>, p: nat)
    requires s == (front + body) + rest && p == |front| && body != []
    ensures p < |s| && s[p] == body[0] && body <= s[p..] && s == front + (body + rest)
  {
    assert s[p..] == body + rest;
  }

  lemma {:induction false} Regrouped(a: seq<Byte>, b: seq<Byte>, c: seq<Byte>)
    ensures (a + b) + c == a + (b + c) && (b == [] ==> (a + b) + c == a + c)
  {
  }

  /** Where prefixes and the rest of the code are in a stream that starts with it. */
  lemma {:induction false} FrontAndBody(code: Encoding, rest: seq<Byte>, s: seq<Byte>, p: nat)
    requires code.Sized() && s == code.Bytes() + rest && p == |code.Front()|
    ensures p < |s| && code.Body() <= s[p..] && s[p] == code.path.Bytes()[0]
    ensures code.vex.None? ==> s == Spelled(code.pre) + (code.Body() + rest)
    ensures code.vex.Some? ==> s == Spelled(code.pre) + (code.vex.value.Bytes() + (code.Body() + rest))
  {
    ThreeParts(code.Front(), code.Body(), rest, s, p);
    Regrouped(Spelled(code.pre), if code.vex.Some? then code.vex.value.Bytes() else [], code.Body() + rest);
  }

  /** What the decoder is given by it. */
  lemma {:induction false} StreamOf(t: Tables, code: Encoding, rest: seq<Byte>, mode: Mode, p: nat, ps: Prefixes)
    requires t.WellFormed() && AllLegal(code.pre, mode) && (code.vex.Some? ==> code.vex.value.Legal(mode))
    requires p == |code.Front()| < INST_MAXIMUM_SIZE && ps == Left(code.pre, code.vex, mode)
    requires code.vex.None? ==> NoPrefix(code.Body() + rest, mode) == true
    ensures Given(t, code, mode, code.Bytes() + rest, p, ps) == true
  {
    var s, body := code.Bytes() + rest, code.Body() + rest;
    FrontAndBody(code, rest, s, p);
    if code.vex.None? {
      PlainIsGiven(t, code, mode, s, body, p, ps);
    } else {
      VexIsGiven(t, code, mode, s, body, p, ps);
    }
  }

  lemma {:induction false} OpcodeIsRead(t: Tables, code: Encoding, mode: Mode, found: Info, left: Prefixes,
                                        s: seq<Byte>, p: nat, ps: Prefixes)
    requires t.WellFormed() && AllLegal(code.pre, mode) && (code.vex.Some? ==> code.vex.value.Legal(mode))
    requires (Leads(t, code.pre, code.vex, code.path, mode, found, left) == true) && Given(t, code, mode, s, p, ps)
    requires PathFits(code.path, s, p)
    ensures Opcode(t, s, p, ps, mode) == Found(found, p + |code.path.Bytes()| - 1, left)
  {
    if code.vex.None? {
      PathIsFound(t, code.path, s, p, ps, mode, found, left);
    } else {
      VexPathIsFound(t, code.vex.value, code.path, s, p, ps, mode, found);
    }
  }

  /** Behind the prefixes. */
  lemma {:induction false} InstructionIsRead(t: Tables, code: Encoding, mode: Mode, found: Info, left: Prefixes,
                                             info: Info, s: seq<Byte>, p: nat, ps: Prefixes, end: nat)
    requires t.WellFormed() && p < |s| && code.Body() <= s[p..] && (Assembles(t, code, mode, found, left, info) == true)
    requires Given(t, code, mode, s, p, ps) && end == p + |code.Body()|
    ensures D.InstructionAt(t, s, p, ps, mode)
            == if end <= INST_MAXIMUM_SIZE then D.Instruction(info, end) else D.Undecodable
  {
    var at := p + |code.path.Bytes()| - 1;
    var m := at + |code.extra|;
    PartsOf(code, s, p, m, m + 1 + |Joined(code.tails)|);
    OpcodeIsRead(t, code, mode, found, left, s, p, ps);
    RestIsRead(t, code, mode, found, left, info, s, p, at, m, end);
  }

  lemma {:induction false} ChunkIsVerdict(t: Tables, s: seq<Byte>, mode: Mode, p: nat, ps: Prefixes, d: D.Decoded)
    requires t.WellFormed() && PrefixesOf(s, mode).last == p < |s| && p < INST_MAXIMUM_SIZE
    requires Adjusted(PrefixesOf(s, mode), mode) == ps && (Vex in ps.decoded ==> ps.vexPos + 1 < |s|)
    requires D.InstructionAt(t, s, p, ps, mode) == d
    ensures ChunkOf(t, s, mode)
            == (match d
                case Instruction(info, end) => One(Known(info), if end > p then end else p)
                case Undecodable => if s[p] == 0x9b then One(What.Wait, p + 1) else Lost(p + 1))
  {
  }

  lemma {:induction false} WrittenInStream(t: Tables, code: Encoding, mode: Mode, found: Info, left: Prefixes,
                                           info: Info, s: seq<Byte>, p: nat, ps: Prefixes, n: nat)
    requires t.WellFormed() && AllLegal(code.pre, mode) && (code.vex.Some? ==> code.vex.value.Legal(mode))
    requires Assembles(t, code, mode, found, left, info) == Given(t, code, mode, s, p, ps) == true
    requires p < INST_MAXIMUM_SIZE && code.Body() <= s[p..] && s[p] == code.path.Bytes()[0] && n == p + |code.Body()|
    ensures ChunkOf(t, s, mode)
            == if n <= 15 then One(Known(info), n)
               else if code.path.Bytes()[0] == 0x9b then One(What.Wait, p + 1) else Lost(p + 1)
  {
    InstructionIsRead(t, code, mode, found, left, info, s, p, ps, n);
    ChunkIsVerdict(t, s, mode, p, ps, D.InstructionAt(t, s, p, ps, mode));
  }

  /**
   What is written is decoded: code of at most fifteen bytes, with anything behind it, is one instruction and ends
   where it ends.  Longer code is dropped up to its first opcode byte, or ends there if that is WAIT.
   */
  lemma {:induction false} WrittenIsDecoded(t: Tables, code: Encoding, mode: Mode, found: Info, left: Prefixes,
                                            info: Info, rest: seq<Byte>)
    requires t.WellFormed() && (Assembles(t, code, mode, found, left, info) == true)
    requires |code.Front()| < INST_MAXIMUM_SIZE && (code.vex.None? ==> NoPrefix(code.Body() + rest, mode) == true)
    ensures var n, k := |code.Bytes()|, |code.Front()| + 1;
            ChunkOf(t, code.Bytes() + rest, mode)
            == if n <= 15 then One(Known(info), n)
               else if code.path.Bytes()[0] == 0x9b then One(What.Wait, k)
               else Lost(k)
  {
    var s, p, ps := code.Bytes() + rest, |code.Front()|, Left(code.pre, code.vex, mode);
    FrontAndBody(code, rest, s, p);
    StreamOf(t, code, rest, mode, p, ps);
    WrittenInStream(t, code, mode, found, left, info, s, p, ps, |code.Bytes()|);
  }

  // ---- What is decoded is written -----------------------------------------------------------------

  lemma {:induction false} BehindIsWritten(t: Tables, found: Info, m: nat, ps: Prefixes, s: seq<Byte>, mode: Mode,
                                           r: nat)
    returns (tails: seq<seq<Byte>>, q: nat)
    requires t.WellFormed() && m < |s| && D.Behind(t, found, m, ps, s, mode).Instruction? && r == m + 1
    ensures var d := D.Behind(t, found, m, ps, s, mode);
            && r <= q <= d.end <= |s| && d.end <= INST_MAXIMUM_SIZE && Joined(tails) == s[r..q]
            && Pieces(Listed(found), D.ContextOf(found, s[m], ps, mode), true, tails)
            && Suffixed(t, found, s[q..d.end], d.info)
  {
    var c := D.ContextOf(found, s[m], ps, mode);
    OperandsAreListed(found, c, s, r);
    tails := ReadIsPieces(Listed(found), c, true, s, r);
    q := Operands(found, c, s, r).value;
    ReadIsSuffix(t, found, s, q);
  }

  lemma {:induction false} RestIsAllowed(t: Tables, found: Info, at: nat, ps: Prefixes, s: seq<Byte>, mode: Mode,
                                         m: nat)
    requires t.WellFormed() && m == at + Extra(found) && D.Rest(t, found, at, ps, s, mode).Instruction?
    ensures m < |s| && Allowed(found, mode, s[m])
    ensures D.Rest(t, found, at, ps, s, mode) == D.Behind(t, found, m, ps, s, mode)
  {
    ExtraIs(found, at);
    RestIsBehind(t, found, at, ps, s, mode, m);
    AllowedIs(found, mode, s[m]);
  }

  lemma {:induction false} PathIsThere(path: Path, s: seq<Byte>, p: nat, q: nat)
    requires PathFits(path, s, p) && q == p + |path.Bytes()|
    ensures path.Bytes() == s[p..q]
  {
    var bytes := path.Bytes();
    assert |s[p..q]| == |bytes| && forall i | 0 <= i < |bytes| :: s[p..q][i] == bytes[i];
  }

  lemma {:induction false} Joins(s: seq<Byte>, a: nat, b: nat, c: nat)
    requires a <= b <= c <= |s|
    ensures s[a..b] + s[b..c] == s[a..c] && s[0..c] == s[..c] && s[0..b] == s[..b]
  {
  }

  lemma {:induction false} ModrmIs(code: Encoding, s: seq<Byte>, p: nat, q: nat, m: nat)
    requires p < q <= |s| && code.path.Bytes() == s[p..q] && q <= m + 1 <= |s| && code.extra == s[q..m + 1]
    requires m <= q
    ensures code.Modrm() == s[m]
  {
    if q == m {
      assert code.extra[0] == s[m];
    } else {
      assert s[p..q][|s[p..q]| - 1] == s[m];
    }
  }

  lemma {:induction false} PartsJoin(pre: seq<Written>, vex: Option<VexWritten>, path: Path, tails: seq<seq<Byte>>,
                                     s: seq<Byte>, p: nat, x: nat, r: nat, q: nat, end: nat)
    requires p < x <= r <= q <= end <= |s| && path.Bytes() == s[p..x]
    requires var code := Encoding(pre, vex, path, s[x..r], tails, s[q..end]);
             Joined(tails) == s[r..q] && code.Sized() && code.Front() == s[..p]
    ensures Encoding(pre, vex, path, s[x..r], tails, s[q..end]).Bytes() == s[..end]
  {
    Joins(s, r, q, end);
    Joins(s, x, r, end);
    Joins(s, p, x, end);
    Joins(s, 0, p, end);
  }

  /** The code behind the prefixes, from where its parts are in the stream. */
  lemma {:induction false} CodeOf(pre: seq<Written>, vex: Option<VexWritten>, path: Path, tails: seq<seq<Byte>>,
                                  s: seq<Byte>, p: nat, x: nat, r: nat, q: nat, end: nat, m: nat)
    returns (code: Encoding)
    requires p < x <= r <= q <= end <= |s| && r == m + 1 && m <= x && PathFits(path, s, p) && x == p + |path.Bytes()|
    requires var code := Encoding(pre, vex, path, s[x..r], tails, s[q..end]);
             Joined(tails) == s[r..q] && code.Sized() && code.Front() == s[..p]
    ensures code == Encoding(pre, vex, path, s[x..r], tails, s[q..end])
    ensures code.Bytes() == s[..end] && code.Modrm() == s[m]
  {
    PathIsThere(path, s, p, x);
    code := Encoding(pre, vex, path, s[x..r], tails, s[q..end]);
    assert code.Bytes() == s[..end] by {
      PartsJoin(pre, vex, path, tails, s, p, x, r, q, end);
    }
    assert code.Modrm() == s[m] by {
      ModrmIs(code, s, p, x, m);
    }
  }

  /** What the decoder is given by prefixes `pre` and `vex` alone. */
  ghost predicate Starts(t: Tables, pre: seq<Written>, vex: Option<VexWritten>, mode: Mode, s: seq<Byte>, p: nat,
                         ps: Prefixes)
  {
    && AllLegal(pre, mode) && (vex.Some? ==> vex.value.Legal(mode)) && p < |s| && ps == Left(pre, vex, mode)
    && Spelled(pre) + (if vex.Some? then vex.value.Bytes() else []) == s[..p]
    && (vex.None? ==> Vex !in ps.decoded)
    && (vex.Some? ==> ps.vexPos + 1 < |s| && VexReads(t, vex.value, s, ps)
                      && (vex.value.Short? ==> Rex !in KindsIn(pre)))
  }

  /** The opcode that is found. */
  lemma {:induction false} OpcodeIsWritten(t: Tables, pre: seq<Written>, vex: Option<VexWritten>, mode: Mode,
                                           s: seq<Byte>, p: nat, ps: Prefixes) returns (path: Path)
    requires t.WellFormed() && Starts(t, pre, vex, mode, s, p, ps) && Opcode(t, s, p, ps, mode).Found?
    ensures var found := Opcode(t, s, p, ps, mode);
            && found.at == p + |path.Bytes()| - 1 && PathFits(path, s, p)
            && Leads(t, pre, vex, path, mode, found.info, found.ps)
  {
    if vex.None? {
      path := FoundIsPath(t, s, p, ps, mode);
    } else {
      path := FoundIsVexPath(t, vex.value, s, p, ps, mode);
    }
  }

  /** The parts behind the opcode, which ends at `at`: the ModR/M byte at `m`, operands from `r` to `q`, the suffix. */
  lemma {:induction false} RestIsWritten(t: Tables, found: Info, at: nat, ps: Prefixes, s: seq<Byte>, mode: Mode)
    returns (m: nat, r: nat, tails: seq<seq<Byte>>, q: nat)
    requires t.WellFormed() && D.Rest(t, found, at, ps, s, mode).Instruction?
    ensures var d := D.Rest(t, found, at, ps, s, mode);
            && m == at + Extra(found) && r == m + 1 <= q <= d.end <= |s| && Allowed(found, mode, s[m])
            && Pieces(Listed(found), D.ContextOf(found, s[m], ps, mode), true, tails)
            && Joined(tails) == s[r..q] && Suffixed(t, found, s[q..d.end], d.info)
  {
    m := at + Extra(found);
    r := m + 1;
    RestIsAllowed(t, found, at, ps, s, mode, m);
    tails, q := BehindIsWritten(t, found, m, ps, s, mode, r);
  }

  lemma {:induction false} FoundFirst(t: Tables, s: seq<Byte>, p: nat, ps: Prefixes, mode: Mode)
    requires t.WellFormed() && p < |s| && (Vex in ps.decoded ==> ps.vexPos + 1 < |s|)
    requires D.InstructionAt(t, s, p, ps, mode).Instruction?
    ensures var found := Opcode(t, s, p, ps, mode);
            && found.Found?
            && D.InstructionAt(t, s, p, ps, mode) == D.Rest(t, found.info, found.at, D.WithoutOpSize(found.ps), s, mode)
  {
  }

  lemma {:induction false} InstructionIsWritten(t: Tables, pre: seq<Written>, vex: Option<VexWritten>, mode: Mode,
                                                s: seq<Byte>, p: nat, ps: Prefixes)
    returns (code: Encoding, found: Info, left: Prefixes)
    requires t.WellFormed() && Starts(t, pre, vex, mode, s, p, ps) && D.InstructionAt(t, s, p, ps, mode).Instruction?
    ensures var d := D.InstructionAt(t, s, p, ps, mode);
            && code.Sized() && Assembles(t, code, mode, found, left, d.info)
            && d.end <= |s| && code.Bytes() == s[..d.end]
  {
    FoundFirst(t, s, p, ps, mode);
    var path := OpcodeIsWritten(t, pre, vex, mode, s, p, ps);
    var at := Opcode(t, s, p, ps, mode).at;
    found, left := Opcode(t, s, p, ps, mode).info, Opcode(t, s, p, ps, mode).ps;
    var m, r, tails, q := RestIsWritten(t, found, at, D.WithoutOpSize(left), s, mode);
    code := CodeOf(pre, vex, path, tails, s, p, at + 1, r, q, D.InstructionAt(t, s, p, ps, mode).end, m);
  }

  lemma {:induction false} ChunkIsInstruction(t: Tables, s: seq<Byte>, mode: Mode, info: Info, n: nat, p: nat,
                                              ps: Prefixes)
    requires t.WellFormed() && PrefixesOf(s, mode).last == p && Adjusted(PrefixesOf(s, mode), mode) == ps
    requires ChunkOf(t, s, mode) == One(Known(info), n)
    ensures p < |s| && (Vex in ps.decoded ==> ps.vexPos + 1 < |s|)
    ensures D.InstructionAt(t, s, p, ps, mode) == D.Instruction(info, n) && n <= INST_MAXIMUM_SIZE
  {
    D.InstructionFits(t, s, p, ps, mode);
    ChunkIsVerdict(t, s, mode, p, ps, D.InstructionAt(t, s, p, ps, mode));
  }

  /** A VEX of two bytes with a REX among the prefixes in front of it. */
  predicate ShortVexBehindRex(s: seq<Byte>, mode: Mode) {
    var ps, k := PrefixesOf(s, mode), Leading(s, mode, 0);
    Vex in ps.decoded && Rex in ps.decoded && k < |s| && s[k] == 0xc5
  }

  lemma {:induction false} VexFrontIsWritten(t: Tables, s: seq<Byte>, mode: Mode, pre: seq<Written>, v: VexWritten,
                                             p: nat)
    requires t.WellFormed() && AllLegal(pre, mode) && v.Legal(mode) && p < |s| && p <= INST_MAXIMUM_SIZE
    requires Spelled(pre) + v.Bytes() == s[..p] && (v.Short? ==> Rex !in KindsIn(pre))
    ensures PrefixesOf(s, mode) == FactsWithVex(pre, v, mode)
    ensures Starts(t, pre, Some(v), mode, s, p, Left(pre, Some(v), mode))
  {
    var ps := Left(pre, Some(v), mode);
    assert s == Spelled(pre) + (v.Bytes() + s[p..]);
    VexIsRead(t, pre, v, s[p..], mode);
    VexIsReadBack(t, pre, v, mode, s, s[p..], ps);
  }

  lemma {:induction false} PlainFrontIsWritten(t: Tables, s: seq<Byte>, mode: Mode, p: nat) returns (pre: seq<Written>)
    requires t.WellFormed() && PrefixesOf(s, mode).last == Leading(s, mode, 0) == p < |s|
    ensures Starts(t, pre, None, mode, s, p, Left(pre, None, mode)) && PrefixesOf(s, mode) == Facts(pre)
  {
    pre := ReadIsSpelled(s, mode, p);
    LeftIsAdjusted(pre, mode);
  }

  lemma {:induction false} VexFrontIsThere(s: seq<Byte>, mode: Mode, k: nat, p: nat)
    returns (pre: seq<Written>, v: VexWritten)
    requires Leading(s, mode, 0) == k < p == PrefixesOf(s, mode).last && p <= |s| && !ShortVexBehindRex(s, mode)
    ensures AllLegal(pre, mode) && v.Legal(mode) && Spelled(pre) + v.Bytes() == s[..p]
    ensures v.Short? ==> Rex !in KindsIn(pre)
  {
    pre := ReadIsSpelled(s, mode, k);
    v := ReadIsVex(s, mode, k);
    assert s[..p] == s[..k] + s[k..p];
  }

  /** The prefixes of a stream as they are written. */
  lemma {:induction false} FrontIsWritten(t: Tables, s: seq<Byte>, mode: Mode)
    returns (pre: seq<Written>, vex: Option<VexWritten>)
    requires t.WellFormed() && PrefixesOf(s, mode).last < |s| && !ShortVexBehindRex(s, mode)
    ensures Starts(t, pre, vex, mode, s, PrefixesOf(s, mode).last, Adjusted(PrefixesOf(s, mode), mode))
  {
    var k, p := Leading(s, mode, 0), PrefixesOf(s, mode).last;
    if p == k {
      vex := None;
      pre := PlainFrontIsWritten(t, s, mode, p);
      LeftIsAdjusted(pre, mode);
    } else {
      var v;
      pre, v := VexFrontIsThere(s, mode, k, p);
      vex := Some(v);
      VexFrontIsWritten(t, s, mode, pre, v, p);
      VexLeftIsAdjusted(pre, v, mode);
    }
  }

  /**
   What is decoded is written: if a stream starts with an instruction, then it starts with code for that instruction,
   and the instruction ends where the code ends.  The one exception is a short VEX behind REX.
   */
  lemma {:induction false} DecodedIsWritten(t: Tables, s: seq<Byte>, mode: Mode, info: Info, n: nat)
    returns (code: Encoding, found: Info, left: Prefixes)
    requires t.WellFormed() && ChunkOf(t, s, mode) == One(Known(info), n) && !ShortVexBehindRex(s, mode)
    ensures code.Sized() && Assembles(t, code, mode, found, left, info)
    ensures n <= |s| && code.Bytes() == s[..n] && n <= 15
  {
    var p, ps := PrefixesOf(s, mode).last, Adjusted(PrefixesOf(s, mode), mode);
    ChunkIsInstruction(t, s, mode, info, n, p, ps);
    var pre, vex := FrontIsWritten(t, s, mode);
    code, found, left := InstructionIsWritten(t, pre, vex, mode, s, p, ps);
  }

  lemma {:induction false} NoneIsKnown(t: Tables, s: seq<Byte>, mode: Mode)
    requires t.WellFormed() && !ShortVexBehindRex(s, mode)
    requires forall code: Encoding, found, left, info ::
               code.Sized() && Assembles(t, code, mode, found, left, info) ==> !(code.Bytes() <= s)
    ensures !(ChunkOf(t, s, mode).One? && ChunkOf(t, s, mode).what.Known?)
  {
    if ChunkOf(t, s, mode).One? && ChunkOf(t, s, mode).what.Known? {
      var info, n := ChunkOf(t, s, mode).what.info, ChunkOf(t, s, mode).n;
      var code, found, left := DecodedIsWritten(t, s, mode, info, n);
      assert false;
    }
  }

  /**
   Everything else is dropped: a stream that starts with no code at all is dropped up to the first byte behind its
   prefixes, or ends there if that is WAIT; and nothing but prefixes is dropped as it is.
   */
  lemma {:induction false} NothingElseIsDecoded(t: Tables, s: seq<Byte>, mode: Mode)
    requires t.WellFormed() && !ShortVexBehindRex(s, mode)
    requires forall code: Encoding, found, left, info ::
               code.Sized() && Assembles(t, code, mode, found, left, info) ==> !(code.Bytes() <= s)
    ensures var p := PrefixesOf(s, mode).last;
            ChunkOf(t, s, mode)
            == if p == |s| || p == 15 then OnlyPrefixes(p)
               else if s[p] == 0x9b then One(What.Wait, p + 1)
               else Lost(p + 1)
  {
    var p, ps := PrefixesOf(s, mode).last, Adjusted(PrefixesOf(s, mode), mode);
    if p < |s| && p < INST_MAXIMUM_SIZE {
      ChunkIsVerdict(t, s, mode, p, ps, D.InstructionAt(t, s, p, ps, mode));
      NoneIsKnown(t, s, mode);
    }
  }

  // ---- Listings -----------------------------------------------------------------------------------

  /** The line is what `code` says, of at most fifteen bytes, and its opcode cannot be mistaken for a prefix. */
  ghost predicate Writes(t: Tables, line: Line, mode: Mode, code: Encoding, found: Info, left: Prefixes) {
    && code.Sized() && Assembles(t, code, mode, found, left, line.info) && code.Bytes() == line.bytes
    && |line.bytes| <= 15
    && (code.vex.None? ==> NoPrefix(code.Body(), mode) && (code.Body()[0] in [0xc4, 0xc5] ==> |code.Body()| > 1))
  }

  ghost predicate IsInstruction(t: Tables, line: Line, mode: Mode) {
    exists code, found, left :: Writes(t, line, mode, code, found, left)
  }

  /** A line from the parts of its instruction. */
  lemma {:induction false} LineFrom(t: Tables, line: Line, mode: Mode, code: Encoding, found: Info, left: Prefixes)
    requires AllLegal(code.pre, mode) && Allowed(found, mode, code.Modrm()) && |code.extra| == Extra(found)
    requires Leads(t, code.pre, code.vex, code.path, mode, found, left)
             == Pieces(Listed(found), D.ContextOf(found, code.Modrm(), D.WithoutOpSize(left), mode), true, code.tails)
             == true
    requires Suffixed(t, found, code.suffix, line.info)
    requires code.Sized() && code.Bytes() == line.bytes && |line.bytes| <= 15
    requires code.vex.None? ==> NoPrefix(code.Body(), mode) && (code.Body()[0] in [0xc4, 0xc5] ==> |code.Body()| > 1)
    ensures IsInstruction(t, line, mode)
  {
    assert Writes(t, line, mode, code, found, left);
  }

  /** So a decoder that follows the tables takes each line of a listing for what it says, whatever follows. */
  lemma {:induction false} LineIsTaken(t: Tables, line: Line, mode: Mode)
    requires t.WellFormed() && IsInstruction(t, line, mode)
    ensures Takes(Steps(t, mode), line)
  {
    var code, found, left :| Writes(t, line, mode, code, found, left);
    var body := code.Body();
    forall rest
      ensures Steps(t, mode)(line.bytes + rest) == One(Known(line.info), |line.bytes|)
    {
      assert (body + rest)[0] == body[0] && (|body| > 1 ==> (body + rest)[1] == body[1]);
      WrittenIsDecoded(t, code, mode, found, left, line.info, rest);
    }
  }
}
