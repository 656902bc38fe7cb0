/** The walk through the trie that finds the instruction a stream of bytes starts with. */
module OpcodeTrie {
  import opened Wrappers
  import opened X86
  import opened PrefixScan

  /** What a walk ends in: an instruction, the last byte looked at, and the prefixes that are left. */
  datatype Lookup = NotFound | Found(info: Info, at: nat, ps: Prefixes)

  function FromLeaf(n: Node, at: nat, ps: Prefixes): Lookup {
    if n.Leaf? then Found(n.info, at, ps) else NotFound
  }

  /** The three register bits of a byte. */
  function Reg(b: Byte): (r: nat)
    ensures r < 8
  {
    b / 8 % 8
  }

  /** Where the second byte leads in a list divided at 0xc0. */
  function DividedIndex(b: Byte): (i: nat)
    ensures i < 72
  {
    if b < INST_DIVIDED_MODRM then Reg(b) else b - INST_DIVIDED_MODRM + 8
  }

  // ---- Mandatory prefixes -------------------------------------------------------

  function WithoutPrefix(ps: Prefixes, p: Prefix): Prefixes { ps.(decoded := ps.decoded - {p}) }

  /** The first of two nodes that is an instruction. */
  function Else(n: Node, fallback: Node): Node { if n.Leaf? then n else fallback }

  /**
   The choice among the instructions of a prefixed list: none, 66, f3, f2. The chosen prefix is part of the opcode,
   and no longer a prefix; 66 beside f2 or f3 is kept if the instruction takes it, and f2 with f3 is illegal.
   */
  function Select(n: Node, at: nat, ps: Prefixes): Lookup
    requires IsPrefixed(n)
  {
    var op := OpSize in ps.decoded;
    if Rep in ps.decoded && Repnz in ps.decoded then NotFound
    else if Repnz in ps.decoded || Rep in ps.decoded then
      var rep := if Repnz in ps.decoded then Repnz else Rep;
      var m := n.kids[if rep == Repnz then 3 else 2];
      if !op then FromLeaf(Else(m, n.kids[0]), at, WithoutPrefix(ps, rep))
      else if m.Leaf? && TakesOpSize in m.info.flags then Found(m.info, at, WithoutPrefix(ps, rep))
      else NotFound
    else if op then FromLeaf(Else(n.kids[1], n.kids[0]), at, WithoutPrefix(ps, OpSize).(opSizeMandatory := true))
    else FromLeaf(n.kids[0], at, ps)
  }

  /** A leaf, or an instruction of a prefixed list. */
  function FromLeafy(n: Node, at: nat, ps: Prefixes): Lookup
    requires IsLeafy(n)
  {
    if n.Prefixed? then Select(n, at, ps) else FromLeaf(n, at, ps)
  }

  // ---- VEX ------------------------------------------------------------------------

  const NOT_WITH_VEX: set<Prefix> := {OpSize, Lock, Rep, Repnz, Rex}

  lemma {:induction false} Meets(decoded: set<Prefix>)
    ensures decoded * NOT_WITH_VEX != {} <==>
              OpSize in decoded || Lock in decoded || Rep in decoded || Repnz in decoded || Rex in decoded
  {
    var both := decoded * NOT_WITH_VEX;
    assert forall p | p in NOT_WITH_VEX :: p in both <==> p in decoded;
    if both != {} {
      var p :| p in both;
    }
  }

  function VexTable(t: Tables, s: seq<Byte>, ps: Prefixes): Option<Node>
    requires ps.vexPos < |s|
  {
    var start := if ps.ext == Vex2 then 1 else s[ps.vexPos] % 0x20;
    if start == 1 then Some(t.table0F)
    else if start == 2 then Some(t.table0F38)
    else if start == 3 then Some(t.table0F3A)
    else None
  }

  /** The index in a prefixed list: from 4 on with a register in vvvv, from 8 on without. */
  function VexIndex(s: seq<Byte>, ps: Prefixes): (i: nat)
    requires ps.vexPos + 1 < |s|
    ensures 4 <= i < 12
  {
    var vex := if ps.ext == Vex2 then s[ps.vexPos] else s[ps.vexPos + 1];
    var v := 15 - vex / 8 % 16;
    4 + (if v == 0 then 4 else 0) + vex % 4
  }

  function VexKid(n: Node, index: nat, at: nat, ps: Prefixes): Lookup
    requires IsLeafy(n) && index < 12
  {
    if n.Prefixed? then FromLeaf(n.kids[index], at, ps) else NotFound
  }

  function VexFound(t: Tables, s: seq<Byte>, p: nat, ps: Prefixes): Lookup
    requires t.WellFormed() && p < |s| && ps.vexPos + 1 < |s|
  {
    var table := VexTable(t, s, ps);
    if ps.decoded * NOT_WITH_VEX != {} || table.None? then NotFound
    else
      var n, index := table.value.kids[s[p]], VexIndex(s, ps);
      match n
      case Prefixed(_) => VexKid(n, index, p, ps)
      case Group(kids) => if p + 1 < |s| then VexKid(kids[Reg(s[p + 1])], index, p + 1, ps) else NotFound
      case Full(kids) => if p + 1 < |s| then VexKid(kids[s[p + 1]], index, p + 1, ps) else NotFound
      case _ => NotFound
  }

  // ---- Without VEX ----------------------------------------------------------------

  /** Single byte instructions, a few of which are special. */
  function OneByte(t: Tables, info: Info, b: Byte, at: nat, ps: Prefixes, mode: Mode): Lookup {
    if b == INST_ARPL_INDEX then Found(if mode == Bits64 then t.movsxd else t.arpl, at, ps)
    else if b == INST_NOP_INDEX then
      if Rep in ps.decoded then Found(t.pause, at, ps)
      else if mode != Bits64 || ExB !in ps.vrex then Found(t.nop, at, ps)
      else Found(info, at, ps)
    else if b == INST_LEA_INDEX then Found(info, at, ps.(decoded := ps.decoded - SEGMENTS))
    else Found(info, at, ps)
  }

  /** With the second byte at `r` in a divided list. */
  function DividedByte(kids: seq<Node>, s: seq<Byte>, r: nat, wait: bool, ps: Prefixes): Lookup
    requires |kids| == 72 && (forall i | 0 <= i < 72 :: IsLeafy(kids[i])) && r < |s|
  {
    var m := kids[DividedIndex(s[r])];
    assert IsLeafy(m);
    if m.Prefixed? then FromLeaf(m.kids[if wait then 1 else 0], r, ps)
    else if m.Leaf? && wait && TakesOpSize !in m.info.flags then NotFound
    else FromLeaf(m, r, ps)
  }

  /** With the third byte at `u`, the second having led to `m`. */
  function ThirdByte(m: Node, s: seq<Byte>, u: nat, ps: Prefixes): Lookup
    requires IsSecond(m) && u < |s|
  {
    match m
    case Group(kids) => FromLeafy(kids[Reg(s[u])], u, ps)
    case Divided(kids) =>
      var x := kids[Reg(s[u])];
      if x.Leaf? && NotDivided in x.info.flags then Found(x.info, u, ps)
      else if s[u] >= INST_DIVIDED_MODRM then FromLeaf(kids[DividedIndex(s[u])], u, ps)
      else FromLeaf(x, u, ps)
    case Full(kids) => FromLeafy(kids[s[u]], u, ps)
    case _ => NotFound
  }

  /** With the first byte `first`, and the second at `r` in the list of 256. */
  function SecondByte(kids: seq<Node>, first: Byte, s: seq<Byte>, r: nat, ps: Prefixes): Lookup
    requires |kids| == 256 && (forall i | 0 <= i < 256 :: IsSecond(kids[i])) && r < |s|
  {
    var m := kids[s[r]];
    if m.Nothing? then NotFound
    else if first == ESCAPE_BYTE_3DNOW && s[r] == ESCAPE_BYTE_3DNOW then Found(II_3DNOW, r, ps)
    else if IsLeafy(m) then FromLeafy(m, r, ps)
    else if r + 1 < |s| then ThirdByte(m, s, r + 1, ps)
    else NotFound
  }

  /** From the first opcode byte at `q`; `wait` says that it follows 0x9b. */
  function FirstByte(t: Tables, s: seq<Byte>, q: nat, wait: bool, ps: Prefixes, mode: Mode): Lookup
    requires t.WellFormed() && q < |s|
  {
    var n := t.root.kids[s[q]];
    if n.Leaf? && !wait then OneByte(t, n.info, s[q], q, ps, mode)
    else if q + 1 >= |s| then NotFound
    else
      match n
      case Group(kids) => if wait then NotFound else FromLeaf(kids[Reg(s[q + 1])], q + 1, ps)
      case Divided(kids) => DividedByte(kids, s, q + 1, wait, ps)
      case Full(kids) => if wait then NotFound else SecondByte(kids, s[q], s, q + 1, ps)
      case _ => NotFound
  }

  /** The instruction at `p`, after the prefixes `ps`. */
  function Opcode(t: Tables, s: seq<Byte>, p: nat, ps: Prefixes, mode: Mode): Lookup
    requires t.WellFormed() && p < |s| && (Vex in ps.decoded ==> ps.vexPos + 1 < |s|)
  {
    if Vex in ps.decoded then
      var found := VexFound(t, s, p, ps);
      if found.Found? && ForceVexL in found.info.flags && ExL !in ps.vrex then NotFound else found
    else if s[p] == INST_WAIT_INDEX then
      if p + 1 < |s| then FirstByte(t, s, p + 1, true, ps, mode) else NotFound
    else FirstByte(t, s, p, false, ps, mode)
  }

  /** A 3DNow! instruction is found by the byte after its operands. */
  function ThreeDNow(t: Tables, s: seq<Byte>, p: nat): Option<Info>
    requires t.WellFormed()
  {
    if p < |s| && t.table3DNow.kids[s[p]].Leaf? then Some(t.table3DNow.kids[s[p]].info) else None
  }

  // ---- What every walk keeps --------------------------------------------------------

  /** The prefixes that a walk may leave: the same, or with fewer kinds. */
  predicate Fewer(ps: Prefixes, ps': Prefixes) {
    && ps'.decoded <= ps.decoded && ps'.vrex == ps.vrex && ps'.ext == ps.ext && ps'.last == ps.last
    && ps'.vexPos == ps.vexPos && ps'.rexPos == ps.rexPos
  }

  predicate Near(found: Lookup, p: nat, far: nat, s: seq<Byte>, ps: Prefixes) {
    found.Found? ==> p <= found.at <= p + far && found.at < |s| && Fewer(ps, found.ps)
  }

  lemma {:induction false} SecondIsNear(kids: seq<Node>, first: Byte, s: seq<Byte>, r: nat, ps: Prefixes)
    requires |kids| == 256 && (forall i | 0 <= i < 256 :: IsSecond(kids[i])) && r < |s|
    ensures Near(SecondByte(kids, first, s, r, ps), r, 1, s, ps)
  {
  }

  /**
   An opcode is at most three bytes long, the WAIT of some coprocessor instructions included, and inside the stream.
   */
  lemma {:induction false} OpcodeIsNear(t: Tables, s: seq<Byte>, p: nat, ps: Prefixes, mode: Mode)
    requires t.WellFormed() && p < |s| && (Vex in ps.decoded ==> ps.vexPos + 1 < |s|)
    ensures Near(Opcode(t, s, p, ps, mode), p, 2, s, ps)
  {
    if Vex !in ps.decoded {
      var q := if s[p] == INST_WAIT_INDEX then p + 1 else p;
      if q + 1 < |s| && t.root.kids[s[q]].Full? {
        SecondIsNear(t.root.kids[s[q]].kids, s[q], s, q + 1, ps);
      }
    }
  }

  // ---- The walk ---------------------------------------------------------------------

  /**
   The stream from the first prefix of an instruction on, the place in it, and how many bytes are not yet paid for.
   */
  class CodeInfo {
    const bytes: seq<Byte>
    const mode: Mode
    var code: nat
    var codeLen: int

    constructor (bytes: seq<Byte>, mode: Mode, code: nat)
      requires code <= |bytes|
      ensures this.bytes == bytes && this.mode == mode && this.code == code && codeLen == |bytes| - code
    {
      this.bytes, this.mode, this.code := bytes, mode, code;
      codeLen := |bytes| - code;
    }

    /** Every byte up to the current one is paid for, and the current one too. */
    predicate AtPaidByte()
      reads this
    {
      code < |bytes| && code + 1 + codeLen == |bytes|
    }

    predicate AtUnpaidByte()
      reads this
    {
      code <= |bytes| && code + codeLen == |bytes|
    }

    /** Go on to the next byte and pay for it, if there is one. */
    method NextByte() returns (ok: bool)
      requires AtPaidByte()
      modifies this
      ensures ok <==> old(code) + 1 < |bytes|
      ensures code == old(code) + 1 && (ok ==> AtPaidByte())
    {
      code := code + 1;
      codeLen := codeLen - 1;
      ok := codeLen >= 0;
    }

    method FirstByte() returns (ok: bool)
      requires AtUnpaidByte()
      modifies this
      ensures code == old(code) && (ok <==> code < |bytes|) && (ok ==> AtPaidByte())
    {
      codeLen := codeLen - 1;
      ok := codeLen >= 0;
    }
  }

  /** What a method of the walk did, against the specification of the walk. */
  predicate Outcome(ii: Option<Info>, ci: CodeInfo, ps: PrefixState, expected: Lookup)
    reads ci, ps
  {
    if expected.NotFound? then ii.None?
    else ii == Some(expected.info) && ci.AtPaidByte() && ci.code == expected.at && ps.Value() == expected.ps
  }

  function AsInfo(n: Node): Option<Info> { if n.Leaf? then Some(n.info) else None }

  /** inst_lookup_prefixed */
  method LookupPrefixed(n: Node, ps: PrefixState, ghost at: nat) returns (ii: Option<Info>)
    requires IsPrefixed(n)
    modifies ps
    ensures var expected := Select(n, at, old(ps.Value()));
            if expected.NotFound? then ii.None? else ii == Some(expected.info) && ps.Value() == expected.ps
  {
    ii := None;
    if OpSize !in ps.decoded && Rep !in ps.decoded && Repnz !in ps.decoded {
      ii := AsInfo(n.kids[0]);
    } else if Rep !in ps.decoded && Repnz !in ps.decoded {
      ii := AsInfo(n.kids[1]);
      ps.opSizeMandatory := true;
      ps.decoded := ps.decoded - {OpSize};
    } else if OpSize !in ps.decoded && Repnz !in ps.decoded {
      ii := AsInfo(n.kids[2]);
      ps.decoded := ps.decoded - {Rep};
    } else if OpSize !in ps.decoded && Rep !in ps.decoded {
      ii := AsInfo(n.kids[3]);
      ps.decoded := ps.decoded - {Repnz};
    } else {
      if Rep in ps.decoded && Repnz in ps.decoded {
        return None;
      }
      if Repnz in ps.decoded {
        ii := AsInfo(n.kids[3]);
        ps.decoded := ps.decoded - {Repnz};
      } else if Rep in ps.decoded {
        ii := AsInfo(n.kids[2]);
        ps.decoded := ps.decoded - {Rep};
      }
      if ii.None? || TakesOpSize !in ii.value.flags {
        return None;
      }
    }
    if ii.None? {
      ii := AsInfo(n.kids[0]);
    }
  }

  /** inst_vex_lookup */
  method LookupVex(t: Tables, ci: CodeInfo, ps: PrefixState) returns (ii: Option<Info>)
    requires t.WellFormed() && ci.AtUnpaidByte() && ci.code < |ci.bytes| && ps.vexPos + 1 < |ci.bytes|
    modifies ci
    ensures Outcome(ii, ci, ps, VexFound(t, ci.bytes, old(ci.code), old(ps.Value())))
  {
    if ps.decoded * NOT_WITH_VEX != {} {
      return None;
    }
    var table := VexTable(t, ci.bytes, ps.Value());
    if table.None? {
      return None;
    }
    var index := VexIndex(ci.bytes, ps.Value());
    var ok := ci.FirstByte();
    var n := table.value.kids[ci.bytes[ci.code]];
    if n.Prefixed? {
      return AsInfo(n.kids[index]);
    }
    if n.Nothing? || n.Leaf? || n.Divided? {
      return None;
    }
    ok := ci.NextByte();
    if !ok {
      return None;
    }
    var m := n.kids[if n.Group? then Reg(ci.bytes[ci.code]) else ci.bytes[ci.code]];
    ii := if m.Prefixed? then AsInfo(m.kids[index]) else None;
  }

  /** The part of inst_lookup for single byte instructions. */
  method LookupOneByte(t: Tables, info: Info, ci: CodeInfo, ps: PrefixState) returns (ii: Option<Info>)
    requires ci.AtPaidByte()
    modifies ps
    ensures Outcome(ii, ci, ps, OneByte(t, info, ci.bytes[ci.code], ci.code, old(ps.Value()), ci.mode))
  {
    var index := ci.bytes[ci.code];
    if index == INST_ARPL_INDEX {
      return Some(if ci.mode == Bits64 then t.movsxd else t.arpl);
    } else if index == INST_NOP_INDEX {
      if Rep in ps.decoded {
        return Some(t.pause);
      }
      if ci.mode != Bits64 || ExB !in ps.vrex {
        return Some(t.nop);
      }
      return Some(info);
    } else if index == INST_LEA_INDEX {
      ps.decoded := ps.decoded - SEGMENTS;
    }
    ii := Some(info);
  }

  method LookupThird(n: Node, ci: CodeInfo, ps: PrefixState) returns (ii: Option<Info>)
    requires IsSecond(n) && !IsLeafy(n) && ci.AtPaidByte()
    modifies ps
    ensures Outcome(ii, ci, ps, ThirdByte(n, ci.bytes, ci.code, old(ps.Value())))
  {
    var index := ci.bytes[ci.code];
    var m := n.kids[Reg(index)];
    if n.Group? {
      if m.Nothing? {
        return None;
      }
      if m.Leaf? {
        return Some(m.info);
      }
      ii := LookupPrefixed(m, ps, ci.code);
      return;
    }
    if n.Divided? {
      if m.Leaf? && NotDivided in m.info.flags {
        return Some(m.info);
      }
      if index >= INST_DIVIDED_MODRM {
        m := n.kids[index - INST_DIVIDED_MODRM + 8];
      }
      return AsInfo(m);
    }
    m := n.kids[index];
    if m.Prefixed? {
      ii := LookupPrefixed(m, ps, ci.code);
    } else {
      ii := AsInfo(m);
    }
  }

  /** The part of inst_lookup for a second byte in a list of 256, and a third byte. */
  method LookupLonger(kids: seq<Node>, first: Byte, ci: CodeInfo, ps: PrefixState) returns (ii: Option<Info>)
    requires |kids| == 256 && (forall i | 0 <= i < 256 :: IsSecond(kids[i])) && ci.AtPaidByte()
    modifies ci, ps
    ensures Outcome(ii, ci, ps, SecondByte(kids, first, ci.bytes, old(ci.code), old(ps.Value())))
  {
    var n := kids[ci.bytes[ci.code]];
    if n.Nothing? {
      return None;
    }
    if first == ESCAPE_BYTE_3DNOW && ci.bytes[ci.code] == ESCAPE_BYTE_3DNOW {
      return Some(II_3DNOW);
    }
    if n.Leaf? {
      return Some(n.info);
    }
    if n.Prefixed? {
      ii := LookupPrefixed(n, ps, ci.code);
      return;
    }
    var ok := ci.NextByte();
    if !ok {
      return None;
    }
    ii := LookupThird(n, ci, ps);
  }

  /** inst_lookup from the first opcode byte on, with `wait` if it follows 0x9b. */
  method LookupFirst(t: Tables, ci: CodeInfo, ps: PrefixState, wait: bool) returns (ii: Option<Info>)
    requires t.WellFormed() && ci.AtPaidByte()
    modifies ci, ps
    ensures Outcome(ii, ci, ps, FirstByte(t, ci.bytes, old(ci.code), wait, old(ps.Value()), ci.mode))
  {
    var index := ci.bytes[ci.code];
    var n := t.root.kids[index];
    if n.Nothing? {
      return None;
    }
    if n.Leaf? && !wait {
      ii := LookupOneByte(t, n.info, ci, ps);
      return;
    }
    var ok := ci.NextByte();
    if !ok {
      return None;
    }
    if n.Group? && !wait {
      return AsInfo(n.kids[Reg(ci.bytes[ci.code])]);
    }
    if n.Divided? {
      var m := n.kids[DividedIndex(ci.bytes[ci.code])];
      if m.Prefixed? {
        return AsInfo(m.kids[if wait then 1 else 0]);
      }
      if m.Leaf? && TakesOpSize !in m.info.flags && wait {
        return None;
      }
      return AsInfo(m);
    }
    if wait {
      return None;
    }
    ii := LookupLonger(n.kids, index, ci, ps);
  }

  /** inst_lookup */
  method InstLookup(t: Tables, ci: CodeInfo, ps: PrefixState) returns (ii: Option<Info>)
    requires t.WellFormed() && ci.AtUnpaidByte() && ci.code < |ci.bytes|
    requires Vex in ps.decoded ==> ps.vexPos + 1 < |ci.bytes|
    modifies ci, ps
    ensures Outcome(ii, ci, ps, Opcode(t, ci.bytes, old(ci.code), old(ps.Value()), ci.mode))
  {
    if Vex in ps.decoded {
      ii := LookupVex(t, ci, ps);
      if ii.Some? && ForceVexL in ii.value.flags && ExL !in ps.vrex {
        return None;
      }
      return;
    }
    var ok := ci.FirstByte();
    var wait := false;
    if ci.bytes[ci.code] == INST_WAIT_INDEX {
      wait := true;
      ok := ci.NextByte();
      if !ok {
        return None;
      }
    }
    ii := LookupFirst(t, ci, ps, wait);
  }

  /** inst_lookup_3dnow */
  method Lookup3DNow(t: Tables, ci: CodeInfo) returns (ii: Option<Info>)
    requires t.WellFormed() && ci.AtUnpaidByte()
    modifies ci
    ensures ii == ThreeDNow(t, ci.bytes, old(ci.code))
    ensures ci.AtUnpaidByte() && ci.code == old(ci.code) + if ii.Some? then 1 else 0
  {
    if ci.codeLen < 1 {
      return None;
    }
    var n := t.table3DNow.kids[ci.bytes[ci.code]];
    if n.Leaf? {
      ci.codeLen := ci.codeLen - 1;
      ci.code := ci.code + 1;
      return Some(n.info);
    }
    ii := None;
  }
}
