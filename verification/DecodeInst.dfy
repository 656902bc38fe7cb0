/** Decoding one instruction behind its prefixes. */
module DecodeInst {
  import opened Wrappers
  import opened X86
  import opened PrefixScan
  import opened OpcodeTrie
  import opened OperandBytes
  import opened DecodeRun

  /** What a stream holds behind the prefixes: an instruction that ends before `end`, or nothing that can be decoded. */
  datatype Decoded = Undecodable | Instruction(info: Info, end: nat)

  // ---- What is decoded -------------------------------------------------------------

  /** REX.W has precedence over 66, unless that is part of the opcode. */
  function WithoutOpSize(ps: Prefixes): Prefixes {
    if ps.ext == RexExt && OpSize in ps.decoded && !ps.opSizeMandatory && ExW in ps.vrex then WithoutPrefix(ps, OpSize)
    else ps
  }

  predicate Suits(info: Info, mode: Mode) {
    !(mode == Bits64 && Invalid64 in info.flags) && !(mode != Bits64 && Fetch64 in info.flags)
  }

  /** Where the ModR/M byte is, or for an instruction without one its last opcode byte. */
  function ModrmAt(info: Info, at: nat): nat {
    if ModrmRequired in info.flags && ModrmIncluded !in info.flags then at + 1 else at
  }

  predicate ModrmSuits(info: Info, modrm: Byte) {
    !(ForceReg0 in info.flags && Reg(modrm) != 0) && !(ModRR in info.flags && modrm < INST_DIVIDED_MODRM)
  }

  function ContextOf(info: Info, modrm: Byte, ps: Prefixes, mode: Mode): Context {
    Context(mode, EffectiveOpSize(mode, ps.decoded, ps.vrex, info.flags), EffectiveAddrSize(mode, ps.decoded),
            if ModrmRequired in info.flags then modrm else 0, ps, info.flags)
  }

  /** Behind the operands: the byte that tells 3DNow! instructions apart, and the comparison byte of some others. */
  function Suffix(t: Tables, info: Info, s: seq<Byte>, q: nat): Decoded
    requires t.WellFormed()
  {
    var now := if Fetch3DNow in info.flags then ThreeDNow(t, s, q) else Some(info);
    var r := if Fetch3DNow in info.flags then q + 1 else q;
    if now.None? then Undecodable
    else if PseudoOpcode !in now.value.flags then Instruction(now.value, r)
    else if r < |s| && s[r] < INST_CMP_MAX_RANGE then Instruction(now.value, r + 1)
    else Undecodable
  }

  /** From the last opcode byte or the ModR/M byte at `m` on. */
  function Behind(t: Tables, info: Info, m: nat, ps: Prefixes, s: seq<Byte>, mode: Mode): Decoded
    requires t.WellFormed() && m < |s|
  {
    var q := Operands(info, ContextOf(info, s[m], ps, mode), s, m + 1);
    if q.None? then Undecodable
    else
      var d := Suffix(t, info, s, q.value);
      if d.Instruction? && d.end <= INST_MAXIMUM_SIZE then d else Undecodable
  }

  /** From an instruction that was found in the trie. */
  function Rest(t: Tables, info: Info, at: nat, ps: Prefixes, s: seq<Byte>, mode: Mode): Decoded
    requires t.WellFormed()
  {
    var m := ModrmAt(info, at);
    if !Suits(info, mode) || m >= |s| then Undecodable
    else if ModrmRequired in info.flags && !ModrmSuits(info, s[m]) then Undecodable
    else Behind(t, info, m, ps, s, mode)
  }

  /** The instruction at `p`, in a stream that starts with its first prefix. */
  function InstructionAt(t: Tables, s: seq<Byte>, p: nat, ps: Prefixes, mode: Mode): Decoded
    requires t.WellFormed() && p < |s| && (Vex in ps.decoded ==> ps.vexPos + 1 < |s|)
  {
    var found := Opcode(t, s, p, ps, mode);
    if found.NotFound? then Undecodable
    else Rest(t, found.info, found.at, WithoutOpSize(found.ps), s, mode)
  }

  lemma {:induction false} SuffixFits(t: Tables, info: Info, s: seq<Byte>, q: nat)
    requires t.WellFormed() && q <= |s|
    ensures Suffix(t, info, s, q).Instruction? ==> q <= Suffix(t, info, s, q).end <= |s|
  {
  }

  /**
   A decoded instruction has at least one byte and lies inside the stream, and with its prefixes it is at most
   fifteen bytes long.
   */
  lemma {:induction false} InstructionFits(t: Tables, s: seq<Byte>, p: nat, ps: Prefixes, mode: Mode)
    requires t.WellFormed() && p < |s| && (Vex in ps.decoded ==> ps.vexPos + 1 < |s|)
    ensures var d := InstructionAt(t, s, p, ps, mode);
            d.Instruction? ==> p < d.end <= |s| && d.end <= INST_MAXIMUM_SIZE
  {
    OpcodeIsNear(t, s, p, ps, mode);
    var found := Opcode(t, s, p, ps, mode);
    if found.Found? && ModrmAt(found.info, found.at) < |s| {
      var m := ModrmAt(found.info, found.at);
      var q := Operands(found.info, ContextOf(found.info, s[m], WithoutOpSize(found.ps), mode), s, m + 1);
      if q.Some? {
        SuffixFits(t, found.info, s, q.value);
      }
    }
  }

  // ---- The decoder ---------------------------------------------------------------------

  datatype DecodeResult = Success | InputError

  datatype Verdict = Verdict(result: DecodeResult, what: What, size: int)

  /** What decode_inst answers: the fallback for what cannot be decoded is one byte long, and valid if that is WAIT. */
  function VerdictOn(d: Decoded, s: seq<Byte>, p: nat): Verdict
    requires p < |s|
  {
    match d
    case Instruction(info, end) => Verdict(Success, Known(info), end - p)
    case Undecodable =>
      if s[p] == INST_WAIT_INDEX then Verdict(Success, Wait, 1) else Verdict(InputError, Dropped(s[p]), 1)
  }

  /** The part of decode_inst that reads the ModR/M byte and checks it. */
  method ReadModrm(ci: CodeInfo, ii: Info) returns (ok: bool, modrm: Byte)
    requires ci.AtPaidByte()
    modifies ci
    ensures var m := ModrmAt(ii, old(ci.code));
            ok <==> m < |ci.bytes| && (ModrmRequired in ii.flags ==> ModrmSuits(ii, ci.bytes[m]))
    ensures ok ==>
              && ci.AtPaidByte() && ci.code == ModrmAt(ii, old(ci.code))
              && modrm == if ModrmRequired in ii.flags then ci.bytes[ci.code] else 0
  {
    modrm := 0;
    if ModrmRequired in ii.flags {
      if ModrmIncluded !in ii.flags {
        ok := ci.NextByte();
        if !ok {
          return;
        }
      }
      modrm := ci.bytes[ci.code];
      if ForceReg0 in ii.flags && Reg(modrm) != 0 {
        return false, modrm;
      }
      if ModRR in ii.flags && modrm < INST_DIVIDED_MODRM {
        return false, modrm;
      }
    }
    ok := true;
  }

  method DecodeSuffix(t: Tables, ci: CodeInfo, info: Info) returns (ok: bool, ii: Info)
    requires t.WellFormed() && ci.AtUnpaidByte()
    modifies ci
    ensures var d := Suffix(t, info, ci.bytes, old(ci.code));
            if ok then d == Instruction(ii, ci.code) && ci.AtUnpaidByte() else d == Undecodable
  {
    ii := info;
    if Fetch3DNow in ii.flags {
      var now := Lookup3DNow(t, ci);
      if now.None? {
        return false, ii;
      }
      ii := now.value;
    }
    if PseudoOpcode in ii.flags {
      ci.codeLen := ci.codeLen - 1;
      if ci.codeLen < 0 {
        return false, ii;
      }
      var cmpType := ci.bytes[ci.code];
      ci.code := ci.code + 1;
      if cmpType >= INST_CMP_MAX_RANGE {
        return false, ii;
      }
    }
    ok := true;
  }

  method DecodeBehind(t: Tables, ci: CodeInfo, info: Info, c: Context, ghost ps: Prefixes) returns (ok: bool, ii: Info)
    requires t.WellFormed() && ci.AtPaidByte() && c == ContextOf(info, ci.bytes[ci.code], ps, ci.mode)
    modifies ci
    ensures var d := Behind(t, info, old(ci.code), ps, ci.bytes, ci.mode);
            if ok then d == Instruction(ii, ci.code) && ci.AtUnpaidByte() else d == Undecodable
  {
    ii := info;
    ci.code := ci.code + 1;
    ok := ExtractAll(ci, ii, c);
    if !ok {
      return;
    }
    ok, ii := DecodeSuffix(t, ci, ii);
    if ok && ci.code > INST_MAXIMUM_SIZE {
      ok := false;
    }
  }

  /** decode_inst from the found instruction on; false is the jump to the undecodable case. */
  method DecodeFound(t: Tables, ci: CodeInfo, ps: PrefixState, info: Info) returns (ok: bool, ii: Info)
    requires t.WellFormed() && ci.AtPaidByte()
    modifies ci, ps
    ensures var d := Rest(t, info, old(ci.code), WithoutOpSize(old(ps.Value())), ci.bytes, ci.mode);
            if ok then d == Instruction(ii, ci.code) && ci.AtUnpaidByte() else d == Undecodable
  {
    ii := info;
    if ps.ext == RexExt && OpSize in ps.decoded && !ps.opSizeMandatory && ExW in ps.vrex {
      ps.decoded := ps.decoded - {OpSize};
    }
    if ci.mode == Bits64 && Invalid64 in ii.flags {
      return false, ii;
    }
    if ci.mode != Bits64 && Fetch64 in ii.flags {
      return false, ii;
    }
    var modrm;
    ok, modrm := ReadModrm(ci, ii);
    if !ok {
      return;
    }
    ok, ii := DecodeBehind(t, ci, ii, ContextOf(ii, modrm, ps.Value(), ci.mode), ps.Value());
  }

  /** decode_inst up to the undecodable case. */
  method TryDecode(t: Tables, ci: CodeInfo, ps: PrefixState) returns (ok: bool, info: Info)
    requires t.WellFormed() && ci.AtUnpaidByte() && ci.code < |ci.bytes|
    requires Vex in ps.decoded ==> ps.vexPos + 1 < |ci.bytes|
    modifies ci, ps
    ensures var d := InstructionAt(t, ci.bytes, old(ci.code), old(ps.Value()), ci.mode);
            if ok then d == Instruction(info, ci.code) && ci.AtUnpaidByte() else d == Undecodable
    ensures ok ==> old(ci.code) < ci.code
  {
    InstructionFits(t, ci.bytes, ci.code, ps.Value(), ci.mode);
    var ii := InstLookup(t, ci, ps);
    if ii.None? {
      return false, II_3DNOW;
    }
    ok, info := DecodeFound(t, ci, ps, ii.value);
  }

  /**
   decode_inst: on success without the fallback, the size is what the cursor advanced and what was paid for. The
   gates of the trie and the bytes of the stream are indexed in range throughout.
   */
  method Decode(t: Tables, ci: CodeInfo, ps: PrefixState) returns (result: DecodeResult, what: What, size: nat)
    requires t.WellFormed() && ci.AtUnpaidByte() && ci.code < |ci.bytes|
    requires Vex in ps.decoded ==> ps.vexPos + 1 < |ci.bytes|
    modifies ci, ps
    ensures var d := InstructionAt(t, ci.bytes, old(ci.code), old(ps.Value()), ci.mode);
            var v := VerdictOn(d, ci.bytes, old(ci.code));
            result == v.result && what == v.what && size == v.size
    ensures what.Known? ==> size == ci.code - old(ci.code) == old(ci.codeLen) - ci.codeLen
  {
    var startCode := ci.code;
    var ok, info := TryDecode(t, ci, ps);
    if ok {
      return Success, Known(info), ci.code - startCode;
    }
    if ci.bytes[startCode] == INST_WAIT_INDEX {
      return Success, Wait, 1;
    }
    return InputError, Dropped(ci.bytes[startCode]), 1;
  }
}
