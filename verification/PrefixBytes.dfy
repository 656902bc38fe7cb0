/** How prefixes are spelled: the bytes of each, and that the scan reads back what is spelled. */
module PrefixBytes {
  import opened Wrappers
  import opened X86
  import opened PrefixScan
  import opened OpcodeTrie

  // ---- Single prefixes ----------------------------------------------------------------------------

  /** A prefix as it is written: one of the legacy prefixes, or REX with its bits. */
  datatype Written = Legacy(p: Prefix) | RexWith(bits: set<Ex>)
  {
    predicate Legal(mode: Mode) {
      match this
      case Legacy(p) => p != Rex && p != Vex
      case RexWith(bits) => mode == Bits64 && ExL !in bits
    }

    function Kind(): Prefix { if Legacy? then p else Rex }
  }

  function RexByte(bits: set<Ex>): Byte {
    0x40 + (if ExW in bits then 8 else 0) + (if ExR in bits then 4 else 0) + (if ExX in bits then 2 else 0)
    + (if ExB in bits then 1 else 0)
  }

  function LegacyByte(p: Prefix): Byte {
    match p
    case Lock => 0xf0
    case Repnz => 0xf2
    case Rep => 0xf3
    case Cs => 0x2e
    case Ss => 0x36
    case Ds => 0x3e
    case Es => 0x26
    case Fs => 0x64
    case Gs => 0x65
    case OpSize => 0x66
    case AddrSize => 0x67
    case Rex => 0x40
    case Vex => 0xc5
  }

  function ByteOf(w: Written): Byte { if w.Legacy? then LegacyByte(w.p) else RexByte(w.bits) }

  /** Four bits make a number below 16, and come back out of it. */
  lemma {:induction false} FourBits(r: nat)
    requires r < 16
    ensures r == r / 8 % 2 * 8 + r / 4 % 2 * 4 + r / 2 % 2 * 2 + r % 2
    ensures Bit(0x40 + r, 1) == Bit(r, 1) && Bit(0x40 + r, 2) == Bit(r, 2)
    ensures Bit(0x40 + r, 4) == Bit(r, 4) && Bit(0x40 + r, 8) == Bit(r, 8)
  {
  }

  lemma {:induction false} RexIsRead(bits: set<Ex>)
    requires ExL !in bits
    ensures 0x40 <= RexByte(bits) <= 0x4f && RexBits(RexByte(bits)) == bits
  {
    var b := RexByte(bits);
    assert Bit(b, 1) <==> ExB in bits;
    assert Bit(b, 2) <==> ExX in bits;
    assert Bit(b, 4) <==> ExR in bits;
    assert Bit(b, 8) <==> ExW in bits;
    forall e: Ex
      ensures e in RexBits(b) <==> e in bits
    {
      match e {
        case ExB =>
        case ExX =>
        case ExR =>
        case ExW =>
        case ExL =>
      }
    }
  }

  lemma {:induction false} RexIsWritten(b: Byte)
    requires 0x40 <= b <= 0x4f
    ensures ExL !in RexBits(b) && RexByte(RexBits(b)) == b
  {
    FourBits(b - 0x40);
  }

  /** A byte is a prefix if and only if some prefix that is legal in this mode is written as that byte. */
  lemma {:induction false} PrefixIsByte(b: Byte, mode: Mode, w: Written)
    ensures w.Legal(mode) && ByteOf(w) == b ==> PrefixOf(b, mode) == Some(w.Kind())
    ensures PrefixOf(b, mode).Some? ==> exists x: Written :: x.Legal(mode) && ByteOf(x) == b
  {
    if w.RexWith? && w.Legal(mode) {
      RexIsRead(w.bits);
    }
    if PrefixOf(b, mode) == Some(Rex) {
      RexIsWritten(b);
      assert ByteOf(RexWith(RexBits(b))) == b;
    } else if PrefixOf(b, mode).Some? {
      assert ByteOf(Legacy(PrefixOf(b, mode).value)) == b;
    }
  }

  // ---- All prefixes of an instruction -------------------------------------------------------------

  function Spelled(pre: seq<Written>): (s: seq<Byte>)
    ensures |s| == |pre| && forall i | 0 <= i < |pre| :: s[i] == ByteOf(pre[i])
  {
    seq(|pre|, i requires 0 <= i < |pre| => ByteOf(pre[i]))
  }

  ghost predicate AllLegal(pre: seq<Written>, mode: Mode) { forall w | w in pre :: w.Legal(mode) }

  ghost function KindsIn(pre: seq<Written>): set<Prefix> { set w | w in pre :: w.Kind() }

  /** The bits and the place of the last REX. */
  function LastBits(pre: seq<Written>): set<Ex> {
    if pre == [] then {}
    else if pre[|pre| - 1].RexWith? then pre[|pre| - 1].bits else LastBits(pre[..|pre| - 1])
  }

  function LastPlace(pre: seq<Written>): nat {
    if pre == [] then 0
    else if pre[|pre| - 1].RexWith? then |pre| - 1 else LastPlace(pre[..|pre| - 1])
  }

  /** What is known of such prefixes. */
  ghost function Facts(pre: seq<Written>): Prefixes {
    Prefixes(KindsIn(pre), LastBits(pre), if Rex in KindsIn(pre) then RexExt else NoExt, LastPlace(pre), 0, |pre|,
             false)
  }

  lemma {:induction false} KindsInMore(pre: seq<Written>, w: Written)
    ensures KindsIn(pre + [w]) == KindsIn(pre) + {w.Kind()}
  {
    forall p
      ensures p in KindsIn(pre + [w]) <==> p in KindsIn(pre) + {w.Kind()}
    {
      if p in KindsIn(pre) {
        var x :| x in pre && x.Kind() == p;
        assert x in pre + [w];
      }
      if p == w.Kind() {
        assert w in pre + [w];
      }
    }
  }

  lemma {:induction false} ScannedOne(s: seq<Byte>, mode: Mode, k: nat, w: Written)
    requires k < |s| && w.Legal(mode) && s[k] == ByteOf(w) && forall i | 0 <= i < k :: PrefixOf(s[i], mode).Some?
    ensures PrefixOf(s[k], mode) == Some(w.Kind())
    ensures var before := Scanned(s, mode, k);
            Scanned(s, mode, k + 1)
            == if w.Legacy? then before.(decoded := before.decoded + {w.p}, last := k + 1)
               else
                 before.(decoded := before.decoded + {Rex}, vrex := w.bits, ext := RexExt, rexPos := k,
                         last := k + 1)
  {
    PrefixIsByte(s[k], mode, w);
    if w.RexWith? {
      RexIsRead(w.bits);
    }
  }

  lemma {:induction false} ScannedSpelled(s: seq<Byte>, mode: Mode, pre: seq<Written>)
    requires AllLegal(pre, mode) && Spelled(pre) <= s
    ensures forall i | 0 <= i < |pre| :: PrefixOf(s[i], mode).Some?
    ensures Scanned(s, mode, |pre|) == Facts(pre)
  {
    if pre != [] {
      var k := |pre| - 1;
      var before, w := pre[..k], pre[k];
      assert pre == before + [w] && Spelled(before) <= s && s[k] == Spelled(pre)[k];
      ScannedSpelled(s, mode, before);
      KindsInMore(before, w);
      ScannedOne(s, mode, k, w);
      assert w in pre && (w.RexWith? <==> w.Kind() == Rex);
    }
  }

  /** What does not start with a prefix: c4 and c5 are VEX in 64 bits, and elsewhere if mod is 11 in the next byte. */
  predicate NoPrefix(body: seq<Byte>, mode: Mode) {
    body != [] ==>
      && !(mode == Bits64 && 0x40 <= body[0] <= 0x4f)
      && body[0] !in [0xf0, 0xf2, 0xf3, 0x2e, 0x36, 0x3e, 0x26, 0x64, 0x65, 0x66, 0x67]
      && (body[0] in [0xc4, 0xc5] && |body| > 1 ==> mode != Bits64 && body[1] < 0xc0)
  }

  lemma {:induction false} LeadingIs(s: seq<Byte>, mode: Mode, k: nat, n: nat)
    requires k <= n <= |s| && n <= INST_MAXIMUM_SIZE
    requires forall i | k <= i < n :: PrefixOf(s[i], mode).Some?
    requires n < |s| && n < INST_MAXIMUM_SIZE ==> PrefixOf(s[n], mode).None?
    ensures Leading(s, mode, k) == n
    decreases n - k
  {
    if k < n {
      LeadingIs(s, mode, k + 1, n);
    }
  }

  /**
   The prefixes of a stream that is spelled as up to fifteen prefixes and something that starts with none are those:
   each kind counts once, and of several REX the last.
   */
  lemma {:induction false} SpelledIsRead(pre: seq<Written>, body: seq<Byte>, mode: Mode)
    requires AllLegal(pre, mode) && |pre| <= INST_MAXIMUM_SIZE && NoPrefix(body, mode)
    ensures PrefixesOf(Spelled(pre) + body, mode) == Facts(pre)
  {
    var s := Spelled(pre) + body;
    ScannedSpelled(s, mode, pre);
    assert body != [] ==> s[|pre|] == body[0];
    assert |body| > 1 ==> s[|pre| + 1] == body[1];
    LeadingIs(s, mode, 0, |pre|);
  }

  /** The prefixes that a stream starts with are spelled there. */
  lemma {:induction false} ReadIsSpelled(s: seq<Byte>, mode: Mode, k: nat) returns (pre: seq<Written>)
    requires k <= |s| && forall i | 0 <= i < k :: PrefixOf(s[i], mode).Some?
    ensures AllLegal(pre, mode) && Spelled(pre) == s[..k] && |pre| == k && Scanned(s, mode, k) == Facts(pre)
  {
    if k == 0 {
      pre := [];
    } else {
      var before := ReadIsSpelled(s, mode, k - 1);
      PrefixIsByte(s[k - 1], mode, Legacy(Rex));
      var w: Written :| w.Legal(mode) && ByteOf(w) == s[k - 1];
      pre := before + [w];
      assert s[..k] == s[..k - 1] + [s[k - 1]];
    }
    ScannedSpelled(s, mode, pre);
  }

  // ---- VEX ----------------------------------------------------------------------------------------

  /**
   VEX as it is written: the bits that extend the instruction, the register in vvvv, the vector length, the prefix it
   stands for (0 none, 1 for 66, 2 for f3, 3 for f2), and in the long form the opcode map and the W bit.
   */
  datatype VexWritten =
    | Short(r: bool, v: nat, l: bool, pp: nat)
    | Long(r: bool, x: bool, b: bool, opcodeMap: nat, w: bool, v: nat, l: bool, pp: nat)
  {
    predicate Sized() { v < 16 && pp < 4 && (Long? ==> opcodeMap < 32) }

    /** Outside 64 bits the inverted bits of R and X must be set, or the bytes are no VEX. */
    predicate Legal(mode: Mode) {
      && Sized()
      && (mode != Bits64 ==> !r && (Short? ==> v < 8) && (Long? ==> !x))
    }

    function Bytes(): (s: seq<Byte>)
      requires Sized()
      ensures |s| == if Short? then 2 else 3
    {
      var low: nat := (15 - v) * 8 + (if l then 4 else 0) + pp;
      match this
      case Short(r, _, _, _) => [0xc5, (if r then 0 else 0x80) + low]
      case Long(r, x, b, opcodeMap, w, _, _, _) =>
        [0xc4, (if r then 0 else 0x80) + (if x then 0 else 0x40) + (if b then 0 else 0x20) + opcodeMap,
         (if w then 0x80 else 0) + low]
    }

    /** The bits it extends the instruction with; outside 64 bits only the length counts. */
    function Bits(mode: Mode): set<Ex> {
      (if l then {ExL} else {})
      + if mode != Bits64 then {}
        else
          (if r then {ExR} else {})
          + (if Long? && x then {ExX} else {}) + (if Long? && b then {ExB} else {}) + (if Long? && w then {ExW} else {})
    }
  }

  lemma {:induction false} LowBits(v: nat, l: bool, pp: nat, high: bool)
    requires v < 16 && pp < 4
    ensures var low := (15 - v) * 8 + (if l then 4 else 0) + pp;
            && low < 0x80 && Bit(low, 4) == l && low % 4 == pp && 15 - low / 8 % 16 == v
            && Bit(low + 0x80, 4) == l && (low + 0x80) % 4 == pp && 15 - (low + 0x80) / 8 % 16 == v
  {
    var m: nat := 15 - v;
    assert (m * 8 + (if l then 4 else 0) + pp) / 8 == m;
  }

  lemma {:induction false} ShortBits(v: VexWritten, mode: Mode)
    requires v.Short? && v.Legal(mode)
    ensures var b := v.Bytes()[1];
            && Vex2Bits(b, mode) == v.Bits(mode) && b % 4 == v.pp && 15 - b / 8 % 16 == v.v
            && (mode != Bits64 ==> b >= 0xc0)
  {
    LowBits(v.v, v.l, v.pp, v.r);
  }

  lemma {:induction false} HighBits(r: bool, x: bool, b: bool, opcodeMap: nat)
    requires opcodeMap < 32
    ensures var high := (if r then 0 else 0x80) + (if x then 0 else 0x40) + (if b then 0 else 0x20) + opcodeMap;
            Bit(high, 0x80) == !r && Bit(high, 0x40) == !x && Bit(high, 0x20) == !b && high % 0x20 == opcodeMap
  {
  }

  lemma {:induction false} LongBits(v: VexWritten, mode: Mode)
    requires v.Long? && v.Legal(mode)
    ensures var bits, b, c := Vex3Bits(v.Bytes()[1], v.Bytes()[2]), v.Bytes()[1], v.Bytes()[2];
            && (mode == Bits64 ==> bits == v.Bits(mode)) && bits - {ExB, ExX, ExR, ExW} == v.Bits(Bits32)
            && b % 0x20 == v.opcodeMap && c % 4 == v.pp && 15 - c / 8 % 16 == v.v
            && (mode != Bits64 ==> b >= 0xc0)
  {
    LowBits(v.v, v.l, v.pp, v.w);
    HighBits(v.r, v.x, v.b, v.opcodeMap);
  }

  lemma {:induction false} NoRexOutside(pre: seq<Written>, mode: Mode)
    requires AllLegal(pre, mode) && mode != Bits64
    ensures LastBits(pre) == {} && Rex !in KindsIn(pre)
  {
    if pre != [] {
      assert pre[|pre| - 1] in pre;
      NoRexOutside(pre[..|pre| - 1], mode);
    }
  }

  /** What is known of such prefixes and a VEX behind them. */
  ghost function FactsWithVex(pre: seq<Written>, v: VexWritten, mode: Mode): Prefixes
    requires v.Legal(mode)
  {
    Prefixes(KindsIn(pre) + {Vex}, LastBits(pre) + v.Bits(mode), if v.Short? then Vex2 else Vex3, LastPlace(pre),
             |pre| + 1, |pre| + |v.Bytes()|, false)
  }

  lemma {:induction false} VexIsScanned(pre: seq<Written>, v: VexWritten, body: seq<Byte>, mode: Mode)
    requires AllLegal(pre, mode) && v.Legal(mode) && |pre| + |v.Bytes()| <= INST_MAXIMUM_SIZE
    ensures var s := Spelled(pre) + (v.Bytes() + body);
            && Leading(s, mode, 0) == |pre| && (forall i | 0 <= i < |pre| :: PrefixOf(s[i], mode).Some?)
            && Scanned(s, mode, |pre|) == Facts(pre) && Spelled(pre) + v.Bytes() <= s
            && (forall i | 0 <= i < |v.Bytes()| :: s[|pre| + i] == v.Bytes()[i])
  {
    var s := Spelled(pre) + (v.Bytes() + body);
    ScannedSpelled(s, mode, pre);
    assert s[|pre|] == v.Bytes()[0];
    LeadingIs(s, mode, 0, |pre|);
  }

  /**
   What is known of the prefixes of a stream in which `b`, and in the long form `c`, follow the escape byte of VEX.
   */
  lemma {:induction false} VexIsTracked(s: seq<Byte>, mode: Mode, pre: seq<Written>, v: VexWritten)
    requires AllLegal(pre, mode) && v.Legal(mode) && |pre| + |v.Bytes()| <= INST_MAXIMUM_SIZE
    requires |pre| + |v.Bytes()| <= |s| && forall i | 0 <= i < |v.Bytes()| :: s[|pre| + i] == v.Bytes()[i]
    ensures WithVex(s, mode, Facts(pre)) == FactsWithVex(pre, v, mode)
  {
    var p := |pre|;
    assert s[p] == v.Bytes()[0] && s[p + 1] == v.Bytes()[1];
    if mode != Bits64 {
      NoRexOutside(pre, mode);
    }
    if v.Short? {
      ShortBits(v, mode);
    } else {
      LongBits(v, mode);
      assert s[p + 2] == v.Bytes()[2];
    }
  }

  lemma {:induction false} VexSelects(t: Tables, s: seq<Byte>, pre: seq<Written>, v: VexWritten, mode: Mode,
                                      ps: Prefixes)
    requires v.Legal(mode) && ps == FactsWithVex(pre, v, mode)
    requires |pre| + |v.Bytes()| <= |s| && forall i | 0 <= i < |v.Bytes()| :: s[|pre| + i] == v.Bytes()[i]
    ensures VexTable(t, s, ps) == (if v.Short? || v.opcodeMap == 1 then Some(t.table0F)
                                   else if v.opcodeMap == 2 then Some(t.table0F38)
                                   else if v.opcodeMap == 3 then Some(t.table0F3A) else None)
    ensures ps.vexPos + 1 < |s| ==> VexIndex(s, ps) == (if v.v == 0 then 8 else 4) + v.pp
  {
    var p := |pre|;
    assert s[p + 1] == v.Bytes()[1];
    if v.Short? {
      ShortBits(v, mode);
    } else {
      LongBits(v, mode);
      assert s[p + 2] == v.Bytes()[2];
    }
  }

  /**
   VEX behind up to thirteen other prefixes is read back: its bits, the table its map stands for, and the place in a
   prefixed list that the prefix it stands for and the register in vvvv select.
   */
  lemma {:induction false} VexIsRead(t: Tables, pre: seq<Written>, v: VexWritten, body: seq<Byte>, mode: Mode)
    requires AllLegal(pre, mode) && v.Legal(mode) && |pre| + |v.Bytes()| <= INST_MAXIMUM_SIZE
    ensures var s, ps := Spelled(pre) + (v.Bytes() + body), FactsWithVex(pre, v, mode);
            && PrefixesOf(s, mode) == ps && ps.vexPos < |s|
            && VexTable(t, s, ps) == (if v.Short? || v.opcodeMap == 1 then Some(t.table0F)
                                      else if v.opcodeMap == 2 then Some(t.table0F38)
                                      else if v.opcodeMap == 3 then Some(t.table0F3A) else None)
            && (ps.vexPos + 1 < |s| ==> VexIndex(s, ps) == (if v.v == 0 then 8 else 4) + v.pp)
  {
    var s := Spelled(pre) + (v.Bytes() + body);
    VexIsScanned(pre, v, body, mode);
    VexIsTracked(s, mode, pre, v);
    VexSelects(t, s, pre, v, mode, FactsWithVex(pre, v, mode));
  }

  lemma {:induction false} LowIs(c: Byte)
    ensures var v, l, pp := 15 - c / 8 % 16, Bit(c, 4), c % 4;
            0 <= v < 16 && c == (if Bit(c, 0x80) then 0x80 else 0) + (15 - v) * 8 + (if l then 4 else 0) + pp
  {
    var m := c / 4;
    assert c == m * 4 + c % 4 && m == m / 2 * 2 + m % 2 && m / 2 == c / 8;
    assert c / 8 == c / 8 / 16 * 16 + c / 8 % 16 && c / 8 / 16 == c / 0x80;
  }

  lemma {:induction false} HighIs(b: Byte)
    ensures b == (if Bit(b, 0x80) then 0x80 else 0) + (if Bit(b, 0x40) then 0x40 else 0)
                 + (if Bit(b, 0x20) then 0x20 else 0) + b % 0x20
  {
  }

  lemma {:induction false} ShortOf(b: Byte, mode: Mode) returns (v: VexWritten)
    requires mode == Bits64 || b >= 0xc0
    ensures v.Short? && v.Legal(mode) && v.Bytes() == [0xc5, b]
  {
    LowIs(b);
    v := Short(!Bit(b, 0x80), 15 - b / 8 % 16, Bit(b, 4), b % 4);
  }

  lemma {:induction false} LongOf(b: Byte, c: Byte, mode: Mode) returns (v: VexWritten)
    requires mode == Bits64 || b >= 0xc0
    ensures v.Long? && v.Legal(mode) && v.Bytes() == [0xc4, b, c]
  {
    HighIs(b);
    LowIs(c);
    v := Long(!Bit(b, 0x80), !Bit(b, 0x40), !Bit(b, 0x20), b % 0x20, Bit(c, 0x80), 15 - c / 8 % 16, Bit(c, 4), c % 4);
  }

  /** What is read as VEX is VEX as it is written. */
  lemma {:induction false} ReadIsVex(s: seq<Byte>, mode: Mode, k: nat) returns (v: VexWritten)
    requires VexAt(s, mode, k, 0xc5, 2) || VexAt(s, mode, k, 0xc4, 3)
    ensures v.Legal(mode) && (v.Short? <==> s[k] == 0xc5)
    ensures var n := |v.Bytes()|; k + n <= |s| && k + n <= INST_MAXIMUM_SIZE && v.Bytes() == s[k..k + n]
  {
    var b := s[k + 1];
    if s[k] == 0xc5 {
      v := ShortOf(b, mode);
      assert s[k..k + 2] == [s[k], b];
    } else {
      v := LongOf(b, s[k + 2], mode);
      assert s[k..k + 3] == [s[k], b, s[k + 2]];
    }
  }
}
