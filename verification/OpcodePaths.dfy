/**
 How opcodes are written: the ways through the trie, byte by byte, which instruction stands at the end of each, and that
 exactly these are found.
 */
module OpcodePaths {
  import opened Wrappers
  import opened X86
  import opened PrefixScan
  import opened PrefixBytes
  import opened OpcodeTrie

  /**
   The bytes of an opcode. `Reg` is for a ModR/M byte whose reg field belongs to the opcode, `Divided` for a byte that
   is such a ModR/M byte or, from c0 on, selects an instruction of its own, `Wait` for one that follows 9b, and `Vex`
   for what follows VEX.
   */
  datatype Path =
    | First(b: Byte)
    | FirstReg(b: Byte, modrm: Byte)
    | FirstDivided(b: Byte, x: Byte)
    | WaitDivided(b: Byte, x: Byte)
    | Second(b: Byte, c: Byte)
    | SecondReg(b: Byte, c: Byte, modrm: Byte)
    | SecondDivided(b: Byte, c: Byte, x: Byte)
    | Third(b: Byte, c: Byte, d: Byte)
    | VexFirst(b: Byte)
    | VexReg(b: Byte, modrm: Byte)
    | VexSecond(b: Byte, c: Byte)
  {
    function Bytes(): (s: seq<Byte>)
      ensures 1 <= |s| <= 3
    {
      match this
      case First(b) => [b]
      case FirstReg(b, modrm) => [b, modrm]
      case FirstDivided(b, x) => [b, x]
      case WaitDivided(b, x) => [0x9b, b, x]
      case Second(b, c) => [b, c]
      case SecondReg(b, c, modrm) => [b, c, modrm]
      case SecondDivided(b, c, x) => [b, c, x]
      case Third(b, c, d) => [b, c, d]
      case VexFirst(b) => [b]
      case VexReg(b, modrm) => [b, modrm]
      case VexSecond(b, c) => [b, c]
    }
  }

  /** The bits 3 to 5 of a byte. */
  function RegField(b: Byte): (r: nat)
    ensures r < 8
  {
    b / 8 % 8
  }

  /** A kid of a list of so many. */
  function Kid(kids: seq<Node>, size: nat, i: nat): Node { if |kids| == size && i < size then kids[i] else Nothing }

  function GroupKid(n: Node, modrm: Byte): Node { if n.Group? then Kid(n.kids, 8, RegField(modrm)) else Nothing }

  function FullKid(n: Node, b: Byte): Node { if n.Full? then Kid(n.kids, 256, b) else Nothing }

  function DividedKid(n: Node, x: Byte): Node {
    if !n.Divided? then Nothing
    else if x < 0xc0 then Kid(n.kids, 72, RegField(x))
    else Kid(n.kids, 72, x - 0xc0 + 8)
  }

  /** In the second list an instruction that takes all of ModR/M stands at its reg field for registers too. */
  function UndividedKid(n: Node, x: Byte): Node {
    var whole := if n.Divided? then Kid(n.kids, 72, RegField(x)) else Nothing;
    if whole.Leaf? && NotDivided in whole.info.flags then whole else DividedKid(n, x)
  }

  /** Where a path leads, without VEX. */
  function End(t: Tables, path: Path): Node {
    match path
    case First(b) => FullKid(t.root, b)
    case FirstReg(b, modrm) => GroupKid(FullKid(t.root, b), modrm)
    case FirstDivided(b, x) => DividedKid(FullKid(t.root, b), x)
    case WaitDivided(b, x) => DividedKid(FullKid(t.root, b), x)
    case Second(b, c) => FullKid(FullKid(t.root, b), c)
    case SecondReg(b, c, modrm) => GroupKid(FullKid(FullKid(t.root, b), c), modrm)
    case SecondDivided(b, c, x) => UndividedKid(FullKid(FullKid(t.root, b), c), x)
    case Third(b, c, d) => FullKid(FullKid(FullKid(t.root, b), c), d)
    case _ => Nothing
  }

  // ---- What stands at the end ---------------------------------------------------------------------

  predicate Is(n: Node, info: Info) { n == Leaf(info) }

  predicate IsOr(n: Node, fallback: Node, info: Info) { if n.Leaf? then n == Leaf(info) else fallback == Leaf(info) }

  /**
   Mandatory prefixes: no prefix, 66, f3 and f2 select the first four instructions of a prefixed list, with the first as
   the fallback. The one that selects is used up. With f3 or f2 selecting, 66 is an operand size, which the instruction
   must take; f2 and f3 do not go together.
   */
  predicate Mandatory(kids: seq<Node>, ps: Prefixes, info: Info, ps': Prefixes)
    requires |kids| == 12
  {
    match (OpSize in ps.decoded, Rep in ps.decoded, Repnz in ps.decoded)
    case (false, false, false) => Is(kids[0], info) && ps' == ps
    case (true, false, false) =>
      IsOr(kids[1], kids[0], info) && ps' == ps.(decoded := ps.decoded - {OpSize}, opSizeMandatory := true)
    case (false, true, false) => IsOr(kids[2], kids[0], info) && ps' == ps.(decoded := ps.decoded - {Rep})
    case (false, false, true) => IsOr(kids[3], kids[0], info) && ps' == ps.(decoded := ps.decoded - {Repnz})
    case (true, true, false) =>
      Is(kids[2], info) && TakesOpSize in info.flags && ps' == ps.(decoded := ps.decoded - {Rep})
    case (true, false, true) =>
      Is(kids[3], info) && TakesOpSize in info.flags && ps' == ps.(decoded := ps.decoded - {Repnz})
    case (_, true, true) => false
  }

  /** The single bytes with rules of their own: ARPL or MOVSXD, NOP or PAUSE or XCHG, and LEA. */
  predicate SingleByte(t: Tables, b: Byte, n: Node, ps: Prefixes, mode: Mode, info: Info, ps': Prefixes) {
    && n.Leaf?
    && ps' == (if b == 0x8d then ps.(decoded := ps.decoded - {Cs, Ss, Ds, Es, Fs, Gs}) else ps)
    && info == (if b == 0x63 then if mode == Bits64 then t.movsxd else t.arpl
                else if b == 0x90 && Rep in ps.decoded then t.pause
                else if b == 0x90 && !(mode == Bits64 && ExB in ps.vrex) then t.nop
                else n.info)
  }

  /** Behind `path` and the prefixes `ps` stands `info`, with `ps'` of the prefixes left. */
  predicate Stands(t: Tables, path: Path, ps: Prefixes, mode: Mode, info: Info, ps': Prefixes) {
    var n := End(t, path);
    match path
    case First(b) => b != 0x9b && SingleByte(t, b, n, ps, mode, info, ps')
    case FirstReg(b, _) => b != 0x9b && Is(n, info) && ps' == ps
    case FirstDivided(b, _) =>
      b != 0x9b && (if n.Prefixed? then |n.kids| == 12 && Is(n.kids[0], info) else Is(n, info)) && ps' == ps
    case WaitDivided(_, _) =>
      (if n.Prefixed? then |n.kids| == 12 && Is(n.kids[1], info) else Is(n, info) && TakesOpSize in info.flags)
      && ps' == ps
    case VexFirst(_) => false
    case VexReg(_, _) => false
    case VexSecond(_, _) => false
    case SecondDivided(b, c, _) => b != 0x9b && !(b == c == 0x0f) && Is(n, info) && ps' == ps
    case _ =>
      && path.b != 0x9b
      && if path.b == path.c == 0x0f then path.Second? && !n.Nothing? && info == II_3DNOW && ps' == ps
         else if n.Prefixed? then |n.kids| == 12 && Mandatory(n.kids, ps, info, ps')
         else Is(n, info) && ps' == ps
  }

  /** Where a path behind VEX leads, from the table that its map stands for. */
  function VexEnd(table: Node, path: Path): Node {
    match path
    case VexFirst(b) => FullKid(table, b)
    case VexReg(b, modrm) => GroupKid(FullKid(table, b), modrm)
    case VexSecond(b, c) => FullKid(FullKid(table, b), c)
    case _ => Nothing
  }

  /** The table that a map of VEX stands for: that of 0f, of 0f 38 or of 0f 3a. */
  function MapTable(t: Tables, v: VexWritten): Node {
    if v.Short? || v.opcodeMap == 1 then t.table0F
    else if v.opcodeMap == 2 then t.table0F38
    else if v.opcodeMap == 3 then t.table0F3A
    else Nothing
  }

  /**
   Behind VEX `v` and `path` stands `info`: in a prefixed list, by the prefix that VEX stands for, from the fifth place
   on with a register in vvvv and from the ninth without. 66, f0, f2 and f3 must not precede VEX, and an instruction
   that forces the long vectors needs the length bit.
   */
  predicate VexStands(t: Tables, v: VexWritten, path: Path, ps: Prefixes, info: Info) {
    var n, i := VexEnd(MapTable(t, v), path), (if v.v == 0 then 8 else 4) + v.pp;
    && n.Prefixed? && Kid(n.kids, 12, i) == Leaf(info)
    && OpSize !in ps.decoded && Lock !in ps.decoded && Rep !in ps.decoded && Repnz !in ps.decoded
    && (ForceVexL in info.flags ==> v.l)
  }

  lemma {:induction false} RegFieldIs(b: Byte)
    ensures RegField(b) == Reg(b)
  {
  }

  lemma {:induction false} SelectIsMandatory(n: Node, at: nat, ps: Prefixes, info: Info, ps': Prefixes)
    requires IsPrefixed(n)
    ensures Mandatory(n.kids, ps, info, ps') <==> Select(n, at, ps) == Found(info, at, ps')
  {
  }

  // ---- Found and written are the same -------------------------------------------------------------

  /** The bytes of the path are in the stream at `p`. */
  predicate PathFits(path: Path, s: seq<Byte>, p: nat) {
    var bytes := path.Bytes();
    && p + |bytes| <= |s| && s[p] == bytes[0]
    && (|bytes| > 1 ==> s[p + 1] == bytes[1]) && (|bytes| > 2 ==> s[p + 2] == bytes[2])
  }

  function Waits(path: Path): nat { if path.WaitDivided? then 1 else 0 }

  lemma {:induction false} ThirdIs(t: Tables, path: Path, s: seq<Byte>, u: nat, ps: Prefixes, mode: Mode, info: Info,
                                   ps': Prefixes)
    requires t.WellFormed() && u < |s| && (path.SecondReg? || path.SecondDivided? || path.Third?)
    requires t.root.kids[path.b].Full? && !(path.b == path.c == 0x0f) && path.b != 0x9b
    requires s[u] == path.Bytes()[2]
    requires var m := t.root.kids[path.b].kids[path.c];
             if path.SecondReg? then m.Group? else if path.SecondDivided? then m.Divided? else m.Full?
    ensures Stands(t, path, ps, mode, info, ps')
            <==> ThirdByte(t.root.kids[path.b].kids[path.c], s, u, ps) == Found(info, u, ps')
  {
    var first := t.root.kids[path.b];
    assert IsFirst(first) && IsSecond(first.kids[path.c]);
    RegFieldIs(s[u]);
    var n := End(t, path);
    if n.Prefixed? {
      SelectIsMandatory(n, u, ps, info, ps');
    }
  }

  lemma {:induction false} TwoIsFound(t: Tables, path: Path, s: seq<Byte>, r: nat, ps: Prefixes, mode: Mode, info: Info,
                                      ps': Prefixes)
    requires t.WellFormed() && (path.Second? || path.SecondReg? || path.SecondDivided? || path.Third?)
    requires 0 < r && PathFits(path, s, r - 1) && Stands(t, path, ps, mode, info, ps')
    ensures t.root.kids[path.b].Full? && IsFullOfSeconds(t.root.kids[path.b])
    ensures SecondByte(t.root.kids[path.b].kids, path.b, s, r, ps) == Found(info, r + |path.Bytes()| - 2, ps')
  {
    var first := t.root.kids[path.b];
    assert IsFirst(first);
    var m := first.kids[path.c];
    assert IsSecond(m) && s[r] == path.Bytes()[1];
    if path.Second? {
      if m.Prefixed? && !(path.b == path.c == 0x0f) {
        SelectIsMandatory(m, r, ps, info, ps');
      }
    } else {
      var u := r + 1;
      assert s[u] == path.Bytes()[2];
      ThirdIs(t, path, s, u, ps, mode, info, ps');
    }
  }

  lemma {:induction false} OneIsFound(t: Tables, path: Path, s: seq<Byte>, q: nat, ps: Prefixes, mode: Mode, info: Info,
                                      ps': Prefixes)
    requires t.WellFormed() && !(path.Second? || path.SecondReg? || path.SecondDivided? || path.Third?)
    requires q >= Waits(path) && PathFits(path, s, q - Waits(path)) && Stands(t, path, ps, mode, info, ps')
    ensures FirstByte(t, s, q, path.WaitDivided?, ps, mode)
            == Found(info, q + |path.Bytes()| - 1 - Waits(path), ps')
  {
    var first := t.root.kids[path.b];
    assert IsFirst(first) && s[q] == path.b;
    if !path.First? {
      RegFieldIs(s[q + 1]);
    }
  }

  /**
   An opcode as it is written, with anything behind it, is found to its end, with the instruction that stands there.
   */
  lemma {:induction false} PathIsFound(t: Tables, path: Path, s: seq<Byte>, p: nat, ps: Prefixes, mode: Mode,
                                       info: Info, ps': Prefixes)
    requires t.WellFormed() && p < |s| && PathFits(path, s, p) && Vex !in ps.decoded
    requires Stands(t, path, ps, mode, info, ps')
    ensures Opcode(t, s, p, ps, mode) == Found(info, p + |path.Bytes()| - 1, ps')
  {
    assert s[p] == path.Bytes()[0];
    if path.Second? || path.SecondReg? || path.SecondDivided? || path.Third? {
      TwoIsFound(t, path, s, p + 1, ps, mode, info, ps');
      assert s[p + 1] == path.Bytes()[1];
    } else {
      OneIsFound(t, path, s, p + Waits(path), ps, mode, info, ps');
    }
  }

  lemma {:induction false} FoundIsThird(t: Tables, s: seq<Byte>, u: nat, ps: Prefixes, mode: Mode) returns (path: Path)
    requires t.WellFormed() && 2 <= u < |s| && t.root.kids[s[u - 2]].Full? && s[u - 2] != 0x9b
    requires !(s[u - 2] == s[u - 1] == 0x0f)
    requires IsSecond(t.root.kids[s[u - 2]].kids[s[u - 1]])
    requires ThirdByte(t.root.kids[s[u - 2]].kids[s[u - 1]], s, u, ps).Found?
    ensures var found := ThirdByte(t.root.kids[s[u - 2]].kids[s[u - 1]], s, u, ps);
            && found.at == u && PathFits(path, s, u - 2) && |path.Bytes()| == 3
            && Stands(t, path, ps, mode, found.info, found.ps)
  {
    var b, c, d := s[u - 2], s[u - 1], s[u];
    var m := t.root.kids[b].kids[c];
    var found := ThirdByte(m, s, u, ps);
    path := if m.Group? then SecondReg(b, c, d) else if m.Divided? then SecondDivided(b, c, d) else Third(b, c, d);
    ThirdIs(t, path, s, u, ps, mode, found.info, found.ps);
  }

  lemma {:induction false} FoundIsSecond(t: Tables, s: seq<Byte>, r: nat, ps: Prefixes, mode: Mode) returns (path: Path)
    requires t.WellFormed() && 1 <= r < |s| && t.root.kids[s[r - 1]].Full? && s[r - 1] != 0x9b
    requires IsFullOfSeconds(t.root.kids[s[r - 1]])
    requires SecondByte(t.root.kids[s[r - 1]].kids, s[r - 1], s, r, ps).Found?
    ensures var found := SecondByte(t.root.kids[s[r - 1]].kids, s[r - 1], s, r, ps);
            && found.at == r + |path.Bytes()| - 2 && PathFits(path, s, r - 1)
            && Stands(t, path, ps, mode, found.info, found.ps)
  {
    var b, c := s[r - 1], s[r];
    var m := t.root.kids[b].kids[c];
    var found := SecondByte(t.root.kids[b].kids, b, s, r, ps);
    assert IsSecond(m);
    if (b == c == 0x0f) || IsLeafy(m) {
      path := Second(b, c);
      if m.Prefixed? && !(b == c == 0x0f) {
        SelectIsMandatory(m, r, ps, found.info, found.ps);
      }
    } else {
      path := FoundIsThird(t, s, r + 1, ps, mode);
    }
  }

  lemma {:induction false} FoundIsFirst(t: Tables, s: seq<Byte>, q: nat, wait: bool, ps: Prefixes, mode: Mode)
    returns (path: Path)
    requires t.WellFormed() && q < |s| && (if wait then q > 0 && s[q - 1] == 0x9b else s[q] != 0x9b)
    requires FirstByte(t, s, q, wait, ps, mode).Found? && !t.root.kids[s[q]].Full?
    ensures var found := FirstByte(t, s, q, wait, ps, mode);
            && path.WaitDivided? == wait && q >= Waits(path) && found.at == q - Waits(path) + |path.Bytes()| - 1
            && PathFits(path, s, q - Waits(path)) && Stands(t, path, ps, mode, found.info, found.ps)
  {
    var n := t.root.kids[s[q]];
    assert IsFirst(n);
    if n.Leaf? && !wait {
      path := First(s[q]);
    } else {
      RegFieldIs(s[q + 1]);
      path := if wait then WaitDivided(s[q], s[q + 1])
              else if n.Group? then FirstReg(s[q], s[q + 1]) else FirstDivided(s[q], s[q + 1]);
    }
  }

  /** What is found is an opcode as it is written, with the instruction that stands there. */
  lemma {:induction false} FoundIsPath(t: Tables, s: seq<Byte>, p: nat, ps: Prefixes, mode: Mode) returns (path: Path)
    requires t.WellFormed() && p < |s| && Vex !in ps.decoded && Opcode(t, s, p, ps, mode).Found?
    ensures var found := Opcode(t, s, p, ps, mode);
            && found.at == p + |path.Bytes()| - 1 && PathFits(path, s, p)
            && Stands(t, path, ps, mode, found.info, found.ps)
  {
    var wait := s[p] == 0x9b;
    var q := if wait then p + 1 else p;
    assert IsFirst(t.root.kids[s[q]]);
    if t.root.kids[s[q]].Full? {
      path := FoundIsSecond(t, s, q + 1, ps, mode);
    } else {
      path := FoundIsFirst(t, s, q, wait, ps, mode);
    }
  }

  // ---- The same behind VEX ------------------------------------------------------------------------

  /** What the walk reads out of VEX `v`. */
  predicate VexReads(t: Tables, v: VexWritten, s: seq<Byte>, ps: Prefixes)
    requires ps.vexPos + 1 < |s|
  {
    && v.v < 16 && v.pp < 4
    && VexTable(t, s, ps) == (if MapTable(t, v).Nothing? then None else Some(MapTable(t, v)))
    && VexIndex(s, ps) == (if v.v == 0 then 8 else 4) + v.pp && (ExL in ps.vrex <==> v.l)
    && Vex in ps.decoded && Rex !in ps.decoded
  }

  lemma {:induction false} VexKidIs(n: Node, index: nat, at: nat, ps: Prefixes, info: Info)
    requires IsLeafy(n) && index < 12
    ensures VexKid(n, index, at, ps) == Found(info, at, ps) <==> n.Prefixed? && Kid(n.kids, 12, index) == Leaf(info)
    ensures VexKid(n, index, at, ps).Found? ==> VexKid(n, index, at, ps).at == at && VexKid(n, index, at, ps).ps == ps
  {
  }

  /** An opcode behind VEX is found to its end, with the instruction that stands there. */
  lemma {:induction false} VexPathIsFound(t: Tables, v: VexWritten, path: Path, s: seq<Byte>, p: nat, ps: Prefixes,
                                          mode: Mode, info: Info)
    requires t.WellFormed() && PathFits(path, s, p) && ps.vexPos + 1 < |s| && VexReads(t, v, s, ps)
    requires VexStands(t, v, path, ps, info)
    ensures Opcode(t, s, p, ps, mode) == Found(info, p + |path.Bytes()| - 1, ps)
  {
    Meets(ps.decoded);
    var table, index := MapTable(t, v), VexIndex(s, ps);
    var n := table.kids[path.b];
    if path.VexFirst? {
      VexKidIs(n, index, p, ps, info);
    } else {
      RegFieldIs(s[p + 1]);
      VexKidIs(VexEnd(table, path), index, p + 1, ps, info);
    }
  }

  /** What is found behind VEX is an opcode as it is written, with the instruction that stands there. */
  lemma {:induction false} FoundIsVexPath(t: Tables, v: VexWritten, s: seq<Byte>, p: nat, ps: Prefixes, mode: Mode)
    returns (path: Path)
    requires t.WellFormed() && p < |s| && ps.vexPos + 1 < |s| && VexReads(t, v, s, ps)
    requires Opcode(t, s, p, ps, mode).Found?
    ensures var found := Opcode(t, s, p, ps, mode);
            && found.at == p + |path.Bytes()| - 1 && found.ps == ps && PathFits(path, s, p)
            && VexStands(t, v, path, ps, found.info)
  {
    Meets(ps.decoded);
    var table, index := MapTable(t, v), VexIndex(s, ps);
    var n := table.kids[s[p]];
    var found := Opcode(t, s, p, ps, mode);
    if n.Prefixed? {
      path := VexFirst(s[p]);
      VexKidIs(n, index, p, ps, found.info);
    } else {
      RegFieldIs(s[p + 1]);
      path := if n.Group? then VexReg(s[p], s[p + 1]) else VexSecond(s[p], s[p + 1]);
      VexKidIs(VexEnd(table, path), index, p + 1, ps, found.info);
    }
  }
}
