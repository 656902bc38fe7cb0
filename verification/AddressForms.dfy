/**
 How a reference to memory is written: the addressing forms, the bytes of each, and that exactly these are read.  Tables
 2-1, 2-2 and 2-3 of the Intel 64 and IA-32 Architectures Software Developer's Manual, Volume 2A, section 2.1.5.
 */
module AddressForms {
  import opened Wrappers
  import opened X86
  import opened OperandBytes

  /**
   The addressing forms, with 16-bit addresses the first two: registers selected by `rm` with a displacement, or a
   displacement alone; and with a SIB byte a scaled index with or without a base.  Displacements are the bytes written.
   */
  datatype Form =
    | Registers16(rm: nat, disp: seq<Byte>)
    | Direct16(disp: seq<Byte>)
    | Based(base: nat, disp: seq<Byte>)
    | Direct(disp: seq<Byte>)
    | Indexed(scale: nat, index: nat, base: nat, disp: seq<Byte>)
    | IndexedOnly(scale: nat, index: nat, disp: seq<Byte>)
  {
    /**
     BP and EBP take no form without displacement, as that place is taken by the displacement alone; ESP takes none
     without SIB, as that place is taken by the SIB byte.
     */
    predicate Legal(addrSize: Mode) {
      match this
      case Registers16(rm, disp) => addrSize == Bits16 && rm < 8 && |disp| <= 2 && (disp == [] ==> rm != 6)
      case Direct16(disp) => addrSize == Bits16 && |disp| == 2
      case Based(base, disp) =>
        addrSize != Bits16 && base < 8 && base != 4 && |disp| in [0, 1, 4] && (disp == [] ==> base != 5)
      case Direct(disp) => addrSize != Bits16 && |disp| == 4
      case Indexed(scale, index, base, disp) =>
        addrSize != Bits16 && scale < 4 && index < 8 && base < 8 && |disp| in [0, 1, 4] && (disp == [] ==> base != 5)
      case IndexedOnly(scale, index, disp) => addrSize != Bits16 && scale < 4 && index < 8 && |disp| == 4
    }

    /** The mod field: 1 for one byte of displacement, 2 for more, 0 for none or for a displacement alone. */
    function ModField(): nat {
      if Direct16? || Direct? || IndexedOnly? || disp == [] then 0 else if |disp| == 1 then 1 else 2
    }

    function RmField(): nat {
      match this
      case Registers16(rm, _) => rm
      case Direct16(_) => 6
      case Based(base, _) => base
      case Direct(_) => 5
      case Indexed(_, _, _, _) => 4
      case IndexedOnly(_, _, _) => 4
    }

    /** What is written behind the ModR/M byte. */
    function Tail(): seq<Byte>
      requires Indexed? || IndexedOnly? ==> scale < 4 && index < 8 && (Indexed? ==> base < 8)
    {
      match this
      case Indexed(scale, index, base, _) => [scale * 64 + index * 8 + base] + disp
      case IndexedOnly(scale, index, _) => [scale * 64 + index * 8 + 5] + disp
      case _ => disp
    }
  }

  /** The ModR/M byte. */
  function Modrm(mod: nat, reg: nat, rm: nat): Byte
    requires mod < 4 && reg < 8 && rm < 8
  {
    mod * 64 + reg * 8 + rm
  }

  lemma {:induction false} FieldsOf(mod: nat, reg: nat, rm: nat)
    requires mod < 4 && reg < 8 && rm < 8
    ensures var b := mod * 64 + reg * 8 + rm; b / 64 == mod && b / 8 % 8 == reg && b % 8 == rm
  {
    var high := mod * 8 + reg;
    assert high / 8 == mod && high % 8 == reg;
    assert (high * 8 + rm) / 8 == high && (high * 8 + rm) / 64 == high / 8;
  }

  lemma {:induction false} ByteOf(b: Byte)
    ensures b / 64 < 4 && b / 8 % 8 < 8 && b % 8 < 8 && b == b / 64 * 64 + b / 8 % 8 * 8 + b % 8
  {
  }

  /** What is written in a legal form, with anything behind it, is read to its end and no further. */
  lemma {:induction false} FormIsRead(f: Form, addrSize: Mode, s: seq<Byte>, p: nat)
    requires f.Legal(addrSize) && p <= |s| && f.Tail() <= s[p..]
    ensures f.ModField() < 3 && f.RmField() < 8
    ensures Memory(s, p, f.ModField(), f.RmField(), addrSize) == Some(p + |f.Tail()|)
  {
    assert f.Tail() != [] ==> s[p] == f.Tail()[0];
    match f
    case Indexed(scale, index, base, _) => FieldsOf(scale, index, base);
    case IndexedOnly(scale, index, _) => FieldsOf(scale, index, 5);
    case _ =>
  }

  /** What is read is what is written in some legal form. */
  lemma {:induction false} ReadIsForm(s: seq<Byte>, p: nat, mod: nat, rm: nat, addrSize: Mode) returns (f: Form)
    requires mod < 3 && rm < 8 && p <= |s| && Memory(s, p, mod, rm, addrSize).Some?
    ensures f.Legal(addrSize) && f.ModField() == mod && f.RmField() == rm
    ensures f.Tail() == s[p..Memory(s, p, mod, rm, addrSize).value]
  {
    var q := Memory(s, p, mod, rm, addrSize).value;
    if addrSize == Bits16 {
      f := if mod == 0 && rm == 6 then Direct16(s[p..q]) else Registers16(rm, s[p..q]);
    } else if mod == 0 && rm == 5 {
      f := Direct(s[p..q]);
    } else if rm == 4 {
      ByteOf(s[p]);
      var scale, index, base := s[p] / 64, s[p] / 8 % 8, s[p] % 8;
      f := if mod == 0 && base == 5 then IndexedOnly(scale, index, s[p + 1..q])
           else Indexed(scale, index, base, s[p + 1..q]);
      assert s[p..q] == [s[p]] + s[p + 1..q];
    } else {
      f := Based(rm, s[p..q]);
    }
  }
}
