/** The interface of the decoder that returns text: entries are converted to text in the caller's array. */
module Distorm {
  import opened Wrappers
  import opened X86
  import opened DecodeRun
  import opened DecodeLoop
  import opened DecodeRoom
  import opened HexSpec
  import opened HexText

  datatype MaxAddr = Max16 | Max32 | Max64

  const M16: nat := 0x1_0000
  const M32: nat := 0x1_0000_0000
  const M64: nat := 0x1_0000_0000_0000_0000

  function Masked(a: MaxAddr, x: nat): nat {
    match a
    case Max16 => x % M16
    case Max32 => x % M32
    case Max64 => x % M64
  }

  /** The features that the text interface chooses for a decoding mode: an address mask, no filter, no stop flags. */
  function MaxAddrOf(mode: Mode): MaxAddr {
    match mode case Bits16 => Max16 case Bits32 => Max32 case Bits64 => Max64
  }

  function ConfigOf(mode: Mode): Config {
    Config(x => Masked(MaxAddrOf(mode), x), false, {})
  }

  // ---- The index of the hex dump -------------------------------------------------------------

  /** Where the hex dump reads its `i`-th byte: the difference of 64-bit addresses, cut to 32 bits. */
  function HexIndex(addr: nat, offset: nat, i: nat): nat {
    (addr - offset + i) % M64 % M32
  }

  /** The offset fits the address mask at the place `p`. */
  predicate OffsetFits(a: MaxAddr, offset: nat, p: nat) { a != Max16 || (offset + p) % M32 < M16 }

  lemma {:induction false} Cut(d: int, q: int, r: int)
    requires d == q * M32 + r && 0 <= r < M32
    ensures d % M32 == r
  {
  }

  lemma {:induction false} CutTwice(d: int)
    ensures d % M64 % M32 == d % M32
  {
    var a, b := d / M64, d % M64;
    var c, e := b / M32, b % M32;
    assert d == a * M64 + c * M32 + e;
    Cut(d, a * M32 + c, e);
  }

  lemma {:induction false} SameLow(x: nat)
    ensures x % M16 == x % M32 % M16
  {
    var q, y := x / M32, x % M32;
    var j, z := y / M16, y % M16;
    assert x == (q * M16 + j) * M16 + z;
  }

  /**
   The dump of an entry at `p` reads the right bytes exactly when the offset fits: always with 32 or 64 bit
   addresses, and with 16 bit addresses only in the first 64 K of each 4 G.
   */
  lemma {:induction false} HexIndexIsRight(a: MaxAddr, offset: nat, p: nat, i: nat)
    requires p + i < 0x8000_0000
    ensures HexIndex(Masked(a, offset + p), offset, i) == p + i <==> OffsetFits(a, offset, p)
  {
    var x := offset + p;
    var d := Masked(a, x) - offset + i;
    CutTwice(d);
    match a
    case Max64 => Cut(d, -(x / M64) * M32, p + i);
    case Max32 => Cut(d, -(x / M32), p + i);
    case Max16 =>
      var q, y := x / M32, x % M32;
      var j, z := y / M16, y % M16;
      SameLow(x);
      assert d == -q * M32 - j * M16 + (p + i);
      if j * M16 <= p + i {
        Cut(d, -q, p + i - j * M16);
      } else {
        Cut(d, -q - 1, M32 + p + i - j * M16);
      }
  }

  /** At an offset beyond 64 K, the text of 16 bit code shows other bytes than those decoded. */
  lemma {:induction false} HexIndexCanBeWrong()
    ensures HexIndex(Masked(Max16, 0x1_0000 + 0), 0x1_0000, 0) == 0xffff_0000
  {
  }

  /** What a caller can check before the call. */
  predicate DumpFits(a: MaxAddr, offset: nat, length: nat) { a == Max16 && length > 0 ==> offset % M32 + length <= M16 }

  lemma {:induction false} FitsAt(a: MaxAddr, offset: nat, length: nat, p: nat)
    requires p < length && DumpFits(a, offset, length)
    ensures OffsetFits(a, offset, p)
  {
    if a == Max16 {
      assert (offset + p) % M32 == offset % M32 + p;
    }
  }

  /** The offset fits all over the code exactly when that holds. */
  lemma {:induction false} FitsEverywhere(a: MaxAddr, offset: nat, length: nat)
    ensures DumpFits(a, offset, length) <==> forall p | 0 <= p < length :: OffsetFits(a, offset, p)
  {
    if DumpFits(a, offset, length) {
      forall p | 0 <= p < length
        ensures OffsetFits(a, offset, p)
      {
        FitsAt(a, offset, length, p);
      }
    } else {
      // Either the first byte does not fit, or the one 64 K past the last multiple of 4 G does not.
      var low := offset % M32;
      var p := if low < M16 then M16 - low else 0;
      assert (offset + p) % M32 == low + p;
      assert !OffsetFits(a, offset, p);
    }
  }

  // ---- Signed displacements --------------------------------------------------------------------

  /** The value of 64 bits read as a signed number. */
  function Signed(x: nat): int { if x < 0x8000_0000_0000_0000 then x else x - M64 }

  function Magnitude(x: nat): nat { if Signed(x) < 0 then -Signed(x) else Signed(x) }

  function DispText(disp: nat, a: MaxAddr): string {
    [if Signed(disp) < 0 then '-' else '+'] + Hex(Masked(a, Magnitude(disp)))
  }

  function ReadDisp(text: string): int
    requires |text| > 3
  {
    var value: int := Parse(text[3..]);
    if text[0] == '-' then -value else value
  }

  /** The printer alone: what it is given is read back exactly when its magnitude fits the address mask. */
  lemma {:induction false} DispIsRead(disp: nat, a: MaxAddr)
    requires disp < M64
    ensures |DispText(disp, a)| > 3
    ensures ReadDisp(DispText(disp, a)) == Signed(disp) <==> Masked(a, Magnitude(disp)) == Magnitude(disp)
  {
    var m := Masked(a, Magnitude(disp));
    var text := DispText(disp, a);
    PrintedIsRead(m);
    assert text[3..] == Hex(m)[2..];
  }

  function AddrSpace(a: MaxAddr): nat {
    match a case Max16 => M16 case Max32 => M32 case Max64 => M64
  }

  /** Cutting a number to the mask changes it by a multiple of the address space, read with its sign or not. */
  lemma {:induction false} CutSigned(a: MaxAddr, x: nat)
    requires x < M64
    ensures Signed(Masked(a, x)) % AddrSpace(a) == Signed(x) % AddrSpace(a)
  {
    var n, m := AddrSpace(a), Masked(a, x);
    var q := x / n;
    assert x == q * n + m;
    match a
    case Max64 =>
    case Max32 => Cut(Signed(x), if Signed(x) == x then q else q - M32, m);
    case Max16 => assert Signed(x) == (if Signed(x) == x then q else q - M64 / M16) * M16 + m;
  }

  lemma {:induction false} Small(x: nat, n: nat)
    requires x < n
    ensures x % n == x
  {
  }

  /** The cut leaves a number whose magnitude fits the mask. */
  lemma {:induction false} CutFits(a: MaxAddr, x: nat)
    ensures var m := Masked(a, x); m < AddrSpace(a) <= M64 && Masked(a, Magnitude(m)) == Magnitude(m)
  {
    var m := Masked(a, x);
    match a
    case Max64 => Small(Magnitude(m), M64);
    case Max32 => Small(m, M32);
    case Max16 => Small(m, M16);
  }

  /**
   The printer behind the decoder, which has cut the displacement to the same mask.  What it is given is always read
   back, and is the displacement that was decoded exactly when the cut has changed nothing.
   */
  lemma {:induction false} CutDispIsRead(a: MaxAddr, disp: nat)
    requires disp < M64
    ensures |DispText(Masked(a, disp), a)| > 3
    ensures var read := ReadDisp(DispText(Masked(a, disp), a));
            read == Signed(Masked(a, disp)) && (read == Signed(disp) <==> Masked(a, disp) == disp)
  {
    CutFits(a, disp);
    DispIsRead(Masked(a, disp), a);
  }

  /** Modulo the address space, what is read back is always the displacement that was decoded. */
  lemma {:induction false} CutDispIsCongruent(a: MaxAddr, disp: nat)
    requires disp < M64
    ensures |DispText(Masked(a, disp), a)| > 3
    ensures ReadDisp(DispText(Masked(a, disp), a)) % AddrSpace(a) == Signed(disp) % AddrSpace(a)
  {
    CutDispIsRead(a, disp);
    CutSigned(a, disp);
  }

  /** What the decoder reads for a displacement: little-endian bytes, extended to 64 bits with their sign. */
  function SignExtended(src: seq<Byte>): nat
    requires |src| == 1 || |src| == 2 || |src| == 4
  {
    if src[|src| - 1] < 128 then Load(src)
    else Load(src) + M64 - (if |src| == 1 then 0x100 else if |src| == 2 then M16 else M32)
  }

  /** The displacement that an instruction encodes. */
  function DispValue(src: seq<Byte>): int
    requires |src| == 1 || |src| == 2 || |src| == 4
  {
    Signed(SignExtended(src))
  }

  /** Its text: the decoder cuts what it has read to the mask of the mode, and the printer does it again. */
  function ShownDisp(mode: Mode, src: seq<Byte>): string
    requires |src| == 1 || |src| == 2 || |src| == 4
  {
    DispText(ConfigOf(mode).mask(SignExtended(src)), MaxAddrOf(mode))
  }

  lemma {:induction false} LoadBounds(src: seq<Byte>)
    requires |src| == 1 || |src| == 2 || |src| == 4
    ensures var top, n := src[|src| - 1], if |src| == 1 then 1 else if |src| == 2 then 0x100 else 0x100_0000;
            n * top <= Load(src) < n * (top + 1)
  {
    assert Load(src) == src[0] + 256 * Load(src[1..]);
    if |src| > 1 {
      assert Load(src[1..]) == src[1] + 256 * Load(src[2..]);
      if |src| > 2 {
        assert Load(src[2..]) == src[2] + 256 * Load(src[3..]);
        assert Load(src[3..]) == src[3] + 256 * Load(src[4..]);
      }
    }
  }

  /** The last byte has the sign, and 32 bits are enough. */
  lemma {:induction false} ExtendedBounds(src: seq<Byte>)
    requires |src| == 1 || |src| == 2 || |src| == 4
    ensures var d := SignExtended(src);
            if src[|src| - 1] < 128 then d == Load(src) < 0x8000_0000 else M64 - 0x8000_0000 <= d < M64
  {
    LoadBounds(src);
  }

  /** What the cut does to 32 bits extended with their sign. */
  lemma {:induction false} CutOf32(d: nat)
    requires d < 0x8000_0000 || M64 - 0x8000_0000 <= d < M64
    ensures Masked(Max32, d) == if d < 0x8000_0000 then d else d - (M64 - M32)
    ensures Masked(Max16, d) == d <==> d < M16
  {
    if d >= 0x8000_0000 {
      Cut(d, M32 - 1, d - (M64 - M32));
    }
  }

  lemma {:induction false} ExtendedIsShown(a: MaxAddr, d: nat)
    requires d < 0x8000_0000 || M64 - 0x8000_0000 <= d < M64
    ensures |DispText(Masked(a, d), a)| > 3
    ensures var read := ReadDisp(DispText(Masked(a, d), a));
            && (read == Signed(d) <==> a == Max64 || (d < 0x8000_0000 && (a == Max16 ==> d < M16)))
            && (a == Max32 && d >= 0x8000_0000 ==> read == Signed(d) + M32)
  {
    CutDispIsRead(a, d);
    CutOf32(d);
    if a == Max64 {
      Small(d, M64);
    }
  }

  /**
   The text of a displacement is right in 64 bit code; in 32 bit code exactly if it is not negative, and one that is
   negative is shown 4 G too high; and in 16 bit code exactly if it is not negative and below 64 K.
   */
  lemma {:induction false} DispIsShown(mode: Mode, src: seq<Byte>)
    requires |src| == 1 || |src| == 2 || |src| == 4
    ensures |ShownDisp(mode, src)| > 3
    ensures var read, value := ReadDisp(ShownDisp(mode, src)), DispValue(src);
            && (read == value <==> mode == Bits64 || (value >= 0 && (mode == Bits16 ==> value < M16)))
            && (mode == Bits32 && value < 0 ==> read == value + M32)
    ensures DispValue(src) < 0 <==> src[|src| - 1] >= 128
  {
    ExtendedBounds(src);
    ExtendedIsShown(MaxAddrOf(mode), SignExtended(src));
  }

  lemma {:induction false} DigitsOfMinus8()
    ensures Hex(0xffff_fff8) == "0xfffffff8"
  {
    assert Digits(0xff) == "ff";
    assert Digits(0xfff) == "fff";
    assert Digits(0xffff) == "ffff";
    assert Digits(0xf_ffff) == "fffff";
    assert Digits(0xff_ffff) == "ffffff";
    assert Digits(0xfff_ffff) == "fffffff";
  }

  /** The instruction 8b 45 f8 reads 8 bytes below EBP; in 32 bit code its text says that it reads 4 G - 8 above. */
  lemma {:induction false} NegativeDispIsShownPositive()
    ensures DispValue([0xf8]) == -8 && ShownDisp(Bits32, [0xf8]) == "+0xfffffff8"
  {
    assert Load([0xf8]) == 0xf8 + 256 * Load([]);
    var d := SignExtended([0xf8]);
    CutOf32(d);
    assert Masked(Max32, 0xffff_fff8) == 0xffff_fff8;
    DigitsOfMinus8();
  }

  lemma {:induction false} Pow16Of16()
    ensures Pow16(16) == M64
  {
    assert Pow16(4) == 0x1_0000 by { assert Pow16(2) == 0x100; }
    assert Pow16(8) == 0x1_0000_0000 by { assert Pow16(6) == 0x100_0000; }
    assert Pow16(12) == 0x1_0000_0000_0000 by { assert Pow16(10) == 0x100_0000_0000; }
    assert Pow16(14) == 0x100_0000_0000_0000;
  }

  /** distorm_format_signed_disp */
  method FormatSignedDisp(str: WString, disp: nat, dispSize: nat, a: MaxAddr)
    requires str.Valid() && disp < M64 && str.length + 19 < MAX_TEXT_SIZE
    modifies str, str.p
    ensures str.Valid() && str.Text() == old(str.Text()) + if dispSize != 0 then DispText(disp, a) else ""
  {
    if dispSize != 0 {
      var sign := [if Signed(disp) < 0 then '-' else '+'];
      str.Append(sign);
      var tmpDisp64 := Masked(a, Magnitude(disp));
      Pow16Of16();
      LoadOfLittleEndian(tmpDisp64, 8);
      str.CodeHqw(LittleEndian(tmpDisp64, 8));
      HexSpec.Regroup(old(str.Text()), sign, Hex(tmpDisp64));
    }
  }

  // ---- Entries as text ----------------------------------------------------------------------------

  /** The text of an entry that covers the bytes from `p` on: among others, the hex dump of exactly those bytes. */
  function TextOf(e: DInst, code: Code, p: nat): Slot
    requires p + e.size <= |code.bytes|
  {
    Text(e.addr, e.size, HexDump(code.bytes[p..p + e.size]))
  }

  function Texts(es: seq<DInst>, code: Code, mask: Mask, p: nat): (slots: seq<Slot>)
    requires p <= |code.bytes| && Tiles(es, code, mask, p)
    ensures |slots| == |es|
  {
    if es == [] then [] else [TextOf(es[0], code, p)] + Texts(es[1..], code, mask, p + es[0].size)
  }

  lemma {:induction false} TextsAt(es: seq<DInst>, code: Code, mask: Mask, p: nat, i: nat, at: nat)
    requires p <= |code.bytes| && Tiles(es, code, mask, p) && i < |es| && at == p + Covered(es[..i])
    ensures at + es[i].size <= |code.bytes| && Texts(es, code, mask, p)[i] == TextOf(es[i], code, at)
    decreases i
  {
    TileAt(es, code, mask, p, i, at);
    if i > 0 {
      assert es[..i][1..] == es[1..][..i - 1];
      TextsAt(es[1..], code, mask, p + es[0].size, i - 1, at);
    }
  }

  function AllHex(slots: seq<Slot>): string
    requires forall i | 0 <= i < |slots| :: slots[i].Text?
  {
    if slots == [] then "" else slots[0].hex + AllHex(slots[1..])
  }

  lemma {:induction false} DumpOfParts(s: seq<Byte>, p: nat, q: nat, r: nat)
    requires p <= q <= r <= |s|
    ensures HexDump(s[p..r]) == HexDump(s[p..q]) + HexDump(s[q..r])
  {
    assert s[p..r] == s[p..q] + s[q..r];
    DumpOfBoth(s[p..q], s[q..r]);
  }

  /** Put together, the hex dumps are the dump of exactly the bytes covered, from `p` to `end`. */
  lemma {:induction false} DumpsAddUp(es: seq<DInst>, code: Code, mask: Mask, p: nat, end: nat)
    requires p <= |code.bytes| && Tiles(es, code, mask, p) && end == p + Covered(es)
    ensures end <= |code.bytes| && forall i | 0 <= i < |es| :: Texts(es, code, mask, p)[i].Text?
    ensures AllHex(Texts(es, code, mask, p)) == HexDump(code.bytes[p..end])
    decreases |es|
  {
    if es == [] {
      assert code.bytes[p..end] == [];
    } else {
      var q := p + es[0].size;
      DumpsAddUp(es[1..], code, mask, q, end);
      DumpOfParts(code.bytes, p, q, end);
      assert Texts(es, code, mask, p)[1..] == Texts(es[1..], code, mask, q);
    }
  }

  // ---- What the caller gets ---------------------------------------------------------------------------

  /** The sizes of the first `i` slots together. */
  function SizeBefore(slots: seq<Slot>, i: nat): nat
    requires i <= |slots| && forall j | 0 <= j < |slots| :: slots[j].Text?
  {
    if i == 0 then 0 else SizeBefore(slots, i - 1) + slots[i - 1].size
  }

  /**
   A slot for the bytes at `at`: their address is that of the code and what is before them, cut to the address space,
   and the dump has two digits for each of them and is read back as those bytes.
   */
  predicate Renders(slot: Slot, bytes: seq<Byte>, codeOffset: nat, space: nat, at: nat)
    requires space > 0
  {
    && slot.Text? && 1 <= slot.size <= 15 && at + slot.size <= |bytes|
    && slot.offset == (codeOffset + at) % space
    && |slot.hex| == 2 * slot.size && Undump(slot.hex) == bytes[at..at + slot.size]
  }

  /** Every slot is for the bytes right behind those of the slots before it. */
  predicate AllRender(slots: seq<Slot>, bytes: seq<Byte>, codeOffset: nat, space: nat)
    requires space > 0 && forall i | 0 <= i < |slots| :: slots[i].Text?
  {
    forall i | 0 <= i < |slots| :: Renders(slots[i], bytes, codeOffset, space, SizeBefore(slots, i))
  }

  lemma {:induction false} CoveredMore(es: seq<DInst>, i: nat)
    requires i < |es|
    ensures Covered(es[..i + 1]) == Covered(es[..i]) + es[i].size
  {
    if i > 0 {
      CoveredMore(es[1..], i - 1);
      assert es[..i + 1][1..] == es[1..][..i] && es[..i][1..] == es[1..][..i - 1];
    }
  }

  lemma {:induction false} SizesAreCovered(es: seq<DInst>, code: Code, mask: Mask, slots: seq<Slot>, i: nat)
    requires Tiles(es, code, mask, 0) && slots == Texts(es, code, mask, 0) && i <= |es|
    ensures forall j | 0 <= j < |slots| :: slots[j].Text?
    ensures SizeBefore(slots, i) == Covered(es[..i])
  {
    DumpsAddUp(es, code, mask, 0, Covered(es));
    if i > 0 {
      SizesAreCovered(es, code, mask, slots, i - 1);
      CoveredMore(es, i - 1);
      TextsAt(es, code, mask, 0, i - 1, Covered(es[..i - 1]));
    }
  }

  lemma {:induction false} TextRenders(es: seq<DInst>, code: Code, mask: Mask, slots: seq<Slot>, space: nat, i: nat)
    requires Tiles(es, code, mask, 0) && slots == Texts(es, code, mask, 0) && i < |es|
    requires es[i].size <= 15 && space > 0 && forall x: nat {:trigger mask(x)} :: mask(x) == x % space
    ensures forall j | 0 <= j < |slots| :: slots[j].Text?
    ensures Renders(slots[i], code.bytes, code.offset, space, SizeBefore(slots, i))
  {
    var at := Covered(es[..i]);
    SizesAreCovered(es, code, mask, slots, i);
    TileAt(es, code, mask, 0, i, at);
    TextsAt(es, code, mask, 0, i, at);
    DumpIsRead(code.bytes[at..at + es[i].size]);
  }

  // ---- The conversion ---------------------------------------------------------------------------------

  lemma {:induction false} MaskedTwice(a: MaxAddr, x: nat)
    ensures Masked(a, Masked(a, x)) == Masked(a, x)
  {
  }

  /** The dump of one more byte. */
  lemma {:induction false} DumpGrows(s: seq<Byte>, p: nat, q: nat)
    requires p <= q < |s|
    ensures HexDump(s[p..q + 1]) == HexDump(s[p..q]) + HexByte(s[q])
  {
    assert s[p..q + 1] == s[p..q] + [s[q]];
    DumpOfBoth(s[p..q], [s[q]]);
    assert HexDump([s[q]]) == HexByte(s[q]) + HexDump([]);
  }

  /** One byte of the dump. */
  method PutByte(str: WString, code: Code, a: MaxAddr, addr: nat, i: nat, ghost p: nat, ghost q: nat)
    requires str.Valid() && str.length + 2 < MAX_TEXT_SIZE && q == p + i
    requires q < |code.bytes| < 0x8000_0000 && addr == Masked(a, code.offset + p) && OffsetFits(a, code.offset, p)
    modifies str, str.p
    ensures str.Valid() && str.length == old(str.length) + 2
    ensures str.Text() == old(str.Text()) + HexByte(code.bytes[q])
  {
    var index := HexIndex(addr, code.offset, i);
    assert index == q by {
      HexIndexIsRight(a, code.offset, p, i);
    }
    str.HexB(code.bytes[index]);
  }

  /** The part of distorm_format64 that makes the hex dump of an entry at `p`, at most 30 characters long. */
  method FormatHex(code: Code, a: MaxAddr, addr: nat, size: nat, ghost p: nat) returns (hex: string)
    requires p + size <= |code.bytes| < 0x8000_0000 && size <= INST_MAXIMUM_SIZE
    requires addr == Masked(a, code.offset + p) && OffsetFits(a, code.offset, p)
    ensures hex == HexDump(code.bytes[p..p + size])
  {
    var str := new WString();
    var i := 0;
    ghost var q := p;
    while i < size
      invariant i <= size && str.Valid() && fresh(str) && fresh(str.p)
      invariant q == p + i && str.length == 2 * i && str.Text() == HexDump(code.bytes[p..q])
    {
      PutByte(str, code, a, addr, i, p, q);
      DumpGrows(code.bytes, p, q);
      i, q := i + 1, q + 1;
    }
    hex := str.Text();
  }

  /** The part of distorm_format64 that fills in the size, the offset and the hex dump; `p` is where the entry is. */
  method Format(code: Code, a: MaxAddr, di: DInst, ghost p: nat) returns (slot: Slot)
    requires p + di.size <= |code.bytes| < 0x8000_0000 && di.size <= INST_MAXIMUM_SIZE
    requires di.addr == Masked(a, code.offset + p) && OffsetFits(a, code.offset, p)
    requires di.what.Dropped? ==> di.size == 1 && di.what.byte == code.bytes[p]
    ensures slot == TextOf(di, code, p)
  {
    var offset := Masked(a, di.addr);
    MaskedTwice(a, code.offset + p);
    var hex;
    if di.what.Dropped? {
      var str := new WString();
      str.HexB(di.what.byte);
      hex := str.Text();
      DumpGrows(code.bytes, p, p);
    } else {
      hex := FormatHex(code, a, di.addr, di.size, p);
    }
    slot := Text(offset, di.size, hex);
  }

  /** The mask of the decoder is that of the text. */
  ghost predicate SameMask(mask: Mask, a: MaxAddr) { forall x {:trigger mask(x)} :: mask(x) == Masked(a, x) }

  /** What an entry needs to be converted, and where its text goes. */
  lemma {:induction false} ConvertedAt(code: Code, a: MaxAddr, es: seq<DInst>, mask: Mask, i: nat, p: nat)
    requires Tiles(es, code, mask, 0) && i < |es| && p == Covered(es[..i])
    ensures p + es[i].size <= |code.bytes| && 1 <= es[i].size && es[i].addr == mask(code.offset + p)
    ensures es[i].what.Dropped? ==> es[i].size == 1 && es[i].what.byte == code.bytes[p]
    ensures Texts(es, code, mask, 0)[i] == TextOf(es[i], code, p)
  {
    TileAt(es, code, mask, 0, i, p);
    TextsAt(es, code, mask, 0, i, p);
  }

  datatype Result = DECRES_SUCCESS | DECRES_MEMORYERR | DECRES_INPUTERR

  /** The loop of distorm_decode64: each entry is copied out, and its place in the array is filled with its text. */
  method Convert(code: Code, a: MaxAddr, result: array<Slot>, count: nat, ghost es: seq<DInst>, ghost mask: Mask)
    requires count == |es| <= result.Length && result[..count] == Raws(es) && |code.bytes| < 0x8000_0000
    requires SameMask(mask, a) && Tiles(es, code, mask, 0)
    requires forall i | 0 <= i < count :: es[i].size <= INST_MAXIMUM_SIZE
    requires DumpFits(a, code.offset, |code.bytes|)
    modifies result
    ensures result[..count] == Texts(es, code, mask, 0) && result[count..] == old(result[count..])
  {
    var i := 0;
    while i < count
      invariant i <= count && result[i..] == old(result[i..])
      invariant forall j | 0 <= j < i :: result[j] == Texts(es, code, mask, 0)[j]
    {
      ghost var p := Covered(es[..i]);
      ConvertedAt(code, a, es, mask, i, p);
      FitsAt(a, code.offset, |code.bytes|, p);
      assert result[i] == result[i..][0] == old(result[i..])[0] == old(result[..count])[i] == Raw(es[i]);
      result[i] := Format(code, a, result[i].inst, p);
      i := i + 1;
    }
  }

  /** What the run behind the text interface returns. */
  ghost function PlainRun(t: Tables, mode: Mode, code: Code, room: nat): Returned
    requires t.WellFormed() && Fits(Steps(t, mode))
  {
    Run(Steps(t, mode), ConfigOf(mode), code, 0, room)
  }

  lemma {:induction false} RunIsConvertible(t: Tables, mode: Mode, code: Code, room: nat)
    requires t.WellFormed() && Fits(Steps(t, mode))
    ensures var r := PlainRun(t, mode, code, room);
            && |r.used| <= room && Tiles(r.used, code, ConfigOf(mode).mask, 0) && Covered(r.used) <= |code.bytes|
            && (r.outcome == Finished ==> Covered(r.used) == |code.bytes|)
            && (forall i | 0 <= i < |r.used| :: r.used[i].size <= INST_MAXIMUM_SIZE)
  {
    var step, c := Steps(t, mode), ConfigOf(mode);
    UsedTiles(step, c, code, 0, room);
    NeverPastCapacity(step, c, code, 0, room);
    forall s
      ensures step(s).n <= INST_MAXIMUM_SIZE
    {
      ChunkIsRight(t, s, mode);
    }
    UsedAreShort(step, c, code, 0, room, INST_MAXIMUM_SIZE);
  }

  /**
   What the text interface returns: success exactly if the run finished, the text of every entry used, and so, put
   together, the dump of exactly the bytes covered, which on success are all of them.
   */
  ghost predicate Converted(t: Tables, mode: Mode, code: Code, room: nat, res: Result, slots: seq<Slot>)
    requires t.WellFormed() && Fits(Steps(t, mode))
  {
    var r, mask := PlainRun(t, mode, code, room), ConfigOf(mode).mask;
    && res == (if r.outcome == Finished then DECRES_SUCCESS else DECRES_MEMORYERR)
    && |slots| == |r.used| <= room
    && Tiles(r.used, code, mask, 0) && slots == Texts(r.used, code, mask, 0)
    && (forall i | 0 <= i < |slots| :: slots[i].Text?)
    && Covered(r.used) <= |code.bytes| && (res == DECRES_SUCCESS ==> Covered(r.used) == |code.bytes|)
    && AllHex(slots) == HexDump(code.bytes[..Covered(r.used)])
  }

  lemma {:induction false} TextsAreConverted(t: Tables, mode: Mode, code: Code, room: nat, res: Result,
                                             slots: seq<Slot>)
    requires t.WellFormed() && Fits(Steps(t, mode))
    requires var r := PlainRun(t, mode, code, room);
             && res == (if r.outcome == Finished then DECRES_SUCCESS else DECRES_MEMORYERR)
             && Tiles(r.used, code, ConfigOf(mode).mask, 0) && slots == Texts(r.used, code, ConfigOf(mode).mask, 0)
    ensures Converted(t, mode, code, room, res, slots)
  {
    var r := PlainRun(t, mode, code, room);
    RunIsConvertible(t, mode, code, room);
    DumpsAddUp(r.used, code, ConfigOf(mode).mask, 0, Covered(r.used));
    assert code.bytes[0..Covered(r.used)] == code.bytes[..Covered(r.used)];
  }

  /** distorm_decode64, once its arguments are known to be good. */
  method DecodeAndConvert(t: Tables, mode: Mode, code: Code, result: array<Slot>, maxInstructions: nat)
    returns (res: Result, used: nat)
    requires t.WellFormed() && |code.bytes| < 0x8000_0000 && maxInstructions <= result.Length
    requires DumpFits(MaxAddrOf(mode), code.offset, |code.bytes|)
    modifies result
    ensures Fits(Steps(t, mode)) && used <= maxInstructions
    ensures Converted(t, mode, code, maxInstructions, res, result[..used])
    ensures result[maxInstructions..] == old(result[maxInstructions..])
  {
    if |code.bytes| == 0 {
      StepsFit(t, mode);
      TextsAreConverted(t, mode, code, maxInstructions, DECRES_SUCCESS, result[..0]);
      return DECRES_SUCCESS, 0;
    }
    var outcome;
    outcome, used := DecodeInternal(t, mode, ConfigOf(mode), code, result, maxInstructions);
    ghost var r := PlainRun(t, mode, code, maxInstructions);
    RunIsConvertible(t, mode, code, maxInstructions);
    ghost var tail := result[maxInstructions..];
    Convert(code, MaxAddrOf(mode), result, used, r.used, ConfigOf(mode).mask);
    assert result[maxInstructions..] == result[used..][maxInstructions - used..];
    res := if outcome == Finished then DECRES_SUCCESS else DECRES_MEMORYERR;
    TextsAreConverted(t, mode, code, maxInstructions, res, result[..used]);
  }

  /**
   What the caller is promised, in the terms of the slots alone: each renders the bytes right behind those of the slots
   before it. All bytes are covered exactly on success, and success means that there was room for the whole plain
   result.
   */
  ghost predicate Delivered(t: Tables, mode: Mode, space: nat, code: Code, room: nat, res: Result, slots: seq<Slot>)
    requires t.WellFormed() && Fits(Steps(t, mode)) && space > 0
  {
    && Converted(t, mode, code, room, res, slots)
    && AllRender(slots, code.bytes, code.offset, space)
    && (res == DECRES_SUCCESS <==> SizeBefore(slots, |slots|) == |code.bytes|)
    && (res == DECRES_SUCCESS <==> |Plain(Steps(t, mode), ConfigOf(mode).mask, code, 0)| <= room)
    && (res == DECRES_MEMORYERR <==> SizeBefore(slots, |slots|) < |code.bytes|)
  }

  lemma {:induction false} RoomDecides(t: Tables, mode: Mode, code: Code, room: nat)
    requires t.WellFormed() && Fits(Steps(t, mode))
    ensures var r := PlainRun(t, mode, code, room);
            && (r.outcome == Finished <==> |Plain(Steps(t, mode), ConfigOf(mode).mask, code, 0)| <= room)
            && (r.outcome == Finished <==> Covered(r.used) == |code.bytes|)
  {
    var step, c := Steps(t, mode), ConfigOf(mode);
    FinishesWithRoom(step, c, code, 0, room);
    NoStops(c, Plain(step, c.mask, code, 0));
    RunIsConvertible(t, mode, code, room);
    if PlainRun(t, mode, code, room).outcome == OutOfRoom {
      GivingUpResumes(step, c, code, 0, room);
    }
  }

  lemma {:induction false} ConvertedIsDelivered(t: Tables, mode: Mode, space: nat, code: Code, room: nat, res: Result,
                                                slots: seq<Slot>)
    requires t.WellFormed() && Fits(Steps(t, mode)) && Converted(t, mode, code, room, res, slots)
    requires space > 0 && forall x: nat {:trigger Masked(MaxAddrOf(mode), x)} :: Masked(MaxAddrOf(mode), x) == x % space
    ensures Delivered(t, mode, space, code, room, res, slots)
  {
    var r, mask := PlainRun(t, mode, code, room), ConfigOf(mode).mask;
    RunIsConvertible(t, mode, code, room);
    RoomDecides(t, mode, code, room);
    SizesAreCovered(r.used, code, mask, slots, |slots|);
    assert r.used[..|slots|] == r.used;
    forall i | 0 <= i < |slots|
      ensures Renders(slots[i], code.bytes, code.offset, space, SizeBefore(slots, i))
    {
      TextRenders(r.used, code, mask, slots, space, i);
    }
  }

  function ModeOf(dt: int): Mode { if dt == 0 then Bits16 else if dt == 1 then Bits32 else Bits64 }

  function SpaceOf(dt: int): (space: nat)
    ensures space > 0
  {
    if dt == 0 then 0x1_0000 else if dt == 1 then 0x1_0000_0000 else 0x1_0000_0000_0000_0000
  }

  lemma {:induction false} MaskIsSpace(dt: int, x: nat)
    requires dt == 0 || dt == 1 || dt == 2
    ensures Masked(MaxAddrOf(ModeOf(dt)), x) == x % SpaceOf(dt)
  {
  }

  /**
   distorm_decode64: decode into the array, then turn each entry into text where it is. The decode types 0, 1 and 2 are
   16, 32 and 64 bits, in which addresses are cut to as many bits. Arguments are refused for a negative length, another
   decode type, or no code or array.
   */
  method Decode64(t: Tables, codeOffset: nat, code: Option<seq<Byte>>, codeLen: int, dt: int,
                  result: array?<Slot>, maxInstructions: nat)
    returns (res: Result, used: nat)
    requires t.WellFormed() && codeLen < 0x8000_0000
    requires code.Some? ==> codeLen <= |code.value|
    requires result != null ==> maxInstructions <= result.Length
    requires dt == 0 && codeLen > 0 ==> codeOffset % 0x1_0000_0000 + codeLen <= 0x1_0000
    modifies if result == null then {} else {result}
    ensures Fits(Steps(t, Bits16)) && Fits(Steps(t, Bits32)) && Fits(Steps(t, Bits64))
    ensures codeLen < 0 || dt < 0 || dt > 2 || code.None? || result == null <==> res == DECRES_INPUTERR
    ensures res == DECRES_INPUTERR ==> used == 0 && (result != null ==> result[..] == old(result[..]))
    ensures res != DECRES_INPUTERR ==> used <= maxInstructions
    ensures res != DECRES_INPUTERR && dt == 0 ==>
              Delivered(t, Bits16, 0x1_0000, Code(code.value[..codeLen], codeOffset), maxInstructions, res,
                        result[..used])
    ensures res != DECRES_INPUTERR && dt == 1 ==>
              Delivered(t, Bits32, 0x1_0000_0000, Code(code.value[..codeLen], codeOffset), maxInstructions, res,
                        result[..used])
    ensures res != DECRES_INPUTERR && dt == 2 ==>
              Delivered(t, Bits64, 0x1_0000_0000_0000_0000, Code(code.value[..codeLen], codeOffset), maxInstructions,
                        res, result[..used])
    ensures result != null ==> result[maxInstructions..] == old(result[maxInstructions..])
  {
    StepsFit(t, Bits16);
    StepsFit(t, Bits32);
    StepsFit(t, Bits64);
    if codeLen < 0 || (dt != 0 && dt != 1 && dt != 2) || code.None? || result == null {
      return DECRES_INPUTERR, 0;
    }
    ghost var whole := Code(code.value[..codeLen], codeOffset);
    res, used := DecodeAndConvert(t, ModeOf(dt), Code(code.value[..codeLen], codeOffset), result, maxInstructions);
    forall x: nat
      ensures Masked(MaxAddrOf(ModeOf(dt)), x) == x % SpaceOf(dt)
    {
      MaskIsSpace(dt, x);
    }
    ConvertedIsDelivered(t, ModeOf(dt), SpaceOf(dt), whole, maxInstructions, res, result[..used]);
  }

  // ---- The interface that returns entries ---------------------------------------------------------

  /** The features a caller may choose: a maximum address, the flow control filter, and the classes to stop on. */
  datatype Features = Features(max16: bool, max32: bool, fcOnly: bool, stops: set<FlowControl>)

  function ConfigFor(f: Features): (c: Config)
    ensures c.fcOnly == f.fcOnly && c.stops == f.stops
    ensures f.max32 ==> forall x: nat {:trigger c.mask(x)} :: c.mask(x) == x % 0x1_0000_0000
    ensures f.max16 && !f.max32 ==> forall x: nat {:trigger c.mask(x)} :: c.mask(x) == x % 0x1_0000
    ensures !f.max16 && !f.max32 ==> forall x: nat {:trigger c.mask(x)} :: c.mask(x) == x % 0x1_0000_0000_0000_0000
  {
    Config(x => if f.max32 then x % 0x1_0000_0000 else if f.max16 then x % 0x1_0000 else x % 0x1_0000_0000_0000_0000,
           f.fcOnly, f.stops)
  }

  /** What the run makes of the code, and what the caller gets of it. */
  ghost predicate Decomposed(t: Tables, mode: Mode, f: Features, code: Code, room: nat, res: Result, slots: seq<Slot>)
    requires t.WellFormed() && Fits(Steps(t, mode)) && ConfigFor(f).Proper()
  {
    var r := Run(Steps(t, mode), ConfigFor(f), code, 0, room);
    slots == Raws(r.used) && res == if r.outcome == Finished then DECRES_SUCCESS else DECRES_MEMORYERR
  }

  /** distorm_decompose64, which refuses two maximum addresses as well. */
  method Decompose64(t: Tables, codeOffset: nat, code: Option<seq<Byte>>, codeLen: int, dt: int, features: Features,
                     result: array?<Slot>, maxInstructions: nat)
    returns (res: Result, used: nat)
    requires t.WellFormed() && FC_NONE !in features.stops
    requires code.Some? ==> codeLen <= |code.value|
    requires result != null ==> maxInstructions <= result.Length
    modifies if result == null then {} else {result}
    ensures Fits(Steps(t, Bits16)) && Fits(Steps(t, Bits32)) && Fits(Steps(t, Bits64))
    ensures codeLen < 0 || dt < 0 || dt > 2 || code.None? || result == null || (features.max16 && features.max32)
            <==> res == DECRES_INPUTERR
    ensures res == DECRES_INPUTERR ==> used == 0 && (result != null ==> result[..] == old(result[..]))
    ensures res != DECRES_INPUTERR ==> used <= maxInstructions
    ensures res != DECRES_INPUTERR && dt == 0 ==>
              Decomposed(t, Bits16, features, Code(code.value[..codeLen], codeOffset), maxInstructions, res,
                         result[..used])
    ensures res != DECRES_INPUTERR && dt == 1 ==>
              Decomposed(t, Bits32, features, Code(code.value[..codeLen], codeOffset), maxInstructions, res,
                         result[..used])
    ensures res != DECRES_INPUTERR && dt == 2 ==>
              Decomposed(t, Bits64, features, Code(code.value[..codeLen], codeOffset), maxInstructions, res,
                         result[..used])
    ensures result != null ==> result[maxInstructions..] == old(result[maxInstructions..])
  {
    StepsFit(t, Bits16);
    StepsFit(t, Bits32);
    StepsFit(t, Bits64);
    used := 0;
    if codeLen < 0 || (dt != 0 && dt != 1 && dt != 2) || code.None? || result == null
       || (features.max16 && features.max32) {
      return DECRES_INPUTERR, 0;
    }
    if codeLen == 0 {
      return DECRES_SUCCESS, 0;
    }
    var outcome;
    outcome, used := DecodeInternal(t, ModeOf(dt), ConfigFor(features), Code(code.value[..codeLen], codeOffset), result,
                                    maxInstructions);
    res := if outcome == Finished then DECRES_SUCCESS else DECRES_MEMORYERR;
  }
}
