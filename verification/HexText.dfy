/** The printers of hexadecimal text, which append to a string buffer in place. */
module HexText {
  import opened HexSpec
  import opened PowersOfTwo

  const MAX_TEXT_SIZE := 48

  lemma {:induction false} Together(a: string, b: string, c: string, d: string)
    ensures a + b + c + d == a + (b + c + d)
  {
  }

  lemma {:induction false} TwoHalves(src: seq<Byte>, hi: nat, lo: nat)
    requires |src| == 8 && hi == Load(src[4..]) && lo == Load(src[..4])
    ensures Load(src) / 16 == Written(hi, lo, 8, 1) && Load(src) % 16 == lo % 16
  {
    assert src == src[..4] + src[4..];
    LoadOfBoth(src[..4], src[4..]);
    assert |src[..4]| == 4;
  }

  lemma {:induction false} WrittenBehindNothing(x: nat, n: nat)
    requires n > 0
    ensures Written(0, x, n, 1) == x / 16
  {
    assert Pow16(1) == 16 * Pow16(0);
  }

  /** A string buffer: `length` characters of `p`, then a terminator. */
  class WString {
    var length: nat
    const p: array<char>

    ghost predicate Valid()
      reads this, p
    {
      p.Length == MAX_TEXT_SIZE && length < MAX_TEXT_SIZE && p[length] == NUL
    }

    function Text(): (s: string)
      requires length <= p.Length
      reads this, p
      ensures |s| == length
    {
      p[..length]
    }

    constructor ()
      ensures Valid() && Text() == "" && fresh(p)
    {
      p := new char[MAX_TEXT_SIZE](_ => NUL);
      length := 0;
    }

    /** strclear_WS */
    method Clear()
      requires p.Length == MAX_TEXT_SIZE
      modifies this, p
      ensures Valid() && Text() == ""
    {
      p[0] := NUL;
      length := 0;
    }

    /** strcatlen_WS: append characters and the terminator. */
    method Append(s: string)
      requires p.Length == MAX_TEXT_SIZE && length + |s| < MAX_TEXT_SIZE
      modifies this, p
      ensures Valid() && Text() == old(Text()) + s
    {
      forall i | 0 <= i < |s| {
        p[length + i] := s[i];
      }
      p[length + |s|] := NUL;
      length := length + |s|;
    }

    /** str_hex_b: two digits of the low byte, from a table. */
    method HexB(x: nat)
      requires Valid() && length + 2 < MAX_TEXT_SIZE
      modifies this, p
      ensures Valid() && Text() == old(Text()) + HexByte(x % 256) && length == old(length) + 2
    {
      Append(HexByte(x % 256));
      assert |Text()| == length;
    }

    /** str_code_hb: the text of a byte, from a table whose entries for one digit are shorter. */
    method CodeHb(x: nat)
      requires Valid() && length + 4 < MAX_TEXT_SIZE
      modifies this, p
      ensures Valid() && Text() == old(Text()) + AppendedByHb(x)
      ensures x < 256 ==> Text() == old(Text()) + Hex(x)
    {
      HbIsHex(x);
      if x < 0x10 {
        Append(ByteText(x % 256)[..3]);
      } else {
        Append(ByteText(x % 256));
      }
    }

    /** One nibble `t` behind the `i` digits of `w`. */
    method PutNibble(buf: nat, i: nat, t: nat, ghost w: nat) returns (i': nat)
      requires t < 16 && buf + i < p.Length && p[buf..buf + i] == Digits(w)
      modifies p
      ensures i <= i' <= i + 1 && p[..buf] == old(p[..buf]) && buf + i' <= p.Length
      ensures p[buf..buf + i'] == Digits(16 * w + t)
    {
      i' := i;
      DigitsOfNext(w, t);
      assert |p[buf..buf + i]| == i;
      if i != 0 || t != 0 {
        p[buf + i] := Digit(t);
        i' := i + 1;
        assert p[buf..buf + i'] == old(p[buf..buf + i]) + [Digit(t)];
      }
    }

    /**
     The loop of the printers of numbers, with shifts counted in nibbles: write the nibbles of `x` below `n` and down
     to `stop` behind the `i0` digits of `v`, leaving out leading zeros.
     */
    method PutNibbles(buf: nat, i0: nat, x: nat, n: nat, stop: nat, ghost v: nat) returns (i: nat)
      requires stop <= n && x < Pow16(n)
      requires buf + i0 + n - stop < p.Length && p[buf..buf + i0] == Digits(v)
      modifies p
      ensures i <= i0 + n - stop && p[..buf] == old(p[..buf])
      ensures p[buf..buf + i] == Digits(Written(v, x, n, stop))
    {
      i := i0;
      var k := n;
      NothingWritten(v, x, n);
      while k != stop
        invariant stop <= k <= n && i0 <= i <= i0 + n - k && p[..buf] == old(p[..buf])
        invariant p[buf..buf + i] == Digits(Written(v, x, n, k))
        decreases k
      {
        NextNibble(v, x, n, k);
        ghost var w := Written(v, x, n, k);
        k := k - 1;
        i := PutNibble(buf, i, Nibble(x, k), w);
      }
    }

    /** Two characters behind the text, where the digits go next. */
    method Put0x() returns (buf: nat)
      requires Valid() && length + 2 < MAX_TEXT_SIZE
      modifies p
      ensures buf == length + 2 && p[..buf] == old(Text()) + "0x" && p[buf..buf + 0] == Digits(0)
    {
      buf := length + 2;
      p[length], p[length + 1] := '0', 'x';
    }

    /** The last digit, which is written even for zero, and the terminator. */
    method Finish(buf: nat, i: nat, t: nat, ghost before: string, ghost x: nat)
      requires t == x % 16 && buf + i + 1 < p.Length == MAX_TEXT_SIZE
      requires p[..buf] == before + "0x" && p[buf..buf + i] == Digits(x / 16)
      modifies this, p
      ensures Valid() && Text() == before + Hex(x)
    {
      ghost var digits := p[buf..buf + i];
      p[buf + i] := Digit(t);
      length := buf + i + 1;
      p[length] := NUL;
      assert p[..length] == old(p[..buf]) + digits + [Digit(t)];
      Together(before, "0x", Digits(x / 16), [Digit(t)]);
    }

    /** The printers of a number of `n` nibbles, which differ in `n` only. */
    method PutNumber(x: nat, n: nat)
      requires Valid() && n > 0 && x < Pow16(n) && length + 2 + n < MAX_TEXT_SIZE
      modifies this, p
      ensures Valid() && Text() == old(Text()) + Hex(x)
    {
      var buf := Put0x();
      var i := PutNibbles(buf, 0, x, n, 1, 0);
      WrittenBehindNothing(x, n);
      Finish(buf, i, x % 16, old(Text()), x);
    }

    /** str_code_hdw */
    method CodeHdw(x: nat)
      requires Valid() && x < Pow16(8) && length + 10 < MAX_TEXT_SIZE
      modifies this, p
      ensures Valid() && Text() == old(Text()) + Hex(x)
    {
      PutNumber(x, 8);
    }

    /** str_off64 */
    method Off64(x: nat)
      requires Valid() && x < Pow16(16) && length + 18 < MAX_TEXT_SIZE
      modifies this, p
      ensures Valid() && Text() == old(Text()) + Hex(x)
    {
      PutNumber(x, 16);
    }

    /** str_code_hqw: the high half and then the low half of eight little-endian bytes. */
    method CodeHqw(src: seq<Byte>)
      requires Valid() && |src| == 8 && length + 18 < MAX_TEXT_SIZE
      modifies this, p
      ensures Valid() && Text() == old(Text()) + Hex(Load(src))
    {
      var buf := Put0x();
      var hi, lo := Load(src[4..]), Load(src[..4]);
      LoadFits(src[4..]);
      LoadFits(src[..4]);
      var i := PutNibbles(buf, 0, hi, 8, 0, 0);
      i := PutNibbles(buf, i, lo, 8, 1, hi);
      TwoHalves(src, hi, lo);
      Finish(buf, i, lo % 16, old(Text()), Load(src));
    }
  }
}
