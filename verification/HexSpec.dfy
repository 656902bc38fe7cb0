/** Hexadecimal text: what the printers append, and how to read it back. */
module HexSpec {
  import Bytes
  import opened PowersOfTwo

  type Byte = Bytes.Byte

  const NUL: char := '\0'

  function Digit(d: nat): char
    requires d < 16
  {
    if d < 10 then '0' + d as char else 'a' + (d - 10) as char
  }

  /** The digits of a number without leading zeros, so none for zero. */
  function Digits(v: nat): string {
    if v == 0 then "" else Digits(v / 16) + [Digit(v % 16)]
  }

  /** What the printers of code and offsets append. */
  function Hex(v: nat): string {
    "0x" + Digits(v / 16) + [Digit(v % 16)]
  }

  /** What the hex dump appends for one byte. */
  function HexByte(b: nat): string
    requires b < 256
  {
    [Digit(b / 16), Digit(b % 16)]
  }

  function HexDump(bytes: seq<Byte>): string {
    if bytes == [] then "" else HexByte(bytes[0]) + HexDump(bytes[1..])
  }

  /** One more hexadecimal digit, which is dropped when it would be a leading zero. */
  lemma {:induction false} DigitsOfNext(v: nat, t: nat)
    requires t < 16
    ensures (16 * v + t) / 16 == v && (16 * v + t) % 16 == t
    ensures Digits(16 * v + t) == if v == 0 && t == 0 then "" else Digits(v) + [Digit(t)]
    ensures Digits(v) == "" <==> v == 0
  {
  }

  // ---- Reading the text ---------------------------------------------------

  function DigitValue(c: char): (d: nat)
    ensures d < 16
  {
    if '0' <= c <= '9' then (c - '0') as nat
    else if 'a' <= c <= 'f' then (c - 'a') as nat + 10
    else 0
  }

  function Parse(digits: string): nat {
    if digits == "" then 0 else 16 * Parse(digits[..|digits| - 1]) + DigitValue(digits[|digits| - 1])
  }

  lemma {:induction false} ValueOfDigit(d: nat)
    requires d < 16
    ensures DigitValue(Digit(d)) == d && (Digit(d) == '0' <==> d == 0)
  {
  }

  lemma {:induction false} ParseDigits(v: nat)
    ensures Parse(Digits(v)) == v
  {
    if v != 0 {
      ParseDigits(v / 16);
      ValueOfDigit(v % 16);
      var s := Digits(v);
      assert s[..|s| - 1] == Digits(v / 16);
    }
  }

  lemma {:induction false} NoLeadingZero(v: nat)
    requires v > 0
    ensures Digits(v) != "" && Digits(v)[0] != '0'
  {
    ValueOfDigit(v % 16);
    if v / 16 > 0 {
      NoLeadingZero(v / 16);
    }
  }

  function Pow16(k: nat): (p: nat)
    ensures p > 0
  {
    if k == 0 then 1 else 16 * Pow16(k - 1)
  }

  lemma {:induction false} DigitsFit(v: nat, n: nat)
    requires v < Pow16(n)
    ensures |Digits(v)| <= n
  {
    if v > 0 && n > 0 {
      DigitsFit(v / 16, n - 1);
    }
  }

  /**
   Reading back what is printed gives the value; the text starts with "0x", and its first digit is zero only for
   the value zero, which is printed as just that digit.
   */
  lemma {:induction false} PrintedIsRead(v: nat)
    ensures |Hex(v)| > 2 && Hex(v)[..2] == "0x" && Parse(Hex(v)[2..]) == v
    ensures Hex(v)[2] == '0' <==> v == 0
    ensures v == 0 ==> Hex(v) == "0x0"
  {
    var s := Hex(v)[2..];
    assert s == Digits(v / 16) + [Digit(v % 16)];
    assert s[..|s| - 1] == Digits(v / 16);
    ParseDigits(v / 16);
    ValueOfDigit(v % 16);
    if v / 16 > 0 {
      NoLeadingZero(v / 16);
    }
  }

  // ---- The hex dump ---------------------------------------------------------

  function Undump(text: string): seq<Byte> {
    if |text| < 2 then []
    else [16 * DigitValue(text[0]) + DigitValue(text[1])] + Undump(text[2..])
  }

  lemma {:induction false} DumpIsRead(bytes: seq<Byte>)
    ensures |HexDump(bytes)| == 2 * |bytes| && Undump(HexDump(bytes)) == bytes
  {
    if bytes != [] {
      DumpIsRead(bytes[1..]);
      var b, rest := bytes[0], HexDump(bytes[1..]);
      ValueOfDigit(b / 16);
      ValueOfDigit(b % 16);
      var text := HexByte(b) + rest;
      assert text[0] == Digit(b / 16) && text[1] == Digit(b % 16) && text[2..] == rest;
      assert Undump(text) == [b] + Undump(rest);
    }
  }

  lemma {:induction false} Regroup(a: string, b: string, c: string)
    ensures a + (b + c) == a + b + c
  {
  }

  lemma {:induction false} DumpOfBoth(a: seq<Byte>, b: seq<Byte>)
    ensures HexDump(a + b) == HexDump(a) + HexDump(b)
  {
    if a == [] {
      assert a + b == b;
    } else {
      DumpOfBoth(a[1..], b);
      assert (a + b)[1..] == a[1..] + b;
      Regroup(HexByte(a[0]), HexDump(a[1..]), HexDump(b));
    }
  }

  // ---- Nibbles ----------------------------------------------------------------

  function Quotient(a: nat, b: nat): nat
    requires b > 0
  {
    a / b
  }

  /** The nibble of `x` with `k` nibbles below it. */
  function Nibble(x: nat, k: nat): (t: nat)
    ensures t < 16
  {
    Quotient(x, Pow16(k)) % 16
  }

  function Product(a: nat, b: nat): nat { a * b }

  /** The number whose digits are those of `v` and then the nibbles of `x` from `n` down to `k`. */
  function Written(v: nat, x: nat, n: nat, k: nat): nat
    requires k <= n
  {
    Product(v, Pow16(n - k)) + Quotient(x, Pow16(k))
  }

  lemma {:induction false} NothingWritten(v: nat, x: nat, n: nat)
    requires x < Pow16(n)
    ensures Written(v, x, n, n) == v
  {
    RemainderIs(x, Pow16(n), 0, x);
    assert Pow16(n - n) == 1;
  }

  lemma {:induction false} DivideTwice(x: nat, p: nat)
    requires p > 0
    ensures x / p == 16 * (x / (16 * p)) + x / p % 16
  {
    var q, r := x / p, x % p;
    var q', t := q / 16, q % 16;
    assert x == q * p + r && q == q' * 16 + t;
    assert x == q' * (16 * p) + (t * p + r) by {
      assert q * p == (q' * 16 + t) * p == q' * (16 * p) + t * p;
    }
    MultiplyMonotone(t, 15, p);
    RemainderIs(x, 16 * p, q', t * p + r);
  }

  lemma {:induction false} Regroup16(v: nat, p: nat)
    ensures v * (16 * p) == 16 * (v * p)
  {
  }

  lemma {:induction false} NextNibble(v: nat, x: nat, n: nat, k: nat)
    requires 0 < k <= n
    ensures Written(v, x, n, k - 1) == 16 * Written(v, x, n, k) + Nibble(x, k - 1)
  {
    DivideTwice(x, Pow16(k - 1));
    Regroup16(v, Pow16(n - k));
  }

  /** A little-endian load. */
  function Load(src: seq<Byte>): nat {
    if src == [] then 0 else src[0] + 256 * Load(src[1..])
  }

  lemma {:induction false} Pow16Twice(n: nat)
    ensures Pow16(n + 2) == 256 * Pow16(n)
  {
  }

  lemma {:induction false} LoadFits(src: seq<Byte>)
    ensures Load(src) < Pow16(2 * |src|)
  {
    if src != [] {
      LoadFits(src[1..]);
      Pow16Twice(2 * |src| - 2);
    }
  }

  lemma {:induction false} Regroup256(p: nat, y: nat)
    ensures 256 * (p * y) == (256 * p) * y
  {
  }

  lemma {:induction false} LoadOfBoth(a: seq<Byte>, b: seq<Byte>)
    ensures Load(a + b) == Load(a) + Pow16(2 * |a|) * Load(b)
  {
    if a == [] {
      assert a + b == b;
    } else {
      LoadOfBoth(a[1..], b);
      assert (a + b)[1..] == a[1..] + b;
      Pow16Twice(2 * |a| - 2);
      Regroup256(Pow16(2 * |a| - 2), Load(b));
    }
  }

  /** The bytes of a number in memory, lowest first. */
  function LittleEndian(x: nat, n: nat): (b: seq<Byte>)
    ensures |b| == n
  {
    if n == 0 then [] else [x % 256] + LittleEndian(x / 256, n - 1)
  }

  lemma {:induction false} LoadOfLittleEndian(x: nat, n: nat)
    requires x < Pow16(2 * n)
    ensures Load(LittleEndian(x, n)) == x
  {
    if n > 0 {
      Pow16Twice(2 * n - 2);
      LoadOfLittleEndian(x / 256, n - 1);
      assert LittleEndian(x, n)[1..] == LittleEndian(x / 256, n - 1);
    }
  }

  // ---- One byte as a number ----------------------------------------------------

  /** An entry of the table of byte texts, four characters wide. */
  function ByteText(i: nat): string
    requires i < 256
  {
    if i < 16 then "0x" + [Digit(i), NUL] else "0x" + [Digit(i / 16), Digit(i % 16)]
  }

  /** What str_code_hb appends for any unsigned number. */
  function AppendedByHb(x: nat): string {
    if x < 16 then ByteText(x)[..3] else ByteText(x % 256)
  }

  /** The printer of bytes is right exactly when it is given a byte, which is all that its callers give it. */
  lemma {:induction false} HbIsHex(x: nat)
    ensures AppendedByHb(x) == Hex(x) <==> x < 256
  {
    if x < 16 {
      assert Hex(x) == "0x" + [Digit(x)];
    } else if x < 256 {
      assert Digits(x / 16) == [Digit(x / 16)];
    } else {
      DigitsOfNext(x / 16 / 16, x / 16 % 16);
      assert |Digits(x / 16)| >= 2;
    }
  }
}
