/** Big-endian integers as they travel on the wire.

    A C++ `char` is modelled by its unsigned value, so a byte is an integer below 256.
    Where the program reads a `char` as a signed number, `Signed` says so. */
module Bytes {
  type byte = x: int | 0 <= x < 0x100
  type u16 = x: int | 0 <= x < 0x1_0000
  type u32 = x: int | 0 <= x < TWO_32
  type int32 = x: int | -0x8000_0000 <= x < 0x8000_0000

  const TWO_32 := 0x1_0000_0000

  /** The 32-bit two's complement reading of any integer: what a conversion to `int32_t` yields. */
  function ToInt32(x: int): (r: int32)
    ensures (x - r) % TWO_32 == 0
  {
    (x + 0x8000_0000) % TWO_32 - 0x8000_0000
  }

  /** A `char` read as a number is signed. */
  function Signed(b: byte): int {
    if b < 0x80 then b else b - 0x100
  }

  lemma OneByte(b: byte)
    ensures BigEndian(b, 1) == [b]
  {
  }

  /** `n << 8 * k` and `n >> 8 * k`. */
  function ShiftLeft(n: nat, k: nat): nat {
    if k == 0 then n else 256 * ShiftLeft(n, k - 1)
  }

  function ShiftRight(n: nat, k: nat): nat {
    if k == 0 then n else ShiftRight(n, k - 1) / 256
  }

  /** The low `width` bytes of `n`, most significant byte first. */
  function BigEndian(n: nat, width: nat): (s: seq<byte>)
    ensures |s| == width
  {
    if width == 0 then [] else BigEndian(n / 256, width - 1) + [n % 256]
  }

  function FromBigEndian(s: seq<byte>): nat {
    if s == [] then 0 else FromBigEndian(s[..|s| - 1]) * 256 + s[|s| - 1]
  }

  lemma {:induction false} FromBigEndianBounded(s: seq<byte>)
    ensures FromBigEndian(s) < ShiftLeft(1, |s|)
  {
    if s == [] {
    } else {
      FromBigEndianBounded(s[..|s| - 1]);
    }
  }

  lemma {:induction false} ParsePrint(n: nat, width: nat)
    requires n < ShiftLeft(1, width)
    ensures FromBigEndian(BigEndian(n, width)) == n
  {
    if width == 0 {
    } else {
      var s := BigEndian(n, width);
      assert s[..width - 1] == BigEndian(n / 256, width - 1) && s[width - 1] == n % 256;
      ParsePrint(n / 256, width - 1);
      assert FromBigEndian(s) == (n / 256) * 256 + n % 256;
    }
  }

  lemma {:induction false} PrintParse(s: seq<byte>)
    ensures BigEndian(FromBigEndian(s), |s|) == s
  {
    if s == [] {
    } else {
      PrintParse(s[..|s| - 1]);
      var high, low := FromBigEndian(s[..|s| - 1]), s[|s| - 1];
      assert (high * 256 + low) / 256 == high && (high * 256 + low) % 256 == low;
    }
  }

  /** The two widths the messages use. */
  lemma WireIntegers(n: u32, s: seq<byte>)
    ensures FromBigEndian(BigEndian(n, 4)) == n
    ensures n < 0x1_0000 ==> FromBigEndian(BigEndian(n, 2)) == n
    ensures |s| <= 4 ==> FromBigEndian(s) < TWO_32
    ensures |s| <= 2 ==> FromBigEndian(s) < 0x1_0000
    ensures BigEndian(FromBigEndian(s), |s|) == s
  {
    assert ShiftLeft(1, 1) == 256 && ShiftLeft(1, 2) == 0x1_0000;
    assert ShiftLeft(1, 3) == 0x100_0000 && ShiftLeft(1, 4) == TWO_32;
    ParsePrint(n, 4);
    if n < 0x1_0000 { ParsePrint(n, 2); }
    FromBigEndianBounded(s);
    PrintParse(s);
  }

  lemma {:induction false} ShiftAppend(high: nat, low: nat, k: nat)
    ensures ShiftLeft(high * 256 + low, k) == ShiftLeft(high, k + 1) + ShiftLeft(low, k)
  {
    if k == 0 {
    } else {
      ShiftAppend(high, low, k - 1);
    }
  }

  lemma {:induction false} ShiftZero(k: nat)
    ensures ShiftLeft(0, k) == 0
  {
    if k == 0 {
    } else {
      ShiftZero(k - 1);
    }
  }

  /** `intToBytes<T>` with `sizeof(T) == width`. */
  method IntToBytes(t: nat, width: nat) returns (v: seq<byte>)
    ensures v == BigEndian(t, width)
  {
    var size := width;
    v := [];
    while size > 0
      invariant 0 <= size <= width
      invariant v == BigEndian(ShiftRight(t, size), width - size)
    {
      size := size - 1;
      v := v + [ShiftRight(t, size) % 256];
    }
  }

  /** `bytesToInt<T>` with `sizeof(T) == width`: consumes up to `width` bytes from the front of
      the view. The bytes or-ed into `n` occupy disjoint positions, so `|=` is addition. */
  method BytesToInt(d: seq<byte>, width: nat) returns (n: nat, rest: seq<byte>)
    ensures n == FromBigEndian(Front(d, width)) && rest == Back(d, width)
  {
    n, rest := 0, d;
    if |d| < 1 {
      return;
    }
    var size := if |d| > width then width else |d|;
    var i := 0;
    ShiftZero(size);
    while i < size
      invariant 0 <= i <= size <= |d|
      invariant rest == d[i..]
      invariant n == ShiftLeft(FromBigEndian(d[..i]), size - i)
    {
      assert d[..i + 1][..i] == d[..i];
      ShiftAppend(FromBigEndian(d[..i]), d[i], size - i - 1);
      n := n + ShiftLeft(rest[0], size - i - 1);
      rest := rest[1..];
      i := i + 1;
    }
    assert d[..size] == Front(d, width);
  }

  /** What `bytesToInt` consumes, and what it leaves. */
  function Front(d: seq<byte>, width: nat): seq<byte> {
    if |d| <= width then d else d[..width]
  }

  function Back(d: seq<byte>, width: nat): seq<byte> {
    if |d| <= width then [] else d[width..]
  }
}
