/** The Bitfield payload: eight pieces to a byte, piece 0 in the highest bit. */
module Bitfields {
  import opened Bytes

  /** The number that `bits` spells in base two, highest bit first. */
  function FromBits(bits: seq<bool>): nat {
    if bits == [] then 0 else 2 * FromBits(bits[..|bits| - 1]) + if bits[|bits| - 1] then 1 else 0
  }

  /** The low `n` bits of `x`, highest first. */
  function ToBits(x: nat, n: nat): (bits: seq<bool>)
    ensures |bits| == n
  {
    if n == 0 then [] else ToBits(x / 2, n - 1) + [x % 2 == 1]
  }

  function Shift(x: nat, k: nat): nat {
    if k == 0 then x else 2 * Shift(x, k - 1)
  }

  lemma {:induction false} BitsRoundTrip(bits: seq<bool>)
    ensures ToBits(FromBits(bits), |bits|) == bits
  {
    if bits == [] {
    } else {
      BitsRoundTrip(bits[..|bits| - 1]);
    }
  }

  lemma {:induction false} NumberRoundTrip(x: nat, n: nat)
    requires x < Shift(1, n)
    ensures FromBits(ToBits(x, n)) == x
  {
    if n == 0 {
    } else {
      NumberRoundTrip(x / 2, n - 1);
      assert ToBits(x, n)[..n - 1] == ToBits(x / 2, n - 1);
    }
  }

  lemma {:induction false} FromBitsBounded(bits: seq<bool>)
    ensures FromBits(bits) < Shift(1, |bits|)
  {
    if bits == [] {
    } else {
      FromBitsBounded(bits[..|bits| - 1]);
    }
  }

  lemma {:induction false} ShiftDistributes(x: nat, y: nat, k: nat)
    ensures Shift(2 * x + y, k) == Shift(x, k + 1) + Shift(y, k)
  {
    if k == 0 {
    } else {
      ShiftDistributes(x, y, k - 1);
    }
  }

  lemma {:induction false} TrailingZeros(bits: seq<bool>, k: nat)
    ensures FromBits(bits + Zeros(k)) == Shift(FromBits(bits), k)
  {
    if k == 0 {
      assert bits + Zeros(0) == bits;
    } else {
      TrailingZeros(bits, k - 1);
      assert (bits + Zeros(k))[..|bits| + k - 1] == bits + Zeros(k - 1);
    }
  }

  /** The byte whose leading bits are `bits`, the others zero. */
  function ByteOf(bits: seq<bool>): byte
    requires |bits| <= 8
  {
    ByteBounded(bits);
    Shift(FromBits(bits), 8 - |bits|)
  }

  lemma ByteBounded(bits: seq<bool>)
    requires |bits| <= 8
    ensures Shift(FromBits(bits), 8 - |bits|) < 256
  {
    TrailingZeros(bits, 8 - |bits|);
    FromBitsBounded(bits + Zeros(8 - |bits|));
    assert Shift(1, 8) == 256;
  }

  lemma ByteRoundTrip(b: byte)
    ensures ByteOf(ToBits(b, 8)) == b
  {
    assert Shift(1, 8) == 256;
    NumberRoundTrip(b, 8);
  }

  /** Halving `7 - j` times and looking at the parity: `(c & (0x80 >> j)) >> (7 - j)`. */
  predicate BitAt(x: nat, shift: nat) {
    if shift == 0 then x % 2 == 1 else BitAt(x / 2, shift - 1)
  }

  lemma {:induction false} BitAtPosition(x: nat, n: nat, j: nat)
    requires j < n
    ensures ToBits(x, n)[j] == BitAt(x, n - 1 - j)
  {
    if j == n - 1 {
    } else {
      BitAtPosition(x / 2, n - 1, j);
    }
  }

  function Pack(bits: seq<bool>): seq<byte> {
    if bits == [] then []
    else if |bits| <= 8 then [ByteOf(bits)]
    else [ByteOf(bits[..8])] + Pack(bits[8..])
  }

  function Unpack(bytes: seq<byte>): (bits: seq<bool>)
    ensures |bits| == 8 * |bytes|
  {
    if bytes == [] then [] else ToBits(bytes[0], 8) + Unpack(bytes[1..])
  }

  /** Piece `p` is bit `p % 8` of byte `p / 8`, counted from the highest. */
  lemma {:induction false} PieceBit(bytes: seq<byte>, p: nat)
    requires p < 8 * |bytes|
    ensures Unpack(bytes)[p] <==> BitAt(bytes[p / 8], 7 - p % 8)
  {
    if p < 8 {
      BitAtPosition(bytes[0], 8, p);
    } else {
      PieceBit(bytes[1..], p - 8);
      assert (p - 8) / 8 == p / 8 - 1 && (p - 8) % 8 == p % 8;
    }
  }

  /** The highest bit has the weight 128, the lowest 1. */
  lemma BitWeights(x: byte)
    ensures (BitAt(x, 7) <==> x >= 128) && (BitAt(x, 0) <==> x % 2 == 1)
  {
    assert BitAt(x, 7) <==> BitAt(x / 2 / 2 / 2 / 2 / 2 / 2 / 2, 0) by {
      assert BitAt(x, 7) <==> BitAt(x / 2, 6);
      assert BitAt(x / 2, 6) <==> BitAt(x / 2 / 2, 5);
      assert BitAt(x / 2 / 2, 5) <==> BitAt(x / 2 / 2 / 2, 4);
      assert BitAt(x / 2 / 2 / 2, 4) <==> BitAt(x / 2 / 2 / 2 / 2, 3);
      assert BitAt(x / 2 / 2 / 2 / 2, 3) <==> BitAt(x / 2 / 2 / 2 / 2 / 2, 2);
      assert BitAt(x / 2 / 2 / 2 / 2 / 2, 2) <==> BitAt(x / 2 / 2 / 2 / 2 / 2 / 2, 1);
    }
  }

  function Zeros(n: nat): (bits: seq<bool>)
    ensures |bits| == n
  {
    seq(n, _ => false)
  }

  /** The set positions: the piece indices that a Bitfield announces. */
  function SetPositions(bits: seq<bool>): (s: set<nat>)
    ensures forall i :: i in s <==> 0 <= i < |bits| && bits[i]
  {
    set i | 0 <= i < |bits| && bits[i]
  }

  /** Parsing what was printed gives the bits, padded with zeros to whole bytes. */
  lemma {:induction false} UnpackPack(bits: seq<bool>)
    ensures |Pack(bits)| == (|bits| + 7) / 8
    ensures Unpack(Pack(bits)) == bits + Zeros(8 * |Pack(bits)| - |bits|)
  {
    if bits == [] {
    } else if |bits| <= 8 {
      TrailingZeros(bits, 8 - |bits|);
      BitsRoundTrip(bits + Zeros(8 - |bits|));
    } else {
      BitsRoundTrip(bits[..8]);
      UnpackPack(bits[8..]);
      assert Pack(bits)[1..] == Pack(bits[8..]);
      assert bits == bits[..8] + bits[8..];
    }
  }

  /** Printing what was parsed is the identity. */
  lemma {:induction false} PackUnpack(bytes: seq<byte>)
    ensures Pack(Unpack(bytes)) == bytes
  {
    if bytes == [] {
    } else {
      PackUnpack(bytes[1..]);
      ByteRoundTrip(bytes[0]);
      var bits := Unpack(bytes);
      assert bits[..8] == ToBits(bytes[0], 8) && bits[8..] == Unpack(bytes[1..]);
      assert |bytes| == 1 ==> bits == bits[..8] && bytes == [bytes[0]];
    }
  }

  /** A bit survives the trip through the wire form, and no piece is invented by the padding. */
  lemma AnnouncedPieces(bits: seq<bool>)
    ensures SetPositions(Unpack(Pack(bits))) == SetPositions(bits)
  {
    UnpackPack(bits);
  }

  /** Or-ing in one more bit of the byte that starts at position `n`. */
  lemma SetBit(bits: seq<bool>, n: nat, i: nat)
    requires n <= i < |bits| && i < n + 8
    ensures ByteOf(bits[n..i + 1]) == ByteOf(bits[n..i]) + if bits[i] then Shift(1, 7 - (i - n)) else 0
  {
    assert bits[n..i + 1][..i - n] == bits[n..i];
    ShiftDistributes(FromBits(bits[n..i]), if bits[i] then 1 else 0, 7 - (i - n));
    ShiftZero(7 - (i - n));
  }

  lemma PackFullByte(v: seq<byte>, bits: seq<bool>, n: nat)
    requires n + 8 <= |bits|
    ensures v + Pack(bits[n..]) == v + [ByteOf(bits[n..n + 8])] + Pack(bits[n + 8..])
  {
    var rest := bits[n..];
    hide Unpack, ToBits, FromBits, Shift;
    assert rest[..8] == bits[n..n + 8] && rest[8..] == bits[n + 8..];
    assert |rest| == 8 ==> rest[..8] == rest;
  }

  lemma PackLastByte(rest: seq<bool>)
    requires 0 < |rest| < 8
    ensures Pack(rest) == [ByteOf(rest)]
  {
    hide ByteOf;
  }

  predicate Aligned(n: nat) {
    n % 8 == 0
  }

  lemma Remainder(n: nat, i: nat)
    requires Aligned(n) && n <= i <= n + 8
    ensures i % 8 == if i == n + 8 then 0 else i - n
    ensures Aligned(n + 8)
  {
  }

  /** Where the loop is: the bytes before position `n` are pushed, `c` has the bits from there to `i`. */
  predicate Packing(bits: seq<bool>, n: nat, i: nat, c: nat, v: seq<byte>) {
    && n <= i <= |bits| && i < n + 8 && Aligned(n)
    && c == ByteOf(bits[n..i]) && v + Pack(bits[n..]) == Pack(bits)
  }

  lemma PackingBit(bits: seq<bool>, n: nat, i: nat, c: nat, v: seq<byte>)
    requires Packing(bits, n, i, c, v) && i < |bits|
    ensures var c' := c + if bits[i] then Shift(1, 7 - i % 8) else 0;
            if (i + 1) % 8 == 0 then c' < 0x100 && Packing(bits, i + 1, i + 1, 0, v + [c'])
            else Packing(bits, n, i + 1, c', v)
  {
    var c' := c + if bits[i] then Shift(1, 7 - i % 8) else 0;
    SetBit(bits, n, i);
    Remainder(n, i);
    Remainder(n, i + 1);
    assert ByteOf([]) == 0 by { ShiftZero(8); }
    hide ByteOf, Shift, Pack, Aligned;
    if (i + 1) % 8 == 0 {
      PackFullByte(v, bits, n);
      assert bits[i + 1..i + 1] == [];
    }
  }

  method BitfieldToBytes(bits: seq<bool>) returns (v: seq<byte>)
    ensures v == Pack(bits)
  {
    v := [];
    var c: nat, i: nat := 0, 0;
    ghost var n: nat := 0; // where the byte being built starts
    assert ByteOf([]) == 0 && Pack([]) == [] && bits[0..] == bits by { ShiftZero(8); }
    assert bits[0..0] == [] && Packing(bits, 0, 0, 0, []);
    while i < |bits|
      invariant Packing(bits, n, i, c, v) && i <= |bits|
      decreases |bits| - i
    {
      hide Packing, Shift;
      PackingBit(bits, n, i, c, v);
      if bits[i] {
        c := c + Shift(1, 7 - i % 8);
      }
      i := i + 1;
      if i % 8 == 0 {
        v := v + [c];
        c := 0;
        n := i;
      }
    }
    Remainder(n, i);
    if i % 8 != 0 {
      assert bits[n..i] == bits[n..];
      PackLastByte(bits[n..]);
      v := v + [c];
    }
  }

  method BytesToBitfield(len: nat, bytes: seq<byte>) returns (v: seq<bool>)
    requires len <= |bytes|
    ensures v == Unpack(bytes[..len])
  {
    v := [];
    ghost var view := bytes[..len];
    var i := 0;
    while i < len
      invariant 0 <= i <= len
      invariant v + Unpack(view[i..]) == Unpack(view)
    {
      assert view[i..][0] == bytes[i] && view[i..][1..] == view[i + 1..];
      v := AppendBits(bytes[i], v);
      i := i + 1;
    }
  }

  /** The inner loop of `bytesToBitfield`. */
  method AppendBits(c: byte, v: seq<bool>) returns (v': seq<bool>)
    ensures v' == v + ToBits(c, 8)
  {
    v' := v;
    var j := 0;
    while j < 8
      invariant 0 <= j <= 8
      invariant v' == v + ToBits(c, 8)[..j]
    {
      BitAtPosition(c, 8, j);
      v' := v' + [BitAt(c, 7 - j)];
      j := j + 1;
    }
  }

  lemma {:induction false} ShiftZero(k: nat)
    ensures Shift(0, k) == 0
  {
    if k == 0 {
    } else {
      ShiftZero(k - 1);
    }
  }
}
