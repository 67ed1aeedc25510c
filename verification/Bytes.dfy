/** Bytes, exclusive or, and big-endian integers, as used by the wire formats. */
module Bytes {
  import opened Division

  type byte = b: int | 0 <= b < 256

  function Pow(base: nat, exponent: nat): nat {
    if exponent == 0 then 1 else base * Pow(base, exponent - 1)
  }

  // Exclusive or of the low `bits` bits.
  function XorBits(a: nat, b: nat, bits: nat): nat {
    if bits == 0 then 0 else 2 * XorBits(a / 2, b / 2, bits - 1) + (a + b) % 2
  }

  lemma {:induction false} XorBitsInverse(a: nat, b: nat, bits: nat)
    requires a < Pow(2, bits)
    ensures XorBits(a, b, bits) < Pow(2, bits)
    ensures XorBits(XorBits(a, b, bits), b, bits) == a
  {
    if bits > 0 {
      XorBitsInverse(a / 2, b / 2, bits - 1);
      LastBit(XorBits(a / 2, b / 2, bits - 1), a, b);
    }
  }

  lemma LastBit(high: nat, a: nat, b: nat)
    ensures var x := 2 * high + (a + b) % 2;
      x / 2 == high && 2 * (a / 2) + (x + b) % 2 == a
  {
  }

  function Xor(a: byte, b: byte): (x: byte) {
    assert Pow(2, 8) == 256;
    XorBitsInverse(a, b, 8);
    XorBits(a, b, 8)
  }

  lemma XorInverse(a: byte, b: byte)
    ensures Xor(Xor(a, b), b) == a
  {
    assert Pow(2, 8) == 256;
    XorBitsInverse(a, b, 8);
  }

  // ---------------------------------------------------------------- what exclusive or means

  // Binary digit `k`.
  function Bit(n: nat, k: nat): nat {
    n / PowerOf(2, k) % 2
  }

  // A power that can be divided by.
  function PowerOf(base: nat, exponent: nat): (p: nat)
    requires base > 0
    ensures p > 0
  {
    PowerPositive(base, exponent);
    Pow(base, exponent)
  }

  lemma {:induction false} PowerPositive(base: nat, exponent: nat)
    requires base > 0
    ensures Pow(base, exponent) > 0
  {
    if exponent > 0 { PowerPositive(base, exponent - 1); }
  }

  lemma NextBit(n: nat, k: nat)
    ensures Bit(n, k + 1) == Bit(n / 2, k) && Bit(n, 0) == n % 2
  {
    DivideTwice(n, 2, PowerOf(2, k));
  }

  lemma SumDigits(high: nat, a: nat, b: nat)
    ensures var x := 2 * high + (a + b) % 2;
      x / 2 == high && (x % 2 == 1 <==> a % 2 != b % 2)
  {
  }

  lemma XorStep(a: nat, b: nat, bits: nat)
    requires bits > 0
    ensures XorBits(a, b, bits) / 2 == XorBits(a / 2, b / 2, bits - 1)
    ensures XorBits(a, b, bits) % 2 == 1 <==> a % 2 != b % 2
  {
    SumDigits(XorBits(a / 2, b / 2, bits - 1), a, b);
  }

  // Each digit of the exclusive or is one exactly where the digits differ.
  lemma {:induction false} XorDigits(a: nat, b: nat, bits: nat, k: nat)
    requires k < bits
    ensures Bit(XorBits(a, b, bits), k) == 1 <==> Bit(a, k) != Bit(b, k)
  {
    hide XorBits, Bit;
    var x := XorBits(a, b, bits);
    XorStep(a, b, bits);
    if k == 0 {
      NextBit(x, 0);
      NextBit(a, 0);
      NextBit(b, 0);
    } else {
      NextBit(x, k - 1);
      NextBit(a, k - 1);
      NextBit(b, k - 1);
      XorDigits(a / 2, b / 2, bits - 1, k - 1);
    }
  }

  lemma XorIsExclusiveOr(a: byte, b: byte, k: nat)
    requires k < 8
    ensures Bit(Xor(a, b), k) == 1 <==> Bit(a, k) != Bit(b, k)
  {
    XorDigits(a, b, 8, k);
  }

  lemma {:induction false} XorZero(a: nat, bits: nat)
    requires a < Pow(2, bits)
    ensures XorBits(a, 0, bits) == a
  {
    if bits > 0 { XorZero(a / 2, bits - 1); }
  }

  lemma XorExample()
    ensures Xor(0x50, 0x01) == 0x51
  {
    assert Pow(2, 7) == 128;
    XorZero(0x28, 7);
  }

  // ---------------------------------------------------------------- big-endian integers

  // The low `count` bytes of `value`, most significant first.
  function ToBigEndian(value: nat, count: nat): (s: seq<byte>)
    ensures |s| == count
  {
    if count == 0 then [] else ToBigEndian(value / 256, count - 1) + [value % 256]
  }

  function FromBigEndian(s: seq<byte>): nat {
    if s == [] then 0 else 256 * FromBigEndian(s[..|s| - 1]) + s[|s| - 1]
  }

  // The byte at `i` counts units of 256 to the power of how many bytes follow it.
  lemma {:induction false} BigEndianByte(value: nat, count: nat, i: nat)
    requires i < count
    ensures ToBigEndian(value, count)[i] == value / PowerOf(256, count - 1 - i) % 256
  {
    if i < count - 1 {
      BigEndianByte(value / 256, count - 1, i);
      DivideTwice(value, 256, PowerOf(256, count - 2 - i));
    }
  }

  // A run of bytes is read as its first part, shifted by the length of the rest, and the rest.
  lemma {:induction false} FromBigEndianJoin(a: seq<byte>, b: seq<byte>)
    ensures FromBigEndian(a + b) == FromBigEndian(a) * Pow(256, |b|) + FromBigEndian(b)
    decreases |b|
  {
    if b == [] {
      assert a + b == a;
    } else {
      var init := b[..|b| - 1];
      FromBigEndianJoin(a, init);
      assert (a + b)[..|a + b| - 1] == a + init;
      assert 256 * (FromBigEndian(a) * Pow(256, |init|)) == FromBigEndian(a) * (256 * Pow(256, |init|));
    }
  }

  lemma TwoBytes(a: byte, b: byte)
    ensures FromBigEndian([a, b]) == a * 0x100 + b
    ensures FromBigEndian([a]) == a
  {
    assert [a, b][..1] == [a] && [a][..0] == [] && FromBigEndian([]) == 0;
    assert FromBigEndian([a]) == a;
  }

  lemma FourBytes(a: byte, b: byte, c: byte, d: byte)
    ensures FromBigEndian([a, b, c, d]) == a * 0x100_0000 + b * 0x1_0000 + c * 0x100 + d
  {
    TwoBytes(a, b);
    TwoBytes(c, d);
    PowerValues();
    assert [a, b, c, d] == [a, b] + [c, d];
    FromBigEndianJoin([a, b], [c, d]);
    hide FromBigEndian, Pow;
  }

  // What is left of `value` above its low `count` bytes.
  function HighPart(value: nat, count: nat): nat {
    if count == 0 then value else HighPart(value / 256, count - 1)
  }

  lemma {:induction false} BigEndianRoundTrip(value: nat, count: nat)
    ensures value == Pow(256, count) * HighPart(value, count) + FromBigEndian(ToBigEndian(value, count))
  {
    if count > 0 {
      BigEndianRoundTrip(value / 256, count - 1);
      var s := ToBigEndian(value, count);
      assert s[..|s| - 1] == ToBigEndian(value / 256, count - 1);
      Regroup(value, Pow(256, count - 1), HighPart(value, count), FromBigEndian(s[..|s| - 1]));
    }
  }

  lemma Regroup(value: nat, p: nat, high: nat, low: nat)
    requires value / 256 == p * high + low
    ensures value == (256 * p) * high + (256 * low + value % 256)
  {
  }

  lemma {:induction false} FromBigEndianBound(s: seq<byte>)
    ensures FromBigEndian(s) < Pow(256, |s|)
  {
    if s != [] { FromBigEndianBound(s[..|s| - 1]); }
  }

  lemma BigEndianLow(value: nat, count: nat)
    requires count in {2, 4, 8}
    ensures FromBigEndian(ToBigEndian(value, count)) ==
            value % (if count == 2 then 0x1_0000 else if count == 4 then 0x1_0000_0000 else 0x1_0000_0000_0000_0000)
  {
    hide Pow, ToBigEndian, FromBigEndian, HighPart;
    BigEndianRoundTrip(value, count);
    FromBigEndianBound(ToBigEndian(value, count));
    PowerValues();
    var high := HighPart(value, count);
    if count == 2 {
      assert value == 0x1_0000 * high + FromBigEndian(ToBigEndian(value, count));
    } else if count == 4 {
      assert value == 0x1_0000_0000 * high + FromBigEndian(ToBigEndian(value, count));
    } else {
      assert value == 0x1_0000_0000_0000_0000 * high + FromBigEndian(ToBigEndian(value, count));
    }
  }

  lemma PowerValues()
    ensures Pow(256, 2) == 0x1_0000 && Pow(256, 4) == 0x1_0000_0000 && Pow(256, 8) == 0x1_0000_0000_0000_0000
  {
  }
}
