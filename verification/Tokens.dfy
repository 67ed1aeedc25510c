/**
 The tokens both sides leave in the shared memory area to prove that they mapped the same file
 (src/client/mmap.rs): least significant byte first, zero-padded.
 */
module Tokens {
  import opened Wrappers
  import opened Bytes
  import opened Division
  import Mmap

  const TOKEN_BYTES: nat := 8
  // what the reader can hold: 128 bits
  const WIDEST: nat := 16

  function ToLittleEndian(value: nat, count: nat): (s: seq<byte>)
    ensures |s| == count
  {
    if count == 0 then [] else [value % 256] + ToLittleEndian(value / 256, count - 1)
  }

  function FromLittleEndian(s: seq<byte>): nat {
    if s == [] then 0 else s[0] + 256 * FromLittleEndian(s[1..])
  }

  // The token at a place in the area; None if it is not inside, or wider than 128 bits.
  function TokenAt(area: seq<byte>, index: nat, count: nat): Option<nat> {
    if count == 0 || index + count > |area| then None
    else
      var bytes := area[index..index + count];
      if count <= WIDEST then Some(FromLittleEndian(bytes))
      else if forall i :: WIDEST <= i < count ==> bytes[i] == 0 then Some(FromLittleEndian(bytes[..WIDEST]))
      else None
  }

  method WriteToken(area: array<byte>, token: nat, index: nat, count: nat)
    requires index + count <= area.Length
    modifies area
    ensures area[index..index + count] == ToLittleEndian(token, count)
    ensures forall k :: 0 <= k < area.Length && !(index <= k < index + count) ==> area[k] == old(area[k])
  {
    hide ToLittleEndian;
    var value := token;
    for i := 0 to count
      invariant forall k :: 0 <= k < area.Length && !(index <= k < index + i) ==> area[k] == old(area[k])
      invariant area[index..index + i] + ToLittleEndian(value, count - i) == ToLittleEndian(token, count)
    {
      ghost var done := area[index..index + i];
      FirstByte(done, value, count - i);
      area[index + i] := value % 256;
      assert area[index..index + i + 1] == done + [value % 256];
      value := value / 256;
    }
    NoBytes(value);
    assert area[index..index + count] + [] == area[index..index + count];
  }

  lemma FirstByte(done: seq<byte>, value: nat, count: nat)
    requires count > 0
    ensures done + ToLittleEndian(value, count) == done + [value % 256] + ToLittleEndian(value / 256, count - 1)
  {
  }

  lemma NoBytes(value: nat)
    ensures ToLittleEndian(value, 0) == []
  {
  }

  method ReadToken(area: seq<byte>, index: nat, count: nat) returns (r: Option<nat>)
    ensures r == TokenAt(area, index, count)
  {
    if count == 0 || index + count > |area| { return None; }
    ghost var bytes := area[index..index + count];
    var token := 0;
    for i := 0 to count
      invariant token == FromLittleEndian(bytes[..if i < WIDEST then i else WIDEST])
      invariant forall j :: WIDEST <= j < i ==> bytes[j] == 0
    {
      var b := area[index + i];
      if i >= WIDEST {
        if b != 0 { return None; }
      } else {
        LastByte(bytes[..i], b);
        assert b == bytes[i];
        assert bytes[..i + 1] == bytes[..i] + [b];
        token := token + b * Pow(256, i);
      }
    }
    assert count <= WIDEST ==> bytes[..count] == bytes;
    r := Some(token);
  }

  lemma {:induction false} LastByte(s: seq<byte>, b: byte)
    ensures FromLittleEndian(s + [b]) == FromLittleEndian(s) + b * Pow(256, |s|)
  {
    if s == [] {
      assert [b][1..] == [];
    } else {
      LastByte(s[1..], b);
      assert (s + [b])[1..] == s[1..] + [b];
      assert 256 * (b * Pow(256, |s| - 1)) == b * (256 * Pow(256, |s| - 1));
    }
  }

  lemma {:induction false} LittleEndianRoundTrip(value: nat, count: nat)
    ensures value == FromLittleEndian(ToLittleEndian(value, count)) + Pow(256, count) * HighPart(value, count)
    ensures FromLittleEndian(ToLittleEndian(value, count)) < Pow(256, count)
  {
    if count > 0 {
      LittleEndianRoundTrip(value / 256, count - 1);
      Regroup(value, Pow(256, count - 1), HighPart(value, count), FromLittleEndian(ToLittleEndian(value / 256, count - 1)));
    }
  }

  // The byte at `i` counts units of 256 to the power of `i`: least significant first.
  lemma {:induction false} LittleEndianByte(value: nat, count: nat, i: nat)
    requires i < count
    ensures ToLittleEndian(value, count)[i] == value / PowerOf(256, i) % 256
  {
    if i > 0 {
      LittleEndianByte(value / 256, count - 1, i - 1);
      DivideTwice(value, 256, PowerOf(256, i - 1));
    }
  }

  lemma NoHighPart(value: nat, count: nat)
    ensures HighPart(value, count) == 0 <==> value < Pow(256, count)
  {
  }

  // Written into so many bytes, a token is read back exactly when it fits in them.
  lemma {:induction false} TokenRoundTrip(before: seq<byte>, after: seq<byte>, token: nat, count: nat)
    requires 0 < count <= WIDEST
    ensures TokenAt(before + ToLittleEndian(token, count) + after, |before|, count) == Some(token) <==>
            token < Pow(256, count)
  {
    var area := before + ToLittleEndian(token, count) + after;
    assert area[|before|..|before| + count] == ToLittleEndian(token, count);
    LittleEndianRoundTrip(token, count);
    NoHighPart(token, count);
    PowPositive(count);
  }

  lemma {:induction false} PowPositive(exponent: nat)
    ensures Pow(256, exponent) > 0
  {
    if exponent > 0 { PowPositive(exponent - 1); }
  }

  lemma {:induction false} PaddingIsZero(token: nat, count: nat, i: nat)
    requires i < count && token < Pow(256, i)
    ensures ToLittleEndian(token, count)[i] == 0
  {
    if i > 0 { PaddingIsZero(token / 256, count - 1, i - 1); }
  }

  lemma {:induction false} PaddingSplits(token: nat, count: nat)
    requires count >= WIDEST
    ensures ToLittleEndian(token, count)[..WIDEST] == ToLittleEndian(token, WIDEST)
  {
    PrefixOf(token, count, WIDEST);
  }

  lemma {:induction false} PrefixOf(token: nat, count: nat, k: nat)
    requires k <= count
    ensures ToLittleEndian(token, count)[..k] == ToLittleEndian(token, k)
  {
    if k > 0 { PrefixOf(token / 256, count - 1, k - 1); }
  }

  lemma {:induction false} PowGrows(a: nat, b: nat)
    requires a <= b
    ensures Pow(256, a) <= Pow(256, b)
  {
    if a < b {
      PowGrows(a, b - 1);
      PowPositive(b - 1);
    }
  }

  // The server pads its 128-bit token with zeros to any width, and it still reads back.
  lemma PaddedTokenReads(before: seq<byte>, after: seq<byte>, token: nat, count: nat)
    requires count > WIDEST && token < Pow(256, WIDEST)
    ensures TokenAt(before + ToLittleEndian(token, count) + after, |before|, count) == Some(token)
  {
    hide ToLittleEndian, FromLittleEndian, Pow, HighPart;
    var area := before + ToLittleEndian(token, count) + after;
    assert area[|before|..|before| + count] == ToLittleEndian(token, count);
    forall i | WIDEST <= i < count ensures ToLittleEndian(token, count)[i] == 0 {
      PowGrows(WIDEST, i);
      PaddingIsZero(token, count, i);
    }
    PaddingSplits(token, count);
    LittleEndianRoundTrip(token, WIDEST);
    NoHighPart(token, WIDEST);
  }

  // `gen_token`: whatever the random numbers, our own token lies inside the area, reads back, and
  // leaves the control words alone.
  method GenToken(area: array<byte>, token: nat, random: nat) returns (index: nat)
    requires area.Length >= Mmap.HEADER_SIZE + TOKEN_BYTES && token < 0x1_0000_0000_0000_0000
    modifies area
    ensures Mmap.HEADER_SIZE <= index && index + TOKEN_BYTES <= area.Length
    ensures TokenAt(area[..], index, TOKEN_BYTES) == Some(token)
    ensures forall k :: 0 <= k < area.Length && !(index <= k < index + TOKEN_BYTES) ==> area[k] == old(area[k])
  {
    index := Mmap.HEADER_SIZE + random % (area.Length - Mmap.HEADER_SIZE - TOKEN_BYTES + 1);
    WriteToken(area, token, index, TOKEN_BYTES);
    hide ToLittleEndian, FromLittleEndian, TokenAt, Pow;
    PowerValues();
    TokenRoundTrip(area[..index], area[index + TOKEN_BYTES..], token, TOKEN_BYTES);
    assert area[..] == area[..index] + ToLittleEndian(token, TOKEN_BYTES) + area[index + TOKEN_BYTES..];
  }
}
