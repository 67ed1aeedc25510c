/**
 Percent escaping on pinentry's Assuan lines (src/client/pinentry.rs). Text is UTF-8 bytes; the three
 escaped characters are ASCII, so working on bytes is working on characters.
 */
module Assuan {
  import opened Wrappers
  import opened Bytes

  const PERCENT: byte := 0x25
  const CR: byte := 0x0D
  const LF: byte := 0x0A

  function HexValue(b: byte): Option<nat> {
    if '0' as int <= b <= '9' as int then Some(b - '0' as int)
    else if 'a' as int <= b <= 'f' as int then Some(b - 'a' as int + 10)
    else if 'A' as int <= b <= 'F' as int then Some(b - 'A' as int + 10)
    else None
  }

  function EscapedByte(b: byte): seq<byte> {
    if b == PERCENT then [PERCENT, '2' as int, '5' as int]
    else if b == CR then [PERCENT, '0' as int, 'D' as int]
    else if b == LF then [PERCENT, '0' as int, 'A' as int]
    else [b]
  }

  function Escaped(s: seq<byte>): seq<byte> {
    if s == [] then [] else EscapedByte(s[0]) + Escaped(s[1..])
  }

  // An escape is a percent sign and two hex digits; anything else stands for itself.
  predicate IsEscape(s: seq<byte>) {
    |s| >= 3 && s[0] == PERCENT && HexValue(s[1]).Some? && HexValue(s[2]).Some?
  }

  function Unescaped(s: seq<byte>): seq<byte> {
    if s == [] then []
    else if IsEscape(s) then [16 * HexValue(s[1]).value + HexValue(s[2]).value] + Unescaped(s[3..])
    else [s[0]] + Unescaped(s[1..])
  }

  // Percent, carriage return and line feed are written as %25, %0D and %0A; other bytes as they are.
  lemma EscapeTable(b: byte)
    ensures Escaped([0x25]) == [0x25, 0x32, 0x35] && Escaped([0x0D]) == [0x25, 0x30, 0x44]
    ensures Escaped([0x0A]) == [0x25, 0x30, 0x41]
    ensures b != 0x25 && b != 0x0D && b != 0x0A ==> Escaped([b]) == [b]
  {
    assert forall x: byte :: [x][1..] == [];
  }

  // An escape of two hex digits, in either case, is one byte; a percent sign without them is itself.
  lemma HexDigits(high: nat, low: nat, rest: seq<byte>)
    requires high < 16 && low < 16
    ensures var h: byte, l: byte := if high < 10 then 0x30 + high else 0x37 + high, if low < 10 then 0x30 + low else 0x57 + low;
      Unescaped([0x25, h, l] + rest) == [16 * high + low] + Unescaped(rest)
    ensures Unescaped([0x25]) == [0x25]
  {
    var h: byte, l: byte := if high < 10 then 0x30 + high else 0x37 + high, if low < 10 then 0x30 + low else 0x57 + low;
    assert ([0x25, h, l] + rest)[3..] == rest;
    assert [0x25 as byte][1..] == [];
  }

  lemma {:induction false} EscapedAppend(s: seq<byte>, b: byte)
    ensures Escaped(s + [b]) == Escaped(s) + EscapedByte(b)
  {
    if s == [] {
      assert [b][1..] == [];
    } else {
      EscapedAppend(s[1..], b);
      assert (s + [b])[1..] == s[1..] + [b];
    }
  }

  method Escape(s: seq<byte>) returns (out: seq<byte>)
    ensures out == Escaped(s)
  {
    out := [];
    assert s[..|s|] == s;
    for i := 0 to |s|
      invariant out == Escaped(s[..i])
    {
      EscapedAppend(s[..i], s[i]);
      assert s[..i + 1] == s[..i] + [s[i]];
      if s[i] == PERCENT {
        out := out + [PERCENT, '2' as int, '5' as int];
      } else if s[i] == CR {
        out := out + [PERCENT, '0' as int, 'D' as int];
      } else if s[i] == LF {
        out := out + [PERCENT, '0' as int, 'A' as int];
      } else {
        out := out + [s[i]];
      }
    }
  }

  // What the loop does at one place.
  lemma UnescapeHere(s: seq<byte>, i: nat)
    requires i < |s|
    ensures var rest := s[i..];
      Unescaped(rest) == if IsEscape(rest) then [16 * HexValue(s[i + 1]).value + HexValue(s[i + 2]).value] + Unescaped(s[i + 3..])
                         else [s[i]] + Unescaped(s[i + 1..])
  {
    assert s[i..][1..] == s[i + 1..];
    if IsEscape(s[i..]) { assert s[i..][3..] == s[i + 3..]; }
  }

  lemma NothingLeft(s: seq<byte>)
    ensures s[0..] == s && s[|s|..] == [] && Unescaped([]) == []
  {
  }

  method Unescape(s: seq<byte>) returns (out: seq<byte>)
    ensures out == Unescaped(s)
  {
    hide Unescaped;
    out := [];
    var i := 0;
    NothingLeft(s);
    while i < |s|
      invariant i <= |s| && Unescaped(s) == out + Unescaped(s[i..])
    {
      UnescapeHere(s, i);
      if s[i] == PERCENT && i + 2 < |s| {
        var hi, lo := HexValue(s[i + 1]), HexValue(s[i + 2]);
        if hi.Some? && lo.Some? {
          out := out + [16 * hi.value + lo.value];
          i := i + 3;
          continue;
        }
      }
      out := out + [s[i]];
      i := i + 1;
    }
  }

  lemma UnescapeOne(b: byte, rest: seq<byte>)
    ensures Unescaped(EscapedByte(b) + rest) == [b] + Unescaped(rest)
  {
  }

  // Unescaping undoes escaping, whatever follows.
  lemma {:induction false} RoundTrip(s: seq<byte>, rest: seq<byte>)
    ensures Unescaped(Escaped(s) + rest) == s + Unescaped(rest)
  {
    hide EscapedByte, Unescaped;
    if s == [] {
      assert Escaped(s) + rest == rest;
    } else {
      var tail := Escaped(s[1..]) + rest;
      assert Escaped(s) + rest == EscapedByte(s[0]) + tail;
      UnescapeOne(s[0], tail);
      RoundTrip(s[1..], rest);
      assert [s[0]] + (s[1..] + Unescaped(rest)) == s + Unescaped(rest);
    }
  }

  lemma {:induction false} EscapeUndone(s: seq<byte>)
    ensures Unescaped(Escaped(s)) == s
  {
    RoundTrip(s, []);
    assert Escaped(s) + [] == Escaped(s);
  }

  // The escaped text stays on its line: no carriage return or line feed survives.
  lemma {:induction false} OneLine(s: seq<byte>)
    ensures CR !in Escaped(s) && LF !in Escaped(s)
  {
    if s != [] { OneLine(s[1..]); }
  }

  // Text is sent as it is exactly when it needs no escape.
  lemma {:induction false} UnchangedExactlyWhenPlain(s: seq<byte>)
    ensures |Escaped(s)| >= |s|
    ensures Escaped(s) == s <==> PERCENT !in s && CR !in s && LF !in s
  {
    if s != [] {
      UnchangedExactlyWhenPlain(s[1..]);
      assert s == [s[0]] + s[1..];
      if EscapedByte(s[0]) == [s[0]] {
        assert Escaped(s) == [s[0]] + Escaped(s[1..]);
        assert Escaped(s)[1..] == Escaped(s[1..]);
      }
    }
  }
}
