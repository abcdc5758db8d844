// UTF-8 by arithmetic: the bytes the walk takes are exactly the encodings of
// lists of scalar values.

module Utf8 {
  import opened GoValues

  // Unicode's scalar values: its code points but for the surrogates.
  type ScalarValue = c: int | 0 <= c <= 0xD7FF || 0xE000 <= c <= 0x10FFFF

  function Encode(c: ScalarValue): (r: Bytes)
    ensures 1 <= |r| <= 4
  {
    if c < 0x80 then [c]
    else if c < 0x800 then [0xC0 + c / 64, 0x80 + c % 64]
    else if c < 0x1_0000 then [0xE0 + c / 4096, 0x80 + c / 64 % 64, 0x80 + c % 64]
    else [0xF0 + c / 262144, 0x80 + c / 4096 % 64, 0x80 + c / 64 % 64, 0x80 + c % 64]
  }

  function EncodeAll(cs: seq<ScalarValue>): Bytes {
    if cs == [] then [] else Encode(cs[0]) + EncodeAll(cs[1..])
  }

  // What is encoded is taken.

  lemma EncodedTwo(c: ScalarValue, rest: Bytes)
    requires 0x80 <= c < 0x800
    ensures ValidUtf8(Encode(c) + rest) <==> ValidUtf8(rest)
  {
    assert 2 <= c / 64 < 32;
    var s := Encode(c) + rest;
    assert s[0] == 0xC0 + c / 64 && s[1] == 0x80 + c % 64 && s[2..] == rest;
  }

  lemma EncodedThree(c: ScalarValue, rest: Bytes)
    requires 0x800 <= c < 0x1_0000
    ensures ValidUtf8(Encode(c) + rest) <==> ValidUtf8(rest)
  {
    var s := Encode(c) + rest;
    assert s[0] == 0xE0 + c / 4096 && s[1] == 0x80 + c / 64 % 64 && s[2] == 0x80 + c % 64 && s[3..] == rest;
    ThreeFirst(c);
  }

  lemma ThreeFirst(c: ScalarValue)
    requires 0x800 <= c < 0x1_0000
    ensures 0 <= c / 4096 < 16
    ensures c / 4096 == 0 ==> c / 64 % 64 >= 0x20
    ensures c / 4096 == 13 ==> c / 64 % 64 <= 0x1F
  {
    assert c / 64 == c / 4096 * 64 + c / 64 % 64;
  }

  lemma EncodedFour(c: ScalarValue, rest: Bytes)
    requires 0x1_0000 <= c
    ensures ValidUtf8(Encode(c) + rest) <==> ValidUtf8(rest)
  {
    var s := Encode(c) + rest;
    assert s[0] == 0xF0 + c / 262144 && s[1] == 0x80 + c / 4096 % 64;
    assert s[2] == 0x80 + c / 64 % 64 && s[3] == 0x80 + c % 64 && s[4..] == rest;
    FourFirst(c);
  }

  lemma FourFirst(c: ScalarValue)
    requires 0x1_0000 <= c
    ensures 0 <= c / 262144 <= 4
    ensures c / 262144 == 0 ==> c / 4096 % 64 >= 0x10
    ensures c / 262144 == 4 ==> c / 4096 % 64 <= 0x0F
  {
    assert c / 4096 == c / 262144 * 64 + c / 4096 % 64;
  }

  lemma EncodedTaken(c: ScalarValue, rest: Bytes)
    ensures ValidUtf8(Encode(c) + rest) <==> ValidUtf8(rest)
  {
    if c < 0x80 {
      assert (Encode(c) + rest)[1..] == rest;
    } else if c < 0x800 {
      EncodedTwo(c, rest);
    } else if c < 0x1_0000 {
      EncodedThree(c, rest);
    } else {
      EncodedFour(c, rest);
    }
  }

  lemma {:induction false} AllTaken(cs: seq<ScalarValue>)
    ensures ValidUtf8(EncodeAll(cs))
  {
    if cs != [] {
      AllTaken(cs[1..]);
      EncodedTaken(cs[0], EncodeAll(cs[1..]));
    }
  }

  // What is taken is encoded.

  lemma DecodeTwo(a: Byte, b: Byte) returns (c: ScalarValue)
    requires 0xC2 <= a <= 0xDF && Cont(b)
    ensures Encode(c) == [a, b]
  {
    c := (a - 0xC0) * 64 + (b - 0x80);
    assert c / 64 == a - 0xC0 && c % 64 == b - 0x80;
  }

  lemma DecodeThree(a: Byte, b: Byte, d: Byte) returns (c: ScalarValue)
    requires 0xE0 <= a <= 0xEF && Cont(b) && Cont(d)
    requires (a == 0xE0 ==> 0xA0 <= b) && (a == 0xED ==> b <= 0x9F)
    ensures Encode(c) == [a, b, d]
  {
    var high, low := a - 0xE0, (b - 0x80) * 64 + (d - 0x80);
    assert low / 64 == b - 0x80 && low % 64 == d - 0x80;
    c := high * 4096 + low;
    assert c / 4096 == high && c / 64 == high * 64 + (b - 0x80) && c % 64 == d - 0x80;
  }

  lemma DecodeFour(a: Byte, b: Byte, d: Byte, e: Byte) returns (c: ScalarValue)
    requires 0xF0 <= a <= 0xF4 && Cont(b) && Cont(d) && Cont(e)
    requires (a == 0xF0 ==> 0x90 <= b) && (a == 0xF4 ==> b <= 0x8F)
    ensures Encode(c) == [a, b, d, e]
  {
    var high, mid, low := a - 0xF0, b - 0x80, (d - 0x80) * 64 + (e - 0x80);
    c := high * 262144 + mid * 4096 + low;
    assert c / 262144 == high && c / 4096 == high * 64 + mid;
    assert c / 64 == high * 4096 + mid * 64 + (d - 0x80) && c % 64 == e - 0x80;
  }

  lemma {:induction false} Decode(s: Bytes) returns (cs: seq<ScalarValue>)
    requires ValidUtf8(s)
    ensures EncodeAll(cs) == s
    decreases |s|
  {
    if s == [] {
      cs := [];
    } else {
      var c: ScalarValue;
      if s[0] < 0x80 {
        c := s[0];
      } else if s[0] <= 0xDF {
        c := DecodeTwo(s[0], s[1]);
      } else if s[0] <= 0xEF {
        c := DecodeThree(s[0], s[1], s[2]);
      } else {
        c := DecodeFour(s[0], s[1], s[2], s[3]);
      }
      var n := |Encode(c)|;
      assert s == Encode(c) + s[n..];
      hide Encode;
      EncodedTaken(c, s[n..]);
      var rest := Decode(s[n..]);
      cs := [c] + rest;
      assert cs[1..] == rest;
    }
  }

  ghost predicate IsUtf8(s: Bytes) {
    exists cs :: EncodeAll(cs) == s
  }

  // The bytes that are taken are exactly those that encode something.
  lemma Utf8Exactly(s: Bytes)
    ensures ValidUtf8(s) <==> IsUtf8(s)
  {
    if ValidUtf8(s) {
      var cs := Decode(s);
    }
    if cs :| EncodeAll(cs) == s {
      AllTaken(cs);
    }
  }
}
