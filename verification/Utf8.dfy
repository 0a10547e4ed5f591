/** UTF-8 encoding of strings of Unicode scalar values. */
module Utf8 {
  type Byte = b: nat | b < 256

  function EncodeChar(c: char): (r: seq<Byte>)
    ensures 1 <= |r| <= 4
  {
    var v := c as int;
    if v < 0x80 then [v]
    else if v < 0x800 then [0xC0 + v / 64, 0x80 + v % 64]
    else if v < 0x1_0000 then [0xE0 + v / 64 / 64, 0x80 + v / 64 % 64, 0x80 + v % 64]
    else [0xF0 + v / 64 / 64 / 64, 0x80 + v / 64 / 64 % 64, 0x80 + v / 64 % 64, 0x80 + v % 64]
  }

  function Encode(s: string): seq<Byte> {
    if s == "" then [] else EncodeChar(s[0]) + Encode(s[1..])
  }

  lemma {:induction false} EncodeConcat(s: string, t: string)
    ensures Encode(s + t) == Encode(s) + Encode(t)
  {
    if s == "" {
      assert s + t == t;
    } else {
      EncodeConcat(s[1..], t);
      assert (s + t)[1..] == s[1..] + t;
    }
  }

  predicate IsAscii(s: string) {
    forall i | 0 <= i < |s| :: s[i] as int < 0x80
  }

  /** ASCII text has as many bytes as characters. */
  lemma {:induction false} AsciiLength(s: string)
    requires IsAscii(s)
    ensures |Encode(s)| == |s|
  {
    if s != "" {
      AsciiLength(s[1..]);
    }
  }

  /** The first byte decides how many bytes a character has. */
  lemma FirstByteDecidesLength(a: char, b: char)
    requires EncodeChar(a)[0] == EncodeChar(b)[0]
    ensures |EncodeChar(a)| == |EncodeChar(b)|
  {
  }

  lemma EncodeCharInjective(a: char, b: char)
    requires EncodeChar(a) == EncodeChar(b)
    ensures a == b
  {
    var x, y := EncodeChar(a), EncodeChar(b);
    assert forall i | 0 <= i < |x| :: x[i] == y[i];
    var v, w := a as int, b as int;
    if |x| >= 2 {
      assert x[|x| - 1] == y[|x| - 1] && v % 64 == w % 64;
    }
    if |x| >= 3 {
      assert x[|x| - 2] == y[|x| - 2] && v / 64 % 64 == w / 64 % 64;
    }
    if |x| >= 4 {
      assert x[1] == y[1] && v / 64 / 64 % 64 == w / 64 / 64 % 64;
    }
    assert v == w;
  }

  lemma {:induction false} EncodeInjective(s: string, t: string)
    requires Encode(s) == Encode(t)
    ensures s == t
  {
    if s != "" && t != "" {
      var a, b := EncodeChar(s[0]), EncodeChar(t[0]);
      assert Encode(s)[0] == a[0] && Encode(t)[0] == b[0];
      FirstByteDecidesLength(s[0], t[0]);
      assert Encode(s)[..|a|] == a && Encode(t)[..|b|] == b;
      EncodeCharInjective(s[0], t[0]);
      assert Encode(s)[|a|..] == Encode(s[1..]) && Encode(t)[|b|..] == Encode(t[1..]);
      EncodeInjective(s[1..], t[1..]);
    }
  }
}
