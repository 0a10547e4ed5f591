/** systemd unit-string escaping (`escape.rs`) against the unescaping of systemd.unit(5). */
module Escape {
  import opened Wrappers
  import opened Strings
  import opened Utf8

  predicate IsAllowed(c: char) {
    c == '.' || c == '_' || c == ':' || '0' <= c <= '9' || 'A' <= c <= 'Z' || 'a' <= c <= 'z'
  }

  function CEscapeByte(b: Byte): string {
    ['\\', 'x', HexChar(b / 16), HexChar(b % 16)]
  }

  /** `\xHH` for every byte. */
  function CEscape(bytes: seq<Byte>): string {
    if bytes == [] then "" else CEscapeByte(bytes[0]) + CEscape(bytes[1..])
  }

  method Char2CEsc(s: string) returns (out: string)
    ensures out == CEscape(Encode(s))
  {
    out := "";
    var bytes := Encode(s);
    for i := 0 to |bytes|
      invariant out + CEscape(bytes[i..]) == CEscape(bytes)
    {
      assert bytes[i..][1..] == bytes[i + 1..];
      ConcatAssociates(out, CEscapeByte(bytes[i]), CEscape(bytes[i + 1..]));
      out := out + CEscapeByte(bytes[i]);
    }
    assert bytes[|bytes|..] == [];
  }

  lemma EncodeOne(c: char)
    ensures Encode([c]) == EncodeChar(c)
  {
    assert Encode([c]) == EncodeChar(c) + [];
  }

  function EscapeChar(c: char): string {
    if c == '/' then "-" else if IsAllowed(c) then [c] else CEscape(EncodeChar(c))
  }

  function EscapeChars(s: string): string {
    if s == "" then "" else EscapeChar(s[0]) + EscapeChars(s[1..])
  }

  /** `simple_systemd_escape` */
  function Escaped(input: string, start: bool): string {
    if start && HasPrefix(input, ".") then CEscape(Encode(".")) + EscapeChars(input[1..])
    else EscapeChars(input)
  }

  method SimpleSystemdEscape(input: string, start: bool) returns (out: string)
    ensures out == Escaped(input, start)
  {
    out := "";
    var rest := input;
    if start && HasPrefix(input, ".") {
      out := Char2CEsc(".");
      rest := input[1..];
    }
    ghost var head := out;
    for i := 0 to |rest|
      invariant out + EscapeChars(rest[i..]) == head + EscapeChars(rest)
    {
      assert rest[i..][1..] == rest[i + 1..];
      var ch := rest[i];
      ConcatAssociates(out, EscapeChar(ch), EscapeChars(rest[i + 1..]));
      if ch == '/' {
        out := out + "-";
      } else if IsAllowed(ch) {
        out := out + [ch];
      } else {
        var c := Char2CEsc([ch]);
        EncodeOne(ch);
        out := out + c;
      }
    }
    assert rest[|rest|..] == "";
    assert out + "" == out && "" + EscapeChars(rest) == EscapeChars(rest);
  }

  /** The unescaping of systemd.unit(5): `-` is a slash, `\xHH` a byte, everything else itself. */
  function Unescaped(s: string): Option<seq<Byte>>
    decreases |s|
  {
    if s == "" then Some([])
    else if s[0] == '\\' then
      if |s| < 4 || s[1] != 'x' then None
      else
        match (HexDigit(s[2]), HexDigit(s[3]), Unescaped(s[4..]))
        case (Some(hi), Some(lo), Some(rest)) => Some([16 * hi + lo] + rest)
        case _ => None
    else
      match Unescaped(s[1..])
      case Some(rest) => Some(EncodeChar(if s[0] == '-' then '/' else s[0]) + rest)
      case None => None
  }

  lemma UnescapeByte(b: Byte, rest: string)
    requires Unescaped(rest).Some?
    ensures Unescaped(CEscapeByte(b) + rest) == Some([b] + Unescaped(rest).value)
  {
    var s := CEscapeByte(b) + rest;
    assert s[4..] == rest;
  }

  lemma {:induction false} UnescapeBytes(bytes: seq<Byte>, rest: string)
    requires Unescaped(rest).Some?
    ensures Unescaped(CEscape(bytes) + rest) == Some(bytes + Unescaped(rest).value)
  {
    if bytes == [] {
      assert CEscape(bytes) + rest == rest;
      assert bytes + Unescaped(rest).value == Unescaped(rest).value;
    } else {
      UnescapeBytes(bytes[1..], rest);
      UnescapeByte(bytes[0], CEscape(bytes[1..]) + rest);
      ConcatAssociates(CEscapeByte(bytes[0]), CEscape(bytes[1..]), rest);
      assert bytes + Unescaped(rest).value == [bytes[0]] + (bytes[1..] + Unescaped(rest).value);
    }
  }

  lemma {:induction false} UnescapeChars(s: string)
    ensures Unescaped(EscapeChars(s)) == Some(Encode(s))
  {
    if s != "" {
      UnescapeChars(s[1..]);
      var c, rest := s[0], EscapeChars(s[1..]);
      if c != '/' && !IsAllowed(c) {
        UnescapeBytes(EncodeChar(c), rest);
      } else {
        assert (EscapeChar(c) + rest)[1..] == rest;
      }
    }
  }

  /** Unescaping gives back the UTF-8 bytes of what was escaped. */
  lemma EscapeRoundTrip(input: string, start: bool)
    ensures Unescaped(Escaped(input, start)) == Some(Encode(input))
  {
    if start && HasPrefix(input, ".") {
      UnescapeChars(input[1..]);
      UnescapeBytes(Encode("."), EscapeChars(input[1..]));
      assert input == "." + input[1..];
      EncodeConcat(".", input[1..]);
    } else {
      UnescapeChars(input);
    }
  }

  /** Distinct inputs have distinct escaped forms. */
  lemma EscapeInjective(a: string, b: string, start: bool)
    requires Escaped(a, start) == Escaped(b, start)
    ensures a == b
  {
    EscapeRoundTrip(a, start);
    EscapeRoundTrip(b, start);
    EncodeInjective(a, b);
  }

  predicate UnitChar(c: char) {
    IsAllowed(c) || c == '-' || c == '\\'
  }

  lemma {:induction false} CEscapeChars(bytes: seq<Byte>)
    ensures forall c | c in CEscape(bytes) :: UnitChar(c)
    ensures |CEscape(bytes)| == 4 * |bytes|
  {
    if bytes != [] {
      CEscapeChars(bytes[1..]);
    }
  }

  lemma {:induction false} EscapeCharsAreUnitChars(s: string)
    ensures forall c | c in EscapeChars(s) :: UnitChar(c)
  {
    if s != "" {
      CEscapeChars(EncodeChar(s[0]));
      EscapeCharsAreUnitChars(s[1..]);
    }
  }

  /** The escaped form is plain ASCII that may stand in a unit name, and with `start` never begins with a dot. */
  lemma EscapedIsUnitName(input: string, start: bool)
    ensures forall c | c in Escaped(input, start) :: UnitChar(c)
    ensures start ==> !HasPrefix(Escaped(input, start), ".")
  {
    EscapeCharsAreUnitChars(input);
    if start && HasPrefix(input, ".") {
      CEscapeChars(Encode("."));
      EscapeCharsAreUnitChars(input[1..]);
      assert Encode(".")[0] == EncodeChar('.')[0];
      assert Escaped(input, start)[0] == '\\';
    } else if input != "" {
      assert Escaped(input, start)[0] == EscapeChar(input[0])[0];
    }
  }

  lemma {:induction false} EscapeGrowsAt(s: string)
    ensures |EscapeChars(s)| >= |s|
    ensures (exists i :: 0 <= i < |s| && s[i] != '/' && !IsAllowed(s[i])) ==> |EscapeChars(s)| > |s|
  {
    if s != "" {
      CEscapeChars(EncodeChar(s[0]));
      EscapeGrowsAt(s[1..]);
      if i :| 0 < i < |s| && s[i] != '/' && !IsAllowed(s[i]) {
        assert s[1..][i - 1] == s[i];
      }
    }
  }

  lemma {:induction false} AllowedStays(s: string)
    requires forall i | 0 <= i < |s| :: IsAllowed(s[i])
    ensures EscapeChars(s) == s
  {
    if s != "" {
      AllowedStays(s[1..]);
    }
  }
}
