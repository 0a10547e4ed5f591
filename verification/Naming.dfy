/** Unit names of applications (`naming.rs`): escaped parts, truncated between tokens to at most 255 bytes. */
module Naming {
  import opened Wrappers
  import opened Strings
  import opened Utf8
  import opened Escape

  predicate TokenStart(s: string) {
    |s| >= 2 && s[0] == '\\' && s[1] == 'x'
  }

  /** The longest run of whole tokens that fits into `room`. */
  function Fitting(s: string, room: nat): (r: string)
    ensures |r| <= room && r <= s
    decreases |s|
  {
    if s == "" then ""
    else if TokenStart(s) then
      if |s| < 4 || room < 4 then "" else s[..4] + Fitting(s[4..], room - 4)
    else if room < 1 then ""
    else [s[0]] + Fitting(s[1..], room - 1)
  }

  function Truncated(s: string, max: nat): string {
    if |s| <= max then s else Fitting(s, max)
  }

  /** The first `i` characters are settled: they are part of the result, and what follows is decided by what
      follows. */
  ghost predicate Settled(s: string, i: nat, max: nat) {
    i <= |s| && i <= max && Fitting(s, max) == s[..i] + Fitting(s[i..], max - i)
  }

  lemma SettleToken(s: string, i: nat, max: nat)
    requires Settled(s, i, max) && i + 4 <= |s| && TokenStart(s[i..]) && i + 4 <= max
    ensures Settled(s, i + 4, max) && s[..i] + s[i..i + 4] == s[..i + 4]
  {
    assert s[i..][4..] == s[i + 4..] && s[i..][..4] == s[i..i + 4];
    assert s[..i + 4] == s[..i] + s[i..i + 4];
    ConcatAssociates(s[..i], s[i..i + 4], Fitting(s[i + 4..], max - i - 4));
  }

  lemma SettleChar(s: string, i: nat, max: nat)
    requires Settled(s, i, max) && i < |s| && !TokenStart(s[i..]) && i < max
    ensures Settled(s, i + 1, max) && s[..i] + [s[i]] == s[..i + 1]
  {
    assert s[i..][1..] == s[i + 1..];
    assert s[..i + 1] == s[..i] + [s[i]];
    ConcatAssociates(s[..i], [s[i]], Fitting(s[i + 1..], max - i - 1));
  }

  lemma SettleEnd(s: string, i: nat, max: nat)
    requires Settled(s, i, max)
    requires i == |s| || i == max || (TokenStart(s[i..]) && (i + 4 > |s| || i + 4 > max))
    ensures Fitting(s, max) == s[..i]
  {
  }

  lemma TokenAt(s: string, i: nat)
    requires i < |s|
    ensures TokenStart(s[i..]) <==> s[i] == '\\' && i + 1 < |s| && s[i + 1] == 'x'
  {
  }

  /** `truncate_escaped` */
  method TruncateEscaped(s: string, max: nat) returns (out: string)
    ensures out == Truncated(s, max)
  {
    if |s| <= max {
      return s;
    }
    out := "";
    var i := 0;
    while i < |s|
      invariant Settled(s, i, max) && out == s[..i]
    {
      TokenAt(s, i);
      if s[i] == '\\' && i + 1 < |s| && s[i + 1] == 'x' {
        if i + 4 > |s| || |out| + 4 > max {
          SettleEnd(s, i, max);
          return;
        }
        SettleToken(s, i, max);
        out := out + s[i..i + 4];
        i := i + 4;
      } else {
        if |out| + 1 > max {
          SettleEnd(s, i, max);
          return;
        }
        SettleChar(s, i, max);
        out := out + [s[i]];
        i := i + 1;
      }
    }
  }

  /** Truncation of decodable text is decodable to a prefix of the same bytes: no token is split. It never
      overshoots, and wastes less than one token. */
  lemma {:induction false} FittingDecodes(s: string, room: nat)
    requires Unescaped(s).Some?
    ensures Unescaped(Fitting(s, room)).Some? && Unescaped(Fitting(s, room)).value <= Unescaped(s).value
    ensures Fitting(s, room) == s || |Fitting(s, room)| + 4 > room
    decreases |s|
  {
    if s != "" {
      if TokenStart(s) {
        if room >= 4 {
          FittingDecodes(s[4..], room - 4);
          UnescapeToken(s, Fitting(s[4..], room - 4));
        }
      } else if room >= 1 {
        FittingDecodes(s[1..], room - 1);
        UnescapeOne(s, Fitting(s[1..], room - 1));
      }
    }
  }

  lemma UnescapeOne(s: string, rest: string)
    requires s != "" && Unescaped(s).Some? && !TokenStart(s) && Unescaped(rest).Some?
    requires Unescaped(s[1..]).Some? ==> Unescaped(rest).value <= Unescaped(s[1..]).value
    ensures Unescaped(s[1..]).Some?
    ensures Unescaped([s[0]] + rest).Some? && Unescaped([s[0]] + rest).value <= Unescaped(s).value
  {
    var head := EncodeChar(if s[0] == '-' then '/' else s[0]);
    assert s[0] != '\\';
    UnescapeHead(s, head);
    assert ([s[0]] + rest)[1..] == rest;
    UnescapeHead([s[0]] + rest, head);
    PrefixUnder(head, Unescaped(rest).value, Unescaped(s[1..]).value);
  }

  lemma UnescapeHead(s: string, head: seq<Byte>)
    requires s != "" && s[0] != '\\' && head == EncodeChar(if s[0] == '-' then '/' else s[0])
    ensures Unescaped(s) == if Unescaped(s[1..]).Some? then Some(head + Unescaped(s[1..]).value) else None
  {
  }

  lemma PrefixUnder(head: seq<Byte>, a: seq<Byte>, b: seq<Byte>)
    requires a <= b
    ensures head + a <= head + b
  {
  }

  lemma UnescapeToken(s: string, rest: string)
    requires Unescaped(s).Some? && TokenStart(s) && Unescaped(rest).Some?
    ensures |s| >= 4 && Unescaped(s[4..]).Some? && |Unescaped(s).value| > 0
    ensures Unescaped(s).value == [Unescaped(s).value[0]] + Unescaped(s[4..]).value
    ensures Unescaped(s[..4] + rest) == Some([Unescaped(s).value[0]] + Unescaped(rest).value)
  {
    var r := s[..4] + rest;
    assert r[4..] == rest && r[0] == s[0] && r[1] == s[1] && r[2] == s[2] && r[3] == s[3];
  }

  lemma TruncatedDecodes(text: string, max: nat)
    ensures var part := Truncated(Escaped(text, false), max);
            && |part| <= max
            && Unescaped(part).Some? && Unescaped(part).value <= Encode(text)
            && (if |Escaped(text, false)| <= max then Unescaped(part).value == Encode(text) else |part| + 4 > max)
  {
    EscapeRoundTrip(text, false);
    FittingDecodes(Escaped(text, false), max);
  }

  function Sub(a: nat, b: nat): nat {
    if a < b then 0 else a - b
  }

  const STATIC_PART := "app---DEADBEEF."

  function DesktopPart(unitType: string, desktop: string): string {
    var fixed := |STATIC_PART| + |unitType|;
    var escaped := Escaped(desktop, false);
    if fixed + |escaped| > 127 then Truncated(escaped, Sub(127, fixed)) else escaped
  }

  function CommandPart(unitType: string, desktop: string, app: string): string {
    var used := |STATIC_PART| + |unitType| + |DesktopPart(unitType, desktop)|;
    var escaped := Escaped(app, false);
    if used + |escaped| > 255 then Truncated(escaped, Sub(255, used)) else escaped
  }

  /** The random part: eight hexadecimal digits. */
  predicate IsHex(s: string) {
    |s| == 8 && forall i | 0 <= i < |s| :: HexDigit(s[i]).Some?
  }

  function UnitName(unitType: string, d: string, c: string, hex: string): string {
    if unitType == "scope" then "app-" + d + "-" + c + "-" + hex + ".scope"
    else "app-" + d + "-" + c + "@" + hex + ".service"
  }

  lemma AsciiConcat(s: string, t: string)
    requires IsAscii(s) && IsAscii(t)
    ensures IsAscii(s + t)
  {
  }

  lemma UnitNameBytes(unitType: string, d: string, c: string, hex: string)
    requires IsAscii(d) && IsAscii(c) && IsHex(hex)
    ensures IsAscii(UnitName(unitType, d, c, hex))
    ensures |Encode(UnitName(unitType, d, c, hex))| == |UnitName(unitType, d, c, hex)|
  {
    var mark, kind := if unitType == "scope" then "-" else "@", if unitType == "scope" then ".scope" else ".service";
    assert IsAscii("app-") && IsAscii("-") && IsAscii(mark) && IsAscii(kind) && IsAscii(hex);
    AsciiConcat("app-", d);
    AsciiConcat("app-" + d, "-");
    AsciiConcat("app-" + d + "-", c);
    AsciiConcat("app-" + d + "-" + c, mark);
    AsciiConcat("app-" + d + "-" + c + mark, hex);
    AsciiConcat("app-" + d + "-" + c + mark + hex, kind);
    AsciiLength(UnitName(unitType, d, c, hex));
  }

  lemma PartsAreAscii(unitType: string, desktop: string, app: string)
    ensures IsAscii(DesktopPart(unitType, desktop)) && IsAscii(CommandPart(unitType, desktop, app))
  {
    EscapedIsAscii(desktop);
    EscapedIsAscii(app);
  }

  lemma EscapedIsAscii(s: string)
    ensures IsAscii(Escaped(s, false)) && forall max :: IsAscii(Truncated(Escaped(s, false), max))
  {
    var e := Escaped(s, false);
    EscapedIsUnitName(s, false);
    forall i | 0 <= i < |e|
      ensures e[i] as int < 0x80
    {
      assert e[i] in e;
    }
    forall max
      ensures IsAscii(Truncated(e, max))
    {
      assert Truncated(e, max) <= e;
    }
  }

  lemma UnitNameLength(unitType: string, d: string, c: string, hex: string)
    requires IsHex(hex) && (unitType == "scope" || unitType == "service")
    ensures |UnitName(unitType, d, c, hex)| <= |STATIC_PART| + |unitType| + |d| + |c|
  {
  }

  lemma PartsFit(unitType: string, desktop: string, app: string)
    requires |unitType| <= 7
    ensures |STATIC_PART| + |unitType| + |DesktopPart(unitType, desktop)| + |CommandPart(unitType, desktop, app)| <= 255
  {
    NamePartsDecode(unitType, desktop, app);
    assert |STATIC_PART| + |unitType| + |DesktopPart(unitType, desktop)| <= 127;
  }

  lemma NameFits(unitType: string, desktop: string, app: string, hex: string)
    requires IsHex(hex)
    ensures var name := UnitName(unitType, DesktopPart(unitType, desktop), CommandPart(unitType, desktop, app), hex);
            unitType in {"scope", "service"} ==> IsAscii(name) && |Encode(name)| <= 255
  {
    PartsAreAscii(unitType, desktop, app);
    UnitNameBytes(unitType, DesktopPart(unitType, desktop), CommandPart(unitType, desktop, app), hex);
    if unitType in {"scope", "service"} {
      UnitNameLength(unitType, DesktopPart(unitType, desktop), CommandPart(unitType, desktop, app), hex);
      PartsFit(unitType, desktop, app);
    }
  }

  /** `auto_unit_name` */
  method AutoUnitName(unitType: string, desktop: string, app: string, hex: string) returns (name: string)
    requires IsHex(hex)
    ensures var d, c := DesktopPart(unitType, desktop), CommandPart(unitType, desktop, app);
            name == UnitName(unitType, d, c, hex)
    ensures unitType in {"scope", "service"} ==> IsAscii(name) && |Encode(name)| <= 255
  {
    var fixed := |STATIC_PART| + |unitType|;
    var d := SimpleSystemdEscape(desktop, false);
    if fixed + |d| > 127 {
      d := TruncateEscaped(d, Sub(127, fixed));
    }
    var c := SimpleSystemdEscape(app, false);
    var used := fixed + |d|;
    if used + |c| > 255 {
      c := TruncateEscaped(c, Sub(255, used));
    }
    NameFits(unitType, desktop, app, hex);
    if unitType == "scope" {
      name := "app-" + d + "-" + c + "-" + hex + ".scope";
    } else {
      name := "app-" + d + "-" + c + "@" + hex + ".service";
    }
  }

  /** Both parts of a unit name decode to prefixes of what they were made from: completely when they fit, and otherwise as
      long as a whole token allows, within 127 and 255 bytes. */
  lemma NamePartsDecode(unitType: string, desktop: string, app: string)
    ensures var fixed, d := |STATIC_PART| + |unitType|, DesktopPart(unitType, desktop);
            && Unescaped(d).Some? && Unescaped(d).value <= Encode(desktop)
            && (if fixed + |Escaped(desktop, false)| <= 127 then Unescaped(d).value == Encode(desktop)
                else fixed + |d| + 4 > 127 && (fixed <= 127 ==> fixed + |d| <= 127))
    ensures var used, c := |STATIC_PART| + |unitType| + |DesktopPart(unitType, desktop)|, CommandPart(unitType, desktop, app);
            && Unescaped(c).Some? && Unescaped(c).value <= Encode(app)
            && (if used + |Escaped(app, false)| <= 255 then Unescaped(c).value == Encode(app)
                else used + |c| + 4 > 255 && (used <= 255 ==> used + |c| <= 255))
  {
    var fixed := |STATIC_PART| + |unitType|;
    PartDecodes(desktop, fixed, 127);
    PartDecodes(app, fixed + |DesktopPart(unitType, desktop)|, 255);
  }

  lemma PartDecodes(text: string, used: nat, limit: nat)
    ensures var escaped := Escaped(text, false);
            var part := if used + |escaped| > limit then Truncated(escaped, Sub(limit, used)) else escaped;
            && Unescaped(part).Some? && Unescaped(part).value <= Encode(text)
            && (if used + |escaped| <= limit then Unescaped(part).value == Encode(text)
                else used + |part| + 4 > limit && (used <= limit ==> used + |part| <= limit))
  {
    TruncatedDecodes(text, Sub(limit, used));
    EscapeRoundTrip(text, false);
  }

  lemma NoAt(s: string)
    requires forall c | c in s :: c != '@'
    ensures '@' !in "app-" + s
  {
    assert forall i | 0 <= i < |"app-"| :: "app-"[i] != '@';
  }

  /** What sets a unit name apart by its type: a service is an instance named by the random part of the template made of both
      parts, since neither part holds the separator of an instance; a scope has no instance, and everything that is not a scope
      is named as a service. */
  lemma UnitNameReads(unitType: string, desktop: string, app: string, hex: string)
    requires IsHex(hex)
    ensures var d, c := DesktopPart(unitType, desktop), CommandPart(unitType, desktop, app);
            var name := UnitName(unitType, d, c, hex);
            if unitType == "scope" then '@' !in name && name == ("app-" + (d + "-" + c)) + "-" + hex + ".scope"
            else SplitOnce(name, '@') == Some(("app-" + (d + "-" + c), hex + ".service"))
  {
    PartsHaveNoAt(unitType, desktop, app);
    NameReads(unitType, DesktopPart(unitType, desktop), CommandPart(unitType, desktop, app), hex);
  }

  lemma NameReads(unitType: string, d: string, c: string, hex: string)
    requires IsHex(hex) && '@' !in d && '@' !in c
    ensures var name := UnitName(unitType, d, c, hex);
            if unitType == "scope" then '@' !in name && name == ("app-" + (d + "-" + c)) + "-" + hex + ".scope"
            else SplitOnce(name, '@') == Some(("app-" + (d + "-" + c), hex + ".service"))
  {
    var template := "app-" + (d + "-" + c);
    NoAt(d + "-" + c);
    assert template == "app-" + d + "-" + c;
    if unitType == "scope" {
      ScopeSuffix(hex);
      assert template + "-" + hex + ".scope" == template + ("-" + hex + ".scope");
    } else {
      assert UnitName(unitType, d, c, hex) == template + "@" + (hex + ".service");
      assert "@" == ['@'];
      SplitOnceAppend(template, '@', hex + ".service");
    }
  }

  lemma ScopeSuffix(hex: string)
    requires IsHex(hex)
    ensures '@' !in "-" + hex + ".scope"
  {
    assert forall i | 0 <= i < |".scope"| :: ".scope"[i] != '@';
  }

  lemma PartsHaveNoAt(unitType: string, desktop: string, app: string)
    ensures '@' !in DesktopPart(unitType, desktop) && '@' !in CommandPart(unitType, desktop, app)
  {
    EscapedHasNoAt(desktop);
    EscapedHasNoAt(app);
  }

  lemma EscapedHasNoAt(s: string)
    ensures '@' !in Escaped(s, false) && forall max :: '@' !in Truncated(Escaped(s, false), max)
  {
    var e := Escaped(s, false);
    EscapedIsUnitName(s, false);
    assert '@' !in e;
    forall max
      ensures '@' !in Truncated(e, max)
    {
      var part := Truncated(e, max);
      assert part <= e;
      assert forall i | 0 <= i < |part| :: part[i] == e[i] && e[i] in e;
    }
  }
}
