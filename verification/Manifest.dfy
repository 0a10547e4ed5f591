/** The ownership manifest of `manifest.rs`: which path holds exactly what wsmr last wrote there. */
module Ownership {
  import opened Wrappers
  import opened Strings
  import opened Utf8
  import opened Fingerprints

  type Ledger = map<string, Word>

  /** Tracked, and still carrying the recorded fingerprint. */
  predicate Verifies(ledger: Ledger, relname: string, content: string) {
    relname in ledger && ledger[relname] == Fingerprint(content)
  }

  class Manifest {
    var entries: Ledger

    constructor (entries: Ledger)
      ensures this.entries == entries
    {
      this.entries := entries;
    }

    predicate Verify(relname: string, content: string)
      reads this
    {
      Verifies(entries, relname, content)
    }

    method Record(relname: string, content: string)
      modifies this
      ensures entries == old(entries)[relname := Fingerprint(content)]
      ensures Verify(relname, content)
    {
      entries := entries[relname := Fingerprint(content)];
    }

    method Forget(relname: string)
      modifies this
      ensures entries == old(entries) - {relname}
      ensures forall content :: !Verify(relname, content)
    {
      entries := entries - {relname};
    }
  }

  /** Ownership is lost by any substitution of one byte. */
  lemma OneByteEditLosesOwnership(ledger: Ledger, relname: string, s: string, t: string, i: nat)
    requires Verifies(ledger, relname, s)
    requires i < |Encode(s)| == |Encode(t)|
    requires Encode(s)[i] != Encode(t)[i]
    requires forall j | 0 <= j < |Encode(s)| && j != i :: Encode(s)[j] == Encode(t)[j]
    ensures !Verifies(ledger, relname, t)
  {
    OneByteChangesFingerprint(s, t, i);
  }

  // ----- the text form -----

  const HEADER: string := "# wsmr-generated manifest " + ['\U{2014}'] + " machine-written, do not edit"

  /** `{:016x}` */
  function Hex(w: nat, digits: nat): (s: string)
    ensures |s| == digits
    ensures forall i | 0 <= i < |s| :: s[i] !in " +#\n\r"
    decreases digits
  {
    if digits == 0 then "" else Hex(w / 16, digits - 1) + [HexChar(w % 16)]
  }

  function HexValue(s: string): Option<nat> {
    if s == "" then Some(0)
    else
      match (HexValue(s[..|s| - 1]), HexDigit(s[|s| - 1]))
      case (Some(high), Some(low)) => Some(16 * high + low)
      case _ => None
  }

  /** `u64::from_str_radix(_, 16)` */
  function ParseHex(s: string): Option<Word> {
    var digits := if s != "" && s[0] == '+' then s[1..] else s;
    if digits == "" then None
    else
      match HexValue(digits)
      case Some(v) => if v < MODULUS then Some(v) else None
      case None => None
  }

  function Pow16(n: nat): nat {
    if n == 0 then 1 else 16 * Pow16(n - 1)
  }

  lemma {:induction false} HexRoundTrip(w: nat, digits: nat)
    requires w < Pow16(digits)
    ensures HexValue(Hex(w, digits)) == Some(w)
  {
    if digits > 0 {
      HexRoundTrip(w / 16, digits - 1);
      var s := Hex(w, digits);
      assert s[..|s| - 1] == Hex(w / 16, digits - 1);
    }
  }

  lemma Pow16Values()
    ensures Pow16(16) == MODULUS
  {
    assert Pow16(4) == 0x1_0000;
    assert Pow16(8) == 0x1_0000_0000;
    assert Pow16(12) == 0x1_0000_0000_0000;
  }

  lemma ParsedDigits(s: string, v: Word)
    requires s != "" && s[0] != '+' && HexValue(s) == Some(v)
    ensures ParseHex(s) == Some(v)
  {
  }

  lemma WordRoundTrip(w: Word)
    ensures ParseHex(Hex(w, 16)) == Some(w)
  {
    Pow16Values();
    HexRoundTrip(w, 16);
    var s := Hex(w, 16);
    assert s[0] !in " +#\n\r";
    ParsedDigits(s, w);
  }

  function ParseLine(line: string): Option<(string, Word)> {
    if line == "" || line[0] == '#' then None
    else
      match SplitOnce(line, ' ')
      case None => None
      case Some((hash, relname)) =>
        match ParseHex(hash)
        case Some(fp) => if relname != "" then Some((relname, fp)) else None
        case None => None
  }

  function WithLine(ledger: Ledger, line: string): Ledger {
    match ParseLine(line)
    case Some((relname, fp)) => ledger[relname := fp]
    case None => ledger
  }

  function ParsedFrom(ledger: Ledger, lines: seq<string>): Ledger
    decreases |lines|
  {
    if lines == [] then ledger else ParsedFrom(WithLine(ledger, lines[0]), lines[1..])
  }

  /** A line that says that wsmr last wrote content with fingerprint `v` at `r`. */
  ghost predicate SaysEntry(line: string, r: string, v: Word) {
    exists hash ::
      line == hash + " " + r && ' ' !in hash && r != "" && !HasPrefix(line, "#") && ParseHex(hash) == Some(v)
  }

  lemma ParseLineIff(line: string, r: string, v: Word)
    ensures ParseLine(line) == Some((r, v)) <==> SaysEntry(line, r, v)
  {
    assert " " == [' '] && "#" == ['#'];
    if ParseLine(line) == Some((r, v)) {
      var i := IndexOf(line, ' ');
      assert line == line[..i] + " " + line[i + 1..];
    }
    if hash :| line == hash + " " + r && ' ' !in hash && r != "" && !HasPrefix(line, "#") && ParseHex(hash) == Some(v) {
      SplitOnceAppend(hash, ' ', r);
    }
  }

  lemma {:induction false} ParsedSnoc(ledger: Ledger, init: seq<string>, last: string)
    ensures ParsedFrom(ledger, init + [last]) == WithLine(ParsedFrom(ledger, init), last)
    decreases |init|
  {
    if init == [] {
      assert (init + [last])[1..] == [];
    } else {
      assert (init + [last])[1..] == init[1..] + [last];
      ParsedSnoc(WithLine(ledger, init[0]), init[1..], last);
    }
  }

  lemma WithLineMeaning(ledger: Ledger, line: string, r: string)
    ensures forall v: Word | SaysEntry(line, r, v) :: WithLine(ledger, line) == ledger[r := v]
    ensures (forall v: Word :: !SaysEntry(line, r, v)) ==>
              (r in WithLine(ledger, line) <==> r in ledger) && (r in ledger ==> WithLine(ledger, line)[r] == ledger[r])
  {
    forall v: Word
      ensures ParseLine(line) == Some((r, v)) <==> SaysEntry(line, r, v)
    {
      ParseLineIff(line, r, v);
    }
  }

  /** A path is tracked exactly if some line has an entry for it, with the fingerprint of the last such line; comments and
      malformed lines are ignored, not trusted. */
  lemma {:induction false} ParsedMeaning(lines: seq<string>, r: string)
    ensures r in ParsedFrom(map[], lines) <==> exists i, v: Word :: 0 <= i < |lines| && SaysEntry(lines[i], r, v)
    ensures forall i, v: Word | 0 <= i < |lines| && SaysEntry(lines[i], r, v)
                                && (forall j, v': Word | i < j < |lines| :: !SaysEntry(lines[j], r, v')) ::
              r in ParsedFrom(map[], lines) && ParsedFrom(map[], lines)[r] == v
    decreases |lines|
  {
    if lines != [] {
      var init, last := lines[..|lines| - 1], lines[|lines| - 1];
      ParsedMeaning(init, r);
      assert lines == init + [last];
      ParsedSnoc(map[], init, last);
      WithLineMeaning(ParsedFrom(map[], init), last, r);
      assert forall i | 0 <= i < |init| :: init[i] == lines[i];
    }
  }

  method Parse(text: string) returns (ledger: Ledger)
    ensures ledger == ParsedFrom(map[], Lines(text))
  {
    ledger := map[];
    var lines := Lines(text);
    for i := 0 to |lines|
      invariant ParsedFrom(ledger, lines[i..]) == ParsedFrom(map[], lines)
    {
      assert lines[i..][1..] == lines[i + 1..];
      var line := lines[i];
      if line == "" || line[0] == '#' {
        continue;
      }
      match SplitOnce(line, ' ')
      case None =>
      case Some((hash, relname)) =>
        var fp := ParseHex(hash);
        if fp.Some? && relname != "" {
          ledger := ledger[relname := fp.value];
        }
    }
  }

  function EntryLine(e: (string, Word)): string {
    Hex(e.1, 16) + " " + e.0
  }

  function Body(listing: seq<(string, Word)>): string
    decreases |listing|
  {
    if listing == [] then "" else EntryLine(listing[0]) + "\n" + Body(listing[1..])
  }

  lemma BodyStep(text: string, listing: seq<(string, Word)>, i: nat)
    requires i < |listing|
    ensures text + Body(listing[i..]) == text + (EntryLine(listing[i]) + "\n") + Body(listing[i + 1..])
  {
    assert listing[i..][1..] == listing[i + 1..];
    ConcatAssociates(text, EntryLine(listing[i]) + "\n", Body(listing[i + 1..]));
  }

  /** `render`, for the entries in the order given. */
  method Render(listing: seq<(string, Word)>) returns (text: string)
    ensures text == HEADER + "\n" + Body(listing)
  {
    text := HEADER + "\n";
    ghost var goal := text + Body(listing);
    assert listing[0..] == listing;
    for i := 0 to |listing|
      invariant text + Body(listing[i..]) == goal
    {
      BodyStep(text, listing, i);
      text := text + (EntryLine(listing[i]) + "\n");
    }
    assert text + Body(listing[|listing|..]) == text;
  }

  /** The ledger a listing denotes; a later entry for a path replaces an earlier one. */
  function Denoted(ledger: Ledger, listing: seq<(string, Word)>): Ledger
    decreases |listing|
  {
    if listing == [] then ledger else Denoted(ledger[listing[0].0 := listing[0].1], listing[1..])
  }

  lemma HexPart(hash: string, w: Word)
    requires hash == Hex(w, 16)
    ensures ' ' !in hash && '\n' !in hash && |hash| == 16 && hash[0] != '#'
  {
    var avoided := " +#\n\r";
    assert avoided[0] == ' ' && avoided[2] == '#' && avoided[3] == '\n';
    assert forall i | 0 <= i < |hash| :: hash[i] !in avoided;
  }

  lemma EntryRoundTrip(e: (string, Word))
    requires LineSafe(e.0) && e.0 != ""
    ensures LineSafe(EntryLine(e)) && ParseLine(EntryLine(e)) == Some(e)
  {
    var hash := Hex(e.1, 16);
    HexPart(hash, e.1);
    EntryLineShape(hash, e.0);
    SplitOnceAppend(hash, ' ', e.0);
    WordRoundTrip(e.1);
  }

  lemma EntryLineShape(hash: string, r: string)
    requires ' ' !in hash && '\n' !in hash && |hash| == 16 && r != "" && LineSafe(r)
    ensures hash + " " + r == hash + [' '] + r && LineSafe(hash + " " + r) && (hash + " " + r)[0] == hash[0]
  {
    assert " " == [' '];
    var line := hash + " " + r;
    assert line[|line| - 1] == r[|r| - 1];
  }

  lemma {:induction false} BodyRoundTrip(ledger: Ledger, listing: seq<(string, Word)>)
    requires forall e | e in listing :: LineSafe(e.0) && e.0 != ""
    ensures ParsedFrom(ledger, Lines(Body(listing))) == Denoted(ledger, listing)
    decreases |listing|
  {
    if listing != [] {
      var e := listing[0];
      assert e in listing;
      EntryRoundTrip(e);
      LinesAppend(EntryLine(e), Body(listing[1..]));
      BodyRoundTrip(ledger[e.0 := e.1], listing[1..]);
    }
  }

  lemma HeaderIsSafe()
    ensures LineSafe(HEADER) && HEADER != "" && HEADER[0] == '#'
  {
    assert forall i | 0 <= i < |HEADER| :: HEADER[i] != '\n';
  }

  /** Saving and loading a manifest gives the same ledger back. */
  lemma ManifestRoundTrip(listing: seq<(string, Word)>)
    requires forall e | e in listing :: LineSafe(e.0) && e.0 != ""
    ensures ParsedFrom(map[], Lines(HEADER + "\n" + Body(listing))) == Denoted(map[], listing)
  {
    HeaderIsSafe();
    LinesAppend(HEADER, Body(listing));
    BodyRoundTrip(map[], listing);
  }
}
