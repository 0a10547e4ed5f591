/** Unit files and drop-ins as systemd.syntax(7) describes them: lines, comments, continued lines, sections, settings. */
module UnitFile {
  import opened Wrappers
  import opened Strings
  import opened Shell
  import opened CommandLine

  predicate IsBreak(c: char) {
    c == '\n' || c == '\r'
  }

  function LineEnd(text: string): (i: nat)
    ensures i <= |text| && OneLine(text[..i]) && (i < |text| ==> IsBreak(text[i]))
  {
    if text == "" || IsBreak(text[0]) then 0
    else
      var i := 1 + LineEnd(text[1..]);
      assert text[..i] == [text[0]] + text[1..][..i - 1];
      i
  }

  function RawLines(text: string): seq<string>
    decreases |text|
  {
    var i := LineEnd(text);
    if text == "" then [] else if i == |text| then [text] else [text[..i]] + RawLines(text[i + 1..])
  }

  /** Ends in a backslash that is not itself escaped: the next line continues this one. */
  predicate Dangling(line: string)
    decreases |line|
  {
    line != "" && line[|line| - 1] == '\\' && !Dangling(line[..|line| - 1])
  }

  /** A command of the service: the one of the template, or the text of an `ExecStart=` setting. */
  datatype Start = FromTemplate | Setting(text: string)

  /** What has been read so far: the section under way, the settings met, the commands that are in force, and the part
      of a line that the next one continues. */
  datatype UnitText = UnitText(section: string, mark: Option<string>, description: Option<string>, starts: seq<Start>,
                               pending: string)

  const UNIT := "[Unit]"
  const SERVICE := "[Service]"
  const MARK := "X-UWSMMark="
  const DESCRIPTION := "Description="
  const EXEC_START := "ExecStart="

  /** Settings belong to the section above them and a later one replaces an earlier one; `ExecStart=` adds a command
      unless it is empty, which drops the commands so far, or cannot be read, which has no effect. */
  function WithLine(u: UnitText, line: string): UnitText {
    if line != "" && line[0] == '[' then u.(section := line)
    else if u.section == UNIT && HasPrefix(line, MARK) then u.(mark := StripPrefix(line, MARK))
    else if u.section == UNIT && HasPrefix(line, DESCRIPTION) then u.(description := StripPrefix(line, DESCRIPTION))
    else if u.section == SERVICE && HasPrefix(line, EXEC_START) then WithStart(u, line[|EXEC_START|..])
    else u
  }

  function WithStart(u: UnitText, command: string): UnitText {
    if command == "" then u.(starts := [])
    else if Words(command, Plain, None).None? then u
    else u.(starts := u.starts + [Setting(command)])
  }

  /** The continued line without its backslash. */
  function Continued(line: string): string {
    (if line == "" then "" else line[..|line| - 1]) + " "
  }

  /** Empty lines and comments are skipped, also between the parts of a continued line. */
  function WithRawLine(u: UnitText, raw: string): UnitText {
    if raw == "" || raw[0] == '#' || raw[0] == ';' then u
    else
      var line := u.pending + raw;
      if Dangling(line) then u.(pending := Continued(line)) else WithLine(u.(pending := ""), line)
  }

  function WithRawLines(u: UnitText, raws: seq<string>): UnitText
    decreases |raws|
  {
    if raws == [] then u else WithRawLines(WithRawLine(u, raws[0]), raws[1..])
  }

  function WithText(u: UnitText, text: string): UnitText {
    WithRawLines(u, RawLines(text))
  }

  function Finished(u: UnitText): UnitText {
    if u.pending == "" then u else WithLine(u.(pending := ""), u.pending)
  }

  const TEMPLATE_ONLY := UnitText("", None, None, [FromTemplate], "")

  function ReadUnit(text: string): UnitText {
    Finished(WithText(TEMPLATE_ONLY, text))
  }

  // ----- one line at a time -----

  lemma {:induction false} LineEndAppend(line: string, rest: string)
    requires OneLine(line)
    ensures LineEnd(line + "\n" + rest) == |line|
    decreases |line|
  {
    var text := line + "\n" + rest;
    if line == "" {
      assert text[0] == '\n';
    } else {
      assert text[0] == line[0] && line[0] in line;
      assert text[1..] == line[1..] + "\n" + rest;
      assert forall c | c in line[1..] :: c in line;
      LineEndAppend(line[1..], rest);
    }
  }

  lemma OneLineIsRead(u: UnitText, line: string, rest: string)
    requires OneLine(line)
    ensures WithText(u, line + "\n" + rest) == WithText(WithRawLine(u, line), rest)
  {
    var text := line + "\n" + rest;
    LineEndAppend(line, rest);
    assert text[..|line|] == line && text[|line| + 1..] == rest;
    assert RawLines(text)[1..] == RawLines(rest);
  }

  lemma LastLineIsRead(u: UnitText, line: string)
    requires OneLine(line)
    ensures WithText(u, line + "\n") == WithRawLine(u, line)
  {
    OneLineIsRead(u, line, "");
    assert line + "\n" + "" == line + "\n";
  }

  lemma {:induction false} LineEndInFront(a: string, b: string)
    requires a != "" && IsBreak(a[|a| - 1])
    ensures LineEnd(a) < |a| && LineEnd(a + b) == LineEnd(a)
    decreases |a|
  {
    if !IsBreak(a[0]) {
      assert (a + b)[1..] == a[1..] + b;
      LineEndInFront(a[1..], b);
    }
  }

  lemma {:induction false} RawLinesConcat(a: string, b: string)
    requires a == "" || IsBreak(a[|a| - 1])
    ensures RawLines(a + b) == RawLines(a) + RawLines(b)
    decreases |a|
  {
    if a == "" {
      assert a + b == b;
    } else {
      LineEndInFront(a, b);
      var i := LineEnd(a);
      assert (a + b)[..i] == a[..i] && (a + b)[i + 1..] == a[i + 1..] + b;
      RawLinesConcat(a[i + 1..], b);
      ConcatAssociates([a[..i]], RawLines(a[i + 1..]), RawLines(b));
    }
  }

  lemma {:induction false} WithRawLinesConcat(u: UnitText, a: seq<string>, b: seq<string>)
    ensures WithRawLines(u, a + b) == WithRawLines(WithRawLines(u, a), b)
    decreases |a|
  {
    if a == [] {
      assert a + b == b;
    } else {
      assert (a + b)[1..] == a[1..] + b;
      WithRawLinesConcat(WithRawLine(u, a[0]), a[1..], b);
    }
  }

  /** Complete lines are read before what follows them. */
  lemma WithTextConcat(u: UnitText, a: string, b: string)
    requires a == "" || IsBreak(a[|a| - 1])
    ensures WithText(u, a + b) == WithText(WithText(u, a), b)
  {
    RawLinesConcat(a, b);
    WithRawLinesConcat(u, RawLines(a), RawLines(b));
  }

  /** The section header ends whatever line it may have to continue. */
  lemma SectionLine(u: UnitText)
    ensures WithRawLine(u, SERVICE).pending == ""
    ensures u.pending == "" ==> WithRawLine(u, SERVICE) == u.(section := SERVICE)
  {
    var line := u.pending + SERVICE;
    assert SERVICE[0] == '[' && SERVICE[|SERVICE| - 1] == ']';
    assert line[|line| - 1] == ']';
    assert u.pending == "" ==> line == SERVICE;
  }

  /** Only what follows the last other character decides. */
  lemma {:induction false} DanglingAppend(head: string, tail: string)
    requires head == "" || head[|head| - 1] != '\\'
    ensures Dangling(head + tail) <==> Dangling(tail)
    decreases |tail|
  {
    if tail == "" {
      assert head + tail == head;
    } else {
      assert (head + tail)[..|head + tail| - 1] == head + tail[..|tail| - 1];
      DanglingAppend(head, tail[..|tail| - 1]);
    }
  }

  lemma NoBackslashNotDangling(line: string)
    requires '\\' !in line
    ensures !Dangling(line)
  {
    if line != "" {
      assert line[|line| - 1] in line;
    }
  }

  lemma RawLineIsLine(u: UnitText, line: string)
    requires u.pending == "" && line != "" && line[0] != '#' && line[0] != ';' && !Dangling(line)
    ensures WithRawLine(u, line) == WithLine(u, line)
  {
    assert "" + line == line;
  }

  lemma WithStartLine(u: UnitText, command: string)
    ensures WithLine(u, EXEC_START + command) == if u.section == SERVICE then WithStart(u, command) else u
  {
    var line := EXEC_START + command;
    assert line[|EXEC_START|..] == command;
    assert line[0] == EXEC_START[0] == 'E' && MARK[0] == 'X' && DESCRIPTION[0] == 'D';
    assert SERVICE[1] == 'S' && UNIT[1] == 'U';
  }

  lemma WithMarkLine(u: UnitText, id: string)
    requires u.section == UNIT
    ensures WithLine(u, MARK + id) == u.(mark := Some(id))
  {
    var line := MARK + id;
    assert line[|MARK|..] == id && line[0] == MARK[0] == 'X';
  }

  lemma WithDescriptionLine(u: UnitText, line: string)
    requires u.section == UNIT && HasPrefix(line, DESCRIPTION)
    ensures WithLine(u, line) == u.(description := Some(line[|DESCRIPTION|..]))
  {
    assert line[0] == DESCRIPTION[0] == 'D' && MARK[0] == 'X';
  }

  // ----- no command holds more than the text it was read from -----

  lemma {:induction false} RawLinesCount(text: string)
    ensures CountAll(RawLines(text), '\\') <= Count(text, '\\')
    ensures forall raw | raw in RawLines(text) :: OneLine(raw)
    decreases |text|
  {
    var i := LineEnd(text);
    if text == "" {
    } else if i == |text| {
      assert text[..i] == text;
      assert CountAll([text][1..], '\\') == 0;
    } else {
      RawLinesCount(text[i + 1..]);
      FirstLineCount(text, i, RawLines(text[i + 1..]));
    }
  }

  lemma FirstLineCount(text: string, i: nat, rest: seq<string>)
    requires i < |text| && CountAll(rest, '\\') <= Count(text[i + 1..], '\\')
    ensures CountAll([text[..i]] + rest, '\\') <= Count(text, '\\')
  {
    assert ([text[..i]] + rest)[1..] == rest;
    assert text == text[..i] + text[i..] && text[i..] == [text[i]] + text[i + 1..];
    CountConcat(text[..i], text[i..], '\\');
  }

  /** Every command is one that was there or is a single line with at most `limit` backslashes. */
  ghost predicate Limited(u: UnitText, before: seq<Start>, limit: nat) {
    forall s | s in u.starts :: s in before || (s.Setting? && Count(s.text, '\\') <= limit && OneLine(s.text))
  }

  lemma WithLineLimited(u: UnitText, line: string, before: seq<Start>, limit: nat)
    requires Limited(u, before, limit) && Count(line, '\\') <= limit && OneLine(line)
    ensures Limited(WithLine(u, line), before, limit) && WithLine(u, line).pending == u.pending
  {
    if HasPrefix(line, EXEC_START) {
      var command := line[|EXEC_START|..];
      assert line == line[..|EXEC_START|] + command;
      CountConcat(line[..|EXEC_START|], command, '\\');
      assert forall c | c in command :: c in line;
    }
  }

  lemma {:induction false} WithRawLinesLimited(u: UnitText, raws: seq<string>, before: seq<Start>, limit: nat)
    requires Limited(u, before, limit) && OneLine(u.pending) && forall raw | raw in raws :: OneLine(raw)
    requires Count(u.pending, '\\') + CountAll(raws, '\\') <= limit
    ensures Limited(WithRawLines(u, raws), before, limit) && OneLine(WithRawLines(u, raws).pending)
    ensures Count(WithRawLines(u, raws).pending, '\\') <= limit
    decreases |raws|
  {
    if raws != [] {
      var raw := raws[0];
      assert raw in raws && forall r | r in raws[1..] :: r in raws;
      if !(raw == "" || raw[0] == '#' || raw[0] == ';') {
        var line := u.pending + raw;
        CountConcat(u.pending, raw, '\\');
        assert OneLine(line);
        if Dangling(line) {
          var init := line[..|line| - 1];
          assert line == init + [line[|line| - 1]];
          CountConcat(init, [line[|line| - 1]], '\\');
          CountConcat(init, " ", '\\');
          assert Count(" ", '\\') == 0;
          assert forall c | c in init :: c in line;
          assert OneLine(" ");
        } else {
          WithLineLimited(u.(pending := ""), line, before, limit);
        }
      }
      WithRawLinesLimited(WithRawLine(u, raw), raws[1..], before, limit);
    }
  }

  lemma TextIsLimited(u: UnitText, text: string)
    requires u.pending == ""
    ensures Limited(Finished(WithText(u, text)), u.starts, Count(text, '\\'))
  {
    RawLinesCount(text);
    WithRawLinesLimited(u, RawLines(text), u.starts, Count(text, '\\'));
    var v := WithText(u, text);
    if v.pending != "" {
      WithLineLimited(v.(pending := ""), v.pending, u.starts, Count(text, '\\'));
    }
  }
}
