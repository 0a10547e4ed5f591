/** Starting a unit from a printed drop-in: systemd reads the file and completes the command, `aux` parses the arguments
    and resolves the compositor again. */
module DropinStart {
  import opened Wrappers
  import opened Strings
  import opened Escape
  import opened Marks
  import opened Shell
  import opened CommandLine
  import opened UnitFile
  import opened Dropin

  /** The arguments of the one command a service must have: its drop-in's, or the template's own words. */
  function StartedArgs(host: Host, dropin: Option<string>, template: seq<string>): Option<seq<string>> {
    match dropin
    case None => Some(Completed(host, template))
    case Some(text) => StartedFrom(host, ReadUnit(text).starts, template)
  }

  function StartedFrom(host: Host, starts: seq<Start>, template: seq<string>): Option<seq<string>> {
    if |starts| != 1 then None
    else
      match starts[0]
      case FromTemplate => Some(Completed(host, template))
      case Setting(command) => Arguments(host, command)
  }

  function StartUnit(host: Host, dropin: Option<string>, template: seq<string>, action: string, xdg: seq<string>)
    : Option<Resolution>
  {
    match StartedArgs(host, dropin, template)
    case None => None
    case Some(argv) =>
      match ParseAux(argv, action)
      case None => None
      case Some(args) => Some(ResolveAux(args, xdg))
  }

  /** `%I` is the unescaped instance, which is the id the unit string was made from. */
  predicate Instance(host: Host, id: string) {
    'I' in host.specifiers && host.specifiers['I'] == id
  }

  // ----- reading the printed text -----

  /** The description line would swallow the line that follows it. */
  predicate RunsOn(c: CompGlobals) {
    Described(c) && Dangling(DescSubstring(c))
  }

  /** What follows the description names the kind of unit and ends in a blank. */
  predicate IsTitle(what: string) {
    OneLine(what) && what != "" && what[|what| - 1] == ' '
  }

  function AfterHeader(id: string): UnitText {
    UnitText(UNIT, Some(id), None, [FromTemplate], "")
  }

  lemma PlainLineIsRead(u: UnitText, line: string, rest: string)
    requires OneLine(line) && '\\' !in line && line != "" && line[0] != '#' && line[0] != ';' && u.pending == ""
    ensures WithText(u, line + "\n" + rest) == WithText(WithLine(u, line), rest)
  {
    OneLineIsRead(u, line, rest);
    NoBackslashNotDangling(line);
    RawLineIsLine(u, line);
  }

  lemma HeaderIsRead(id: string, rest: string)
    requires IsPlain(id)
    ensures WithText(TEMPLATE_ONLY, Header(id) + rest) == WithText(AfterHeader(id), rest)
  {
    HeaderLines(id, rest);
    CommentIsRead(TEMPLATE_ONLY, UNIT + "\n" + (MARK + id + "\n" + rest));
    assert IsPlain(UNIT) && UNIT[0] == '[';
    PlainLineIsRead(TEMPLATE_ONLY, UNIT, MARK + id + "\n" + rest);
    MarkIsRead(id, rest);
  }

  const COMMENT := "# injected by wsmr, do not edit"

  lemma HeaderLines(id: string, rest: string)
    ensures Header(id) + rest == COMMENT + "\n" + (UNIT + "\n" + (MARK + id + "\n" + rest))
  {
  }

  lemma CommentIsRead(u: UnitText, rest: string)
    ensures WithText(u, COMMENT + "\n" + rest) == WithText(u, rest)
  {
    assert OneLine(COMMENT) && COMMENT[0] == '#';
    OneLineIsRead(u, COMMENT, rest);
  }

  lemma MarkIsRead(id: string, rest: string)
    requires IsPlain(id)
    ensures WithText(TEMPLATE_ONLY.(section := UNIT), MARK + id + "\n" + rest) == WithText(AfterHeader(id), rest)
  {
    assert IsPlain(MARK) && MARK[0] == 'X';
    assert IsPlain(MARK + id);
    PlainLineIsRead(TEMPLATE_ONLY.(section := UNIT), MARK + id, rest);
    WithMarkLine(TEMPLATE_ONLY.(section := UNIT), id);
  }

  lemma DescriptionLine(what: string, c: CompGlobals)
    requires IsTitle(what) && OneLine(DescSubstring(c)) && Described(c)
    ensures var line := DESCRIPTION + what + DescSubstring(c);
            && OneLine(line) && line[0] == 'D' && HasPrefix(line, DESCRIPTION) && |line| > |DESCRIPTION|
            && line[|DESCRIPTION|..] == what + DescSubstring(c)
            && (Dangling(line) <==> RunsOn(c)) && Description(what, c) == line + "\n"
  {
    var line := DESCRIPTION + what + DescSubstring(c);
    DanglingAppend(DESCRIPTION + what, DescSubstring(c));
    assert OneLine(DESCRIPTION);
    assert OneLine(line);
    assert DESCRIPTION[0] == 'D';
  }

  lemma CommandLineText(argv: seq<string>)
    requires argv != []
    ensures ExecOverride(argv) == SERVICE + "\n" + (EXEC_START + "\n" + (EXEC_START + ShlexJoin(argv) + "\n"))
    ensures !Dangling(EXEC_START + ShlexJoin(argv)) && ShlexJoin(argv) != ""
  {
    JoinedEnds(argv);
    var line := EXEC_START + ShlexJoin(argv);
    assert line[|line| - 1] == ShlexJoin(argv)[|ShlexJoin(argv)| - 1];
  }

  lemma CommandIsRead(u: UnitText, command: string)
    requires OneLine(command) && command != "" && !Dangling(EXEC_START + command) && u.pending == ""
    ensures WithText(u, EXEC_START + command + "\n") == if u.section == SERVICE then WithStart(u, command) else u
  {
    var line := EXEC_START + command;
    assert OneLine(EXEC_START) && EXEC_START[0] == 'E';
    assert OneLine(line) && line[0] == 'E';
    LastLineIsRead(u, line);
    RawLineIsLine(u, line);
    WithStartLine(u, command);
  }

  lemma ResetIsRead(u: UnitText, rest: string)
    requires u.pending == ""
    ensures WithText(u, EXEC_START + "\n" + rest) == WithText(if u.section == SERVICE then u.(starts := []) else u, rest)
  {
    assert IsPlain(EXEC_START) && EXEC_START[0] == 'E';
    PlainLineIsRead(u, EXEC_START, rest);
    WithStartLine(u, "");
    assert EXEC_START + "" == EXEC_START;
  }

  // ----- any description -----

  /** What is read up to the end of the description, which may be any text. */
  function AtDescription(c: CompGlobals, what: string): UnitText {
    WithText(AfterHeader(c.id), Description(what, c))
  }

  /** What is read up to the section header of the printed command. */
  function AtSection(c: CompGlobals, what: string): UnitText {
    WithRawLine(AtDescription(c, what), SERVICE)
  }

  /** The section header of the printed command is read as one. */
  predicate SectionStands(c: CompGlobals, what: string) {
    AtSection(c, what).section == SERVICE
  }

  /** The description holds a command of its own, and it stays in force. */
  predicate OwnCommand(c: CompGlobals, what: string, printed: bool) {
    if printed then !SectionStands(c, what) && AtSection(c, what).starts != [FromTemplate]
    else Finished(AtDescription(c, what)).starts != [FromTemplate]
  }

  lemma DescriptionEnds(what: string, c: CompGlobals)
    ensures var d := Description(what, c); d == "" || IsBreak(d[|d| - 1])
  {
  }

  lemma DescriptionIsRead(c: CompGlobals, what: string, rest: string)
    requires IsPlain(c.id)
    ensures WithText(TEMPLATE_ONLY, Header(c.id) + (Description(what, c) + rest)) == WithText(AtDescription(c, what), rest)
  {
    HeaderIsRead(c.id, Description(what, c) + rest);
    DescriptionEnds(what, c);
    WithTextConcat(AfterHeader(c.id), Description(what, c), rest);
  }

  lemma SectionIsRead(c: CompGlobals, what: string, rest: string)
    requires IsPlain(c.id)
    ensures WithText(TEMPLATE_ONLY, Header(c.id) + (Description(what, c) + (SERVICE + "\n" + rest)))
            == WithText(AtSection(c, what), rest)
    ensures AtSection(c, what).pending == ""
  {
    assert OneLine(SERVICE);
    DescriptionIsRead(c, what, SERVICE + "\n" + rest);
    OneLineIsRead(AtDescription(c, what), SERVICE, rest);
    SectionLine(AtDescription(c, what));
  }

  /** What the printed command makes of what was read before it. */
  function AfterCommand(u: UnitText, command: string): UnitText {
    if u.section == SERVICE then WithStart(u.(starts := []), command) else u
  }

  /** A whole command text after complete lines. */
  lemma CommandTextIsRead(u: UnitText, argv: seq<string>)
    requires u.pending == "" && argv != [] && forall p | p in argv :: OneLine(p)
    ensures WithText(u, ExecOverride(argv)) == WithStart(u.(section := SERVICE, starts := []), ShlexJoin(argv))
  {
    var command := EXEC_START + ShlexJoin(argv) + "\n";
    CommandLineText(argv);
    JoinedOneLine(argv);
    assert OneLine(SERVICE);
    OneLineIsRead(u, SERVICE, EXEC_START + "\n" + command);
    SectionLine(u);
    ResetIsRead(u.(section := SERVICE), command);
    CommandIsRead(u.(section := SERVICE, starts := []), ShlexJoin(argv));
  }

  lemma OverrideIsRead(c: CompGlobals, what: string, argv: seq<string>)
    requires IsPlain(c.id) && argv != [] && forall p | p in argv :: OneLine(p)
    ensures WithText(TEMPLATE_ONLY, Header(c.id) + (Description(what, c) + ExecOverride(argv)))
            == AfterCommand(AtSection(c, what), ShlexJoin(argv))
  {
    var command := EXEC_START + ShlexJoin(argv) + "\n";
    var u := AtSection(c, what);
    CommandLineText(argv);
    JoinedOneLine(argv);
    SectionIsRead(c, what, EXEC_START + "\n" + command);
    ResetIsRead(u, command);
    CommandIsRead(if u.section == SERVICE then u.(starts := []) else u, ShlexJoin(argv));
  }

  lemma DropinOf(c: CompGlobals, what: string, argv: Option<seq<string>>)
    ensures argv.Some? || Described(c) ==> DropinText(c, what, argv).Some?
    ensures argv.None? && !Described(c) ==> DropinText(c, what, argv).None?
    ensures DropinText(c, what, argv).Some? ==>
              DropinText(c, what, argv).value
              == Header(c.id) + (Description(what, c) + if argv.Some? then ExecOverride(argv.value) else "")
  {
    if argv.Some? {
      assert |ExecOverride(argv.value)| >= |EXEC_RESET| > 0;
    }
  }

  /** Reading a printed drop-in, whatever its texts hold: the printed command replaces all others if its section header
      is read as one and it can be read itself; otherwise what the description has set stays. */
  lemma DropinIsRead(c: CompGlobals, what: string, argv: Option<seq<string>>)
    requires IsPlain(c.id) && DropinText(c, what, argv).Some?
    requires argv.Some? ==> argv.value != [] && forall p | p in argv.value :: OneLine(p)
    ensures ReadUnit(DropinText(c, what, argv).value)
            == if argv.None? then Finished(AtDescription(c, what))
               else if !SectionStands(c, what) then AtSection(c, what)
               else if Words(ShlexJoin(argv.value), Plain, None).None? then AtSection(c, what).(starts := [])
               else AtSection(c, what).(starts := [Setting(ShlexJoin(argv.value))])
  {
    DropinOf(c, what, argv);
    if argv.Some? {
      CommandLineText(argv.value);
      OverrideIsRead(c, what, argv.value);
      SectionIsRead(c, what, "");
      assert [] + [Setting(ShlexJoin(argv.value))] == [Setting(ShlexJoin(argv.value))];
    } else {
      DescriptionIsRead(c, what, "");
      NothingIsRead(AtDescription(c, what));
    }
  }

  lemma NothingIsRead(u: UnitText)
    ensures WithText(u, "") == u
  {
  }

  /** A description of one line that does not end in a backslash is read as it is and leaves everything else alone. */
  lemma OneLineDescription(c: CompGlobals, what: string)
    requires IsTitle(what) && OneLine(DescSubstring(c)) && !RunsOn(c)
    ensures var u := AtDescription(c, what);
            && u == AfterHeader(c.id).(description := if Described(c) then Some(what + DescSubstring(c)) else None)
            && AtSection(c, what) == u.(section := SERVICE)
    ensures SectionStands(c, what) && !OwnCommand(c, what, false) && !OwnCommand(c, what, true)
  {
    if Described(c) {
      var line := DESCRIPTION + what + DescSubstring(c);
      DescriptionLine(what, c);
      LastLineIsRead(AfterHeader(c.id), line);
      RawLineIsLine(AfterHeader(c.id), line);
      WithDescriptionLine(AfterHeader(c.id), line);
    } else {
      NothingIsRead(AfterHeader(c.id));
    }
    SectionLine(AtDescription(c, what));
  }

  /** A description of several lines: the first is the setting, the others are read as lines of the file. */
  lemma LongDescription(c: CompGlobals, what: string, first: string, text: string)
    requires Description(what, c) == (DESCRIPTION + first) + "\n" + text
    requires OneLine(DESCRIPTION + first) && !Dangling(DESCRIPTION + first)
    ensures AtDescription(c, what) == WithText(AfterHeader(c.id).(description := Some(first)), text)
  {
    var line := DESCRIPTION + first;
    assert line[0] == DESCRIPTION[0] == 'D';
    OneLineIsRead(AfterHeader(c.id), line, text);
    RawLineIsLine(AfterHeader(c.id), line);
    WithDescriptionLine(AfterHeader(c.id), line);
    assert line[|DESCRIPTION|..] == first;
  }

  /** One that ends in a backslash swallows the section header: the printed command is never in force. */
  lemma DescriptionSwallows(c: CompGlobals, what: string)
    requires IsTitle(what) && OneLine(DescSubstring(c)) && RunsOn(c)
    ensures AtSection(c, what).section == UNIT && AtSection(c, what).starts == [FromTemplate]
    ensures !SectionStands(c, what) && !OwnCommand(c, what, false) && !OwnCommand(c, what, true)
  {
    var line := DESCRIPTION + what + DescSubstring(c);
    var pending := Continued(line);
    DescriptionLine(what, c);
    LastLineIsRead(AfterHeader(c.id), line);
    DanglingLineIsRead(AfterHeader(c.id), line);
    assert HasPrefix(pending, DESCRIPTION);
    ContinuedSection(AfterHeader(c.id), pending);
    WithDescriptionLine(AfterHeader(c.id), pending);
    assert SERVICE[1] == 'S' && UNIT[1] == 'U';
  }

  lemma ContinuedSection(u: UnitText, pending: string)
    requires u.section == UNIT && u.pending == "" && HasPrefix(pending, DESCRIPTION)
    ensures WithRawLine(u.(pending := pending), SERVICE) == u.(description := Some((pending + SERVICE)[|DESCRIPTION|..]))
  {
    var joined := pending + SERVICE;
    assert SERVICE[0] == '[' && SERVICE[|SERVICE| - 1] == ']';
    assert joined[|joined| - 1] == ']' && !Dangling(joined);
    WithDescriptionLine(u, joined);
  }

  lemma DanglingLineIsRead(u: UnitText, line: string)
    requires u.pending == "" && line != "" && line[0] != '#' && line[0] != ';' && Dangling(line)
    ensures WithRawLine(u, line) == u.(pending := Continued(line))
  {
    assert "" + line == line;
  }

  /** For a description of one line, the printed command is in force if and only if it does not end in a backslash. */
  lemma SectionStandsIff(c: CompGlobals, what: string)
    requires IsTitle(what) && OneLine(DescSubstring(c))
    ensures SectionStands(c, what) <==> !RunsOn(c)
    ensures !OwnCommand(c, what, false) && !OwnCommand(c, what, true)
  {
    if RunsOn(c) {
      DescriptionSwallows(c, what);
    } else {
      OneLineDescription(c, what);
    }
  }

  /** The description systemd shows is the one that was printed if and only if it holds no specifier. */
  lemma DescriptionShownIff(host: Host, description: string)
    requires Without(host, '%')
    ensures Specified(host, description) == description <==> !HasSpecifier(host, description)
  {
    SpecifiedCount(host, description, '%');
    if !HasSpecifier(host, description) {
      SpecifiedUntouched(host, description);
    }
  }

  /** So with such a description the template's command stays in force. */
  lemma SwallowedOverride(c: CompGlobals, what: string, argv: Option<seq<string>>)
    requires IsPlain(c.id) && IsTitle(what) && OneLine(DescSubstring(c)) && RunsOn(c)
    requires argv.Some? ==> argv.value != [] && forall p | p in argv.value :: OneLine(p)
    ensures DropinText(c, what, argv).Some? && ReadUnit(DropinText(c, what, argv).value).starts == [FromTemplate]
  {
    DropinOf(c, what, argv);
    DescriptionSwallows(c, what);
    DropinIsRead(c, what, argv);
  }

  /** Otherwise a description of one line is read with the compositor id and exactly one command: the printed one instead
      of the template's if it can be read, or the template's where none was printed. */
  lemma OneLineDropin(c: CompGlobals, what: string, argv: Option<seq<string>>)
    requires IsPlain(c.id) && IsTitle(what) && OneLine(DescSubstring(c)) && !RunsOn(c)
    requires argv.Some? ==> argv.value != [] && forall p | p in argv.value :: OneLine(p)
    requires DropinText(c, what, argv).Some?
    ensures var u := ReadUnit(DropinText(c, what, argv).value);
            && u.mark == Some(c.id)
            && u.description == (if Described(c) then Some(what + DescSubstring(c)) else None)
            && u.starts == (if argv.None? then [FromTemplate]
                            else if Words(ShlexJoin(argv.value), Plain, None).None? then []
                            else [Setting(ShlexJoin(argv.value))])
  {
    OneLineDescription(c, what);
    DropinIsRead(c, what, argv);
  }

  // ----- the arguments that arrive -----

  lemma OverrideStarts(host: Host, c: CompGlobals, what: string, argv: seq<string>, template: seq<string>)
    requires IsPlain(c.id) && argv != [] && forall p | p in argv :: OneLine(p)
    ensures StartedArgs(host, DropinText(c, what, Some(argv)), template)
            == if SectionStands(c, what) then Arguments(host, ShlexJoin(argv))
               else StartedFrom(host, AtSection(c, what).starts, template)
  {
    DropinOf(c, what, Some(argv));
    DropinIsRead(c, what, Some(argv));
  }

  lemma TemplateStarts(host: Host, c: CompGlobals, what: string, template: seq<string>)
    requires IsPlain(c.id)
    ensures StartedArgs(host, DropinText(c, what, None), template)
            == StartedFrom(host, Finished(AtDescription(c, what)).starts, template)
  {
    DropinOf(c, what, None);
    if Described(c) {
      DropinIsRead(c, what, None);
    } else {
      NothingIsRead(AfterHeader(c.id));
    }
  }

  /** A command of the description's own runs in place of whatever was printed. */
  lemma OwnCommandRuns(host: Host, c: CompGlobals, what: string, argv: Option<seq<string>>, template: seq<string>)
    requires IsPlain(c.id) && OwnCommand(c, what, argv.Some?)
    requires argv.Some? ==> argv.value != [] && forall p | p in argv.value :: OneLine(p)
    ensures StartedArgs(host, DropinText(c, what, argv), template)
            == StartedFrom(host, (if argv.Some? then AtSection(c, what) else Finished(AtDescription(c, what))).starts, template)
  {
    if argv.Some? {
      OverrideStarts(host, c, what, argv.value, template);
    } else {
      TemplateStarts(host, c, what, template);
    }
  }

  lemma InstanceCompletes(host: Host, id: string)
    requires Instance(host, id) && IsPlain(id)
    ensures Completed(host, ["%I"]) == [id]
  {
    assert "%I"[0] == '%' && "%I"[1] == 'I' && "%I"[2..] == "";
    assert Specified(host, "%I") == id + "" == id;
    PlainIsUntouched(host, id);
    SubstitutedUntouched(host, id);
    assert SpecifiedAll(host, ["%I"]) == [id];
    assert ExpandedAll(host, [id]) == [id] + [];
  }

  lemma CompletedAround(host: Host, front: seq<string>, rest: seq<string>, id: string)
    requires Instance(host, id) && IsPlain(id)
    ensures Completed(host, front + ["%I"] + rest) == Completed(host, front) + [id] + Completed(host, rest)
  {
    CompletedConcat(host, front + ["%I"], rest);
    CompletedConcat(host, front, ["%I"]);
    InstanceCompletes(host, id);
  }

  lemma UntouchedArguments(host: Host, args: seq<string>)
    requires args != [] && forall a | a in args :: OneLine(a) && !HasEscape(a)
    ensures Arguments(host, ShlexJoin(args)) == Some(Completed(host, args))
  {
    JoinedIsRead(args);
    ReadAllExactlyIff(args);
  }

  /** Untouched words arrive around the id, from the template or from a printed command. */
  lemma WordsArrive(host: Host, c: CompGlobals, what: string, argv: Option<seq<string>>, template: seq<string>,
                    front: seq<string>, rest: seq<string>)
    requires IsPlain(c.id) && Instance(host, c.id)
    requires (if argv.Some? then argv.value else template) == front + ["%I"] + rest
    requires if argv.Some? then SectionStands(c, what) else !OwnCommand(c, what, false)
    requires forall p | p in front + rest :: Untouched(host, p)
    ensures StartedArgs(host, DropinText(c, what, argv), template) == Some(front + [c.id] + rest)
  {
    var words := front + ["%I"] + rest;
    assert forall p | p in front || p in rest :: p in front + rest;
    WordsComplete(host, front, rest, c.id);
    if argv.Some? {
      InstanceWordIsPlain();
      assert forall p | p in words :: p == "%I" || p in front + rest;
      UntouchedArguments(host, words);
      OverrideStarts(host, c, what, words, template);
    } else {
      TemplateStarts(host, c, what, template);
    }
  }

  lemma WordsComplete(host: Host, front: seq<string>, rest: seq<string>, id: string)
    requires Instance(host, id) && IsPlain(id)
    requires forall p | p in front || p in rest :: Untouched(host, p)
    ensures Completed(host, front + ["%I"] + rest) == front + [id] + rest
  {
    CompletedAround(host, front, rest, id);
    CompletedUntouched(host, front);
    CompletedUntouched(host, rest);
  }

  lemma InstanceWordIsPlain()
    ensures OneLine("%I") && !HasEscape("%I") && Reads("%I") == Some("%I")
    ensures Count("%I", '\\') == 0 && Count("%I", '$') == 0
  {
    assert '\\' !in "%I" && '$' !in "%I";
    CountAbsent("%I", '\\');
    CountAbsent("%I", '$');
    PlainReads("%I");
  }

  // ----- what can have arrived at all -----

  lemma OverrideCount(argv: seq<string>)
    requires argv != []
    ensures Count(ExecOverride(argv), '\\') == CountAll(argv, '\\')
    ensures Count(EXEC_START + ShlexJoin(argv) + "\n", '\\') == CountAll(argv, '\\')
  {
    CommandLineText(argv);
    JoinedCount(argv, '\\');
    var reset, line := EXEC_START + "\n", EXEC_START + ShlexJoin(argv);
    CountAbsent(EXEC_START, '\\');
    CountConcat(EXEC_START, ShlexJoin(argv), '\\');
    CountConcat(line, "\n", '\\');
    CountConcat(EXEC_START, "\n", '\\');
    assert Count("\n", '\\') == 0;
    CountConcat(reset, line + "\n", '\\');
    CountAbsent(SERVICE + "\n", '\\');
    CountConcat(SERVICE + "\n", reset + (line + "\n"), '\\');
  }

  /** Whatever the arguments hold, each command in force is the template's or a single line without more backslashes than
      were printed, unless the description has one of its own. */
  lemma StartsAreLimited(c: CompGlobals, what: string, argv: seq<string>)
    requires IsPlain(c.id) && argv != [] && !OwnCommand(c, what, true)
    ensures DropinText(c, what, Some(argv)).Some?
    ensures Limited(ReadUnit(DropinText(c, what, Some(argv)).value), [FromTemplate], CountAll(argv, '\\'))
  {
    var command := EXEC_START + ShlexJoin(argv) + "\n";
    var u := AtSection(c, what);
    DropinOf(c, what, Some(argv));
    CommandLineText(argv);
    OverrideCount(argv);
    SectionIsRead(c, what, EXEC_START + "\n" + command);
    ResetIsRead(u, command);
    TextIsLimited(if u.section == SERVICE then u.(starts := []) else u, command);
  }

  /** Arguments with as many backslashes as were printed hold no line break. */
  lemma ArrivedOneLine(host: Host, c: CompGlobals, what: string, argv: seq<string>, template: seq<string>,
                       arrived: seq<string>)
    requires IsPlain(c.id) && argv != [] && Tame(host) && !OwnCommand(c, what, true)
    requires Without(host, '\\') || CountAll(argv, '\\') == 0
    requires StartedArgs(host, DropinText(c, what, Some(argv)), template) == Some(arrived)
    requires CountAll(arrived, '\\') >= CountAll(argv, '\\')
    ensures arrived == Completed(host, template) || forall w | w in arrived :: OneLine(w)
  {
    StartsAreLimited(c, what, argv);
    var starts := ReadUnit(DropinText(c, what, Some(argv)).value).starts;
    if starts[0].Setting? {
      assert starts[0] in starts;
      CommandOneLine(host, starts[0].text, arrived);
    }
  }

  lemma CommandOneLine(host: Host, command: string, arrived: seq<string>)
    requires Tame(host) && OneLine(command) && Arguments(host, command) == Some(arrived)
    requires Without(host, '\\') || Count(command, '\\') == 0
    requires CountAll(arrived, '\\') >= Count(command, '\\')
    ensures forall w | w in arrived :: OneLine(w)
  {
    var words := Words(command, Plain, None).value;
    WordsAreBounded(command, Plain, None);
    if Without(host, '\\') {
      CompletedCount(host, words, '\\');
    }
    OneLineAll(words);
    CompletedCount(host, words, '\n');
    CompletedCount(host, words, '\r');
    OneLineAll(arrived);
  }

  /** Then they were read word by word. */
  lemma ArrivedWordByWord(host: Host, c: CompGlobals, what: string, argv: seq<string>, template: seq<string>,
                          arrived: seq<string>)
    requires IsPlain(c.id) && argv != [] && !OwnCommand(c, what, true) && forall p | p in argv :: OneLine(p)
    requires Without(host, '\\') || CountAll(argv, '\\') == 0
    requires StartedArgs(host, DropinText(c, what, Some(argv)), template) == Some(arrived)
    requires CountAll(arrived, '\\') >= CountAll(argv, '\\')
    ensures arrived == Completed(host, template)
            || (SectionStands(c, what) && ReadAll(argv).Some? && arrived == Completed(host, ReadAll(argv).value))
  {
    OverrideStarts(host, c, what, argv, template);
    if SectionStands(c, what) {
      ArrivedWords(host, argv, Words(ShlexJoin(argv), Plain, None).value);
    }
  }

  lemma {:induction false} ReadAllConcat(a: seq<string>, b: seq<string>)
    ensures ReadAll(a + b)
            == if ReadAll(a).Some? && ReadAll(b).Some? then Some(ReadAll(a).value + ReadAll(b).value) else None
    decreases |a|
  {
    if a == [] {
      assert a + b == b;
      if ReadAll(b).Some? {
        assert [] + ReadAll(b).value == ReadAll(b).value;
      }
    } else {
      assert (a + b)[1..] == a[1..] + b;
      ReadAllConcat(a[1..], b);
      if Reads(a[0]).Some? && ReadAll(a[1..]).Some? && ReadAll(b).Some? {
        ConcatAssociates([Reads(a[0]).value], ReadAll(a[1..]).value, ReadAll(b).value);
      }
    }
  }

  lemma ReadAllAround(front: seq<string>, rest: seq<string>)
    requires ReadAll(front + ["%I"] + rest).Some?
    ensures ReadAll(front).Some? && ReadAll(rest).Some?
    ensures ReadAll(front + ["%I"] + rest).value == ReadAll(front).value + ["%I"] + ReadAll(rest).value
  {
    InstanceWordIsPlain();
    ReadAllConcat(front + ["%I"], rest);
    ReadAllConcat(front, ["%I"]);
    assert ["%I"][1..] == [] && ["%I"] + [] == ["%I"];
    assert ReadAll(["%I"]) == Some(["%I"]);
  }

  /** Words whose readings are completed to no fewer percent and dollar signs were untouched. */
  lemma ReadUntouched(host: Host, args: seq<string>)
    requires Tame(host) && ReadAll(args).Some? && forall a | a in args :: OneLine(a)
    requires Completed(host, ReadAll(args).value) == args
    ensures forall a | a in args :: Untouched(host, a)
  {
    ReadAllFacts(args, '%');
    ReadAllFacts(args, '$');
    CompletedUnchanged(host, ReadAll(args).value);
    ReadAllExactlyIff(args);
  }

  // ----- the main service -----

  function ServiceFront(binPath: string): seq<string> {
    [binPath, "aux", "exec", "--"]
  }

  lemma ServiceWords(c: CompGlobals, binPath: string)
    requires IsPlain(binPath)
    ensures var argv := ServiceArgv(c, binPath);
            (if argv.Some? then argv.value else ServiceTemplate(binPath)) == ServiceFront(binPath) + ["%I"] + ServiceArgs(c)
    ensures ServiceTemplate(binPath) == ServiceFront(binPath) + ["%I"] + []
    ensures forall p | p in ServiceFront(binPath) :: IsPlain(p)
    ensures IsTitle(SERVICE_FOR)
  {
    ServiceTitle();
    ServiceFrontIsPlain(binPath);
  }

  lemma ServiceFrontIsPlain(binPath: string)
    requires IsPlain(binPath)
    ensures forall p | p in ServiceFront(binPath) :: IsPlain(p)
  {
    assert IsPlain("aux") && IsPlain("exec") && IsPlain("--");
  }

  lemma PlainFront(host: Host, front: seq<string>)
    requires forall p | p in front :: IsPlain(p)
    ensures ReadAll(front) == Some(front) && Completed(host, front) == front && CountAll(front, '\\') == 0
    ensures forall p | p in front :: Untouched(host, p)
  {
    forall p | p in front
      ensures Untouched(host, p)
    {
      PlainIsUntouched(host, p);
    }
    ReadAllExactlyIff(front);
    CompletedUntouched(host, front);
    AbsentFromAll(front, '\\');
  }

  lemma ServiceParsed(binPath: string, id: string, rest: seq<string>, xdg: seq<string>)
    ensures ParseAux(ServiceFront(binPath) + [id] + rest, "exec") == Some(AuxArgs(None, false, id, rest))
    ensures ResolveAux(AuxArgs(None, false, id, rest), xdg)
            == Resolve(ResolveInput(AuxCmdline(id, rest), [], false, None, None, xdg))
  {
    ParsesService(binPath, id, rest);
  }

  /** The arguments and the description of a printed service drop-in mean nothing to systemd. */
  predicate ServiceUntouched(host: Host, c: CompGlobals) {
    ServiceArgs(c) == [] || (SectionStands(c, SERVICE_FOR) && forall a | a in ServiceArgs(c) :: Untouched(host, a))
  }

  ghost predicate OnHost(host: Host, c: CompGlobals, binPath: string) {
    Instance(host, c.id) && IsPlain(binPath)
  }

  /** No command of the description's own runs as the service. */
  predicate ServiceIsOurs(c: CompGlobals) {
    !OwnCommand(c, SERVICE_FOR, ServiceArgs(c) != [])
  }

  lemma ServiceArrives(host: Host, input: ResolveInput, c: CompGlobals, binPath: string)
    requires StartedAs(input, c) && OnHost(host, c, binPath) && ServiceIsOurs(c) && ServiceUntouched(host, c)
    ensures StartedArgs(host, ServiceDropin(c, binPath), ServiceTemplate(binPath))
            == Some(ServiceFront(binPath) + [c.id] + ServiceArgs(c))
  {
    StartedId(input, c);
    ServiceWords(c, binPath);
    PlainFront(host, ServiceFront(binPath));
    WordsArrive(host, c, SERVICE_FOR, ServiceArgv(c, binPath), ServiceTemplate(binPath), ServiceFront(binPath),
                ServiceArgs(c));
  }

  function StartService(host: Host, c: CompGlobals, binPath: string, xdg: seq<string>): Option<Resolution> {
    StartUnit(host, ServiceDropin(c, binPath), ServiceTemplate(binPath), "exec", xdg)
  }

  predicate Comes(r: Option<Resolution>, cmdline: seq<string>) {
    r.Some? && r.value.Resolved? && r.value.comp.cmdline == cmdline
  }

  lemma StartedServiceId(host: Host, input: ResolveInput, c: CompGlobals, binPath: string, xdg: seq<string>)
    requires StartedAs(input, c) && OnHost(host, c, binPath) && ServiceIsOurs(c) && ServiceUntouched(host, c)
    ensures var r := StartService(host, c, binPath, xdg);
            && r.Some? && r.value.Resolved?
            && r.value.comp.id == c.id && r.value.comp.idUnit == c.idUnit && r.value.comp.binName == c.binName
            && r.value.comp.cmdline == AuxCmdline(c.id, ServiceArgs(c))
  {
    StartsResolved(host, input, c, binPath, xdg);
    StartedFacts(input, c);
    ServiceCmdline(input, c);
    ResolvedId(AuxCmdline(c.id, ServiceArgs(c)), [], false, xdg, c.id);
  }

  lemma StartsResolved(host: Host, input: ResolveInput, c: CompGlobals, binPath: string, xdg: seq<string>)
    requires StartedAs(input, c) && OnHost(host, c, binPath) && ServiceIsOurs(c) && ServiceUntouched(host, c)
    ensures StartService(host, c, binPath, xdg)
            == Some(Resolve(ResolveInput(AuxCmdline(c.id, ServiceArgs(c)), [], false, None, None, xdg)))
  {
    ServiceArrives(host, input, c, binPath);
    ServiceParsed(binPath, c.id, ServiceArgs(c), xdg);
  }

  lemma AuxKeepsCount(argv: seq<string>, action: string, x: char)
    requires ParseAux(argv, action).Some?
    ensures var a := ParseAux(argv, action).value; CountAll(AuxCmdline(a.id, a.cmdline), x) <= CountAll(argv, x)
  {
    var k := if (argv[3] == "-eD" || argv[3] == "-D") && |argv| >= 5 then 5 else 3;
    var a := ParseAux(argv, action).value;
    var words := argv[k..];
    assert a.id == words[1] && a.cmdline == words[2..];
    assert argv == argv[..k] + words && words == words[..2] + words[2..] && words[..2] == [words[0]] + [words[1]];
    CountAllConcat(argv[..k], words, x);
    CountAllConcat(words[..2], words[2..], x);
    CountAllConcat([words[0]], [words[1]], x);
    AuxCmdlineCount(a.id, a.cmdline, x);
    assert [a.id][1..] == [];
  }

  lemma AuxCmdlineCount(id: string, rest: seq<string>, x: char)
    ensures CountAll(AuxCmdline(id, rest), x) <= Count(id, x) + CountAll(rest, x)
  {
    assert [id][1..] == [];
    if rest != [] && rest[0] == "" {
      assert rest[0 := id][1..] == rest[1..];
    }
  }

  lemma ResolvedCmdline(args: AuxArgs, xdg: seq<string>)
    requires ResolveAux(args, xdg).Resolved?
    ensures ResolveAux(args, xdg).comp.cmdline == AuxCmdline(args.id, args.cmdline)
  {
  }

  lemma ServiceArgsCount(c: CompGlobals, x: char)
    requires c.cmdline != []
    ensures CountAll(ServiceArgs(c), x) <= CountAll(c.cmdline, x)
    ensures (forall a | a in c.cmdline :: OneLine(a)) ==> forall a | a in ServiceArgs(c) :: OneLine(a)
  {
    assert c.cmdline == [c.cmdline[0]] + c.cmdline[1..];
    CountAllConcat([c.cmdline[0]], c.cmdline[1..], x);
    if !FirstIsAbsolute(c) && |c.cmdline| > 1 {
      assert ServiceArgs(c)[1..] == c.cmdline[1..];
    }
  }

  function ServiceLine(c: CompGlobals, binPath: string): seq<string> {
    ServiceFront(binPath) + ["%I"] + ServiceArgs(c)
  }

  function ServiceStarted(host: Host, c: CompGlobals, binPath: string): Option<seq<string>> {
    StartedArgs(host, ServiceDropin(c, binPath), ServiceTemplate(binPath))
  }

  lemma ServiceDropinText(c: CompGlobals, binPath: string)
    requires IsPlain(binPath) && ServiceArgs(c) != []
    ensures ServiceDropin(c, binPath) == DropinText(c, SERVICE_FOR, Some(ServiceLine(c, binPath)))
  {
    ServiceWords(c, binPath);
  }

  /** The arguments a command line that came back was made from. */
  lemma CameParsed(host: Host, c: CompGlobals, binPath: string, xdg: seq<string>)
    requires Comes(StartService(host, c, binPath, xdg), c.cmdline)
    ensures var arrived := ServiceStarted(host, c, binPath);
            && arrived.Some? && ParseAux(arrived.value, "exec").Some?
            && AuxCmdline(ParseAux(arrived.value, "exec").value.id, ParseAux(arrived.value, "exec").value.cmdline) == c.cmdline
  {
    ResolvedCmdline(ParseAux(ServiceStarted(host, c, binPath).value, "exec").value, xdg);
  }

  ghost predicate Decides(host: Host, c: CompGlobals) {
    Tame(host) && (Without(host, '\\') || CountAll(c.cmdline, '\\') == 0)
  }

  lemma CameInFull(host: Host, input: ResolveInput, c: CompGlobals, binPath: string, xdg: seq<string>)
    requires StartedAs(input, c) && OnHost(host, c, binPath) && ServiceArgs(c) != []
    requires Comes(StartService(host, c, binPath, xdg), c.cmdline)
    ensures ServiceStarted(host, c, binPath).Some?
    ensures var arrived := ServiceStarted(host, c, binPath).value;
            && arrived != Completed(host, ServiceTemplate(binPath))
            && CountAll(arrived, '\\') >= CountAll(ServiceLine(c, binPath), '\\')
  {
    CameParsed(host, c, binPath, xdg);
    AuxKeepsCount(ServiceStarted(host, c, binPath).value, "exec", '\\');
    TemplateIsShort(host, input, c, binPath, xdg);
    ServiceCounts(host, c, binPath);
  }

  lemma CameOnOneLine(host: Host, input: ResolveInput, c: CompGlobals, binPath: string, xdg: seq<string>)
    requires StartedAs(input, c) && OnHost(host, c, binPath) && ServiceIsOurs(c) && Decides(host, c) && ServiceArgs(c) != []
    requires Comes(StartService(host, c, binPath, xdg), c.cmdline)
    ensures forall a | a in ServiceLine(c, binPath) :: OneLine(a)
  {
    var arrived := ServiceStarted(host, c, binPath).value;
    StartedId(input, c);
    ServiceWords(c, binPath);
    ServiceDropinText(c, binPath);
    ServiceCounts(host, c, binPath);
    CameInFull(host, input, c, binPath, xdg);
    CameParsed(host, c, binPath, xdg);
    ArrivedOneLine(host, c, SERVICE_FOR, ServiceLine(c, binPath), ServiceTemplate(binPath), arrived);
    CameOneLine(c, arrived);
    InstanceWordIsPlain();
  }

  /** A command line that came back went through without losing anything. */
  lemma ServiceCameThrough(host: Host, input: ResolveInput, c: CompGlobals, binPath: string, xdg: seq<string>)
    requires StartedAs(input, c) && OnHost(host, c, binPath) && ServiceIsOurs(c) && Decides(host, c) && ServiceArgs(c) != []
    requires Comes(StartService(host, c, binPath, xdg), c.cmdline)
    ensures SectionStands(c, SERVICE_FOR) && ReadAll(ServiceArgs(c)).Some? && forall a | a in ServiceArgs(c) :: OneLine(a)
    ensures AuxCmdline(c.id, Completed(host, ReadAll(ServiceArgs(c)).value)) == c.cmdline
  {
    var front, rest := ServiceFront(binPath), ServiceArgs(c);
    StartedId(input, c);
    CameOnOneLine(host, input, c, binPath, xdg);
    CameInFull(host, input, c, binPath, xdg);
    ServiceCounts(host, c, binPath);
    ServiceDropinText(c, binPath);
    ServiceTitle();
    ArrivedWordByWord(host, c, SERVICE_FOR, ServiceLine(c, binPath), ServiceTemplate(binPath),
                      ServiceStarted(host, c, binPath).value);
    ReadAllAround(front, rest);
    ServiceWords(c, binPath);
    PlainFront(host, front);
    CompletedAround(host, front, ReadAll(rest).value, c.id);
    ServiceParsed(binPath, c.id, Completed(host, ReadAll(rest).value), xdg);
    CameParsed(host, c, binPath, xdg);
  }

  lemma ServiceTitle()
    ensures IsTitle(SERVICE_FOR)
  {
    assert SERVICE_FOR[|SERVICE_FOR| - 1] == ' ';
  }

  lemma ServiceCounts(host: Host, c: CompGlobals, binPath: string)
    requires IsPlain(binPath) && c.cmdline != []
    ensures CountAll(ServiceFront(binPath) + ["%I"] + ServiceArgs(c), '\\') == CountAll(ServiceArgs(c), '\\')
    ensures CountAll(ServiceArgs(c), '\\') <= CountAll(c.cmdline, '\\')
  {
    var front := ServiceFront(binPath);
    ServiceWords(c, binPath);
    PlainFront(host, front);
    InstanceWordIsPlain();
    assert ["%I"][1..] == [];
    CountAllConcat(front + ["%I"], ServiceArgs(c), '\\');
    CountAllConcat(front, ["%I"], '\\');
    ServiceArgsCount(c, '\\');
  }

  /** The template alone starts the id without arguments, which is not what had been printed. */
  lemma TemplateIsShort(host: Host, input: ResolveInput, c: CompGlobals, binPath: string, xdg: seq<string>)
    requires StartedAs(input, c) && OnHost(host, c, binPath) && ServiceArgs(c) != []
    ensures var argv := Completed(host, ServiceTemplate(binPath));
            && ParseAux(argv, "exec") == Some(AuxArgs(None, false, c.id, []))
            && AuxCmdline(c.id, []) != c.cmdline
  {
    StartedId(input, c);
    ServiceWords(c, binPath);
    PlainFront(host, ServiceFront(binPath));
    CompletedAround(host, ServiceFront(binPath), [], c.id);
    ServiceParsed(binPath, c.id, [], xdg);
    IdIsNotAbsolute(c.id);
  }

  lemma IdIsNotAbsolute(id: string)
    requires FileBasename(id) == id
    ensures !HasPrefix(id, "/")
  {
    BasenameFacts(id);
    assert id != "" ==> id[0] in id;
  }

  lemma CameOneLine(c: CompGlobals, arrived: seq<string>)
    requires ParseAux(arrived, "exec").Some? && forall w | w in arrived :: OneLine(w)
    requires AuxCmdline(ParseAux(arrived, "exec").value.id, ParseAux(arrived, "exec").value.cmdline) == c.cmdline
    requires c.cmdline != []
    ensures forall a | a in ServiceArgs(c) :: OneLine(a)
  {
    AuxKeepsCount(arrived, "exec", '\n');
    AuxKeepsCount(arrived, "exec", '\r');
    OneLineAll(arrived);
    OneLineAll(c.cmdline);
    ServiceArgsCount(c, '\n');
  }

  /** Arguments that make up the same command line are the printed ones. */
  lemma SameCmdline(host: Host, c: CompGlobals, words: seq<string>)
    requires ServiceArgs(c) != [] && c.cmdline != [] && !HasPrefix(c.id, "/")
    requires ReadAll(ServiceArgs(c)) == Some(words)
    requires AuxCmdline(c.id, Completed(host, words)) == c.cmdline
    ensures Completed(host, words) == ServiceArgs(c)
  {
    if !FirstIsAbsolute(c) {
      var tail := c.cmdline[1..];
      assert ServiceArgs(c) == [""] + tail;
      ReadAllConcat([""], tail);
      assert [""][1..] == [] && ReadAll([""]) == Some([""]);
      var more := ReadAll(tail).value;
      assert words == [""] + more;
      CompletedConcat(host, [""], more);
      EmptyCompletes(host);
      var rest := Completed(host, words);
      assert rest == [""] + Completed(host, more);
      assert rest[0 := c.id] == [c.id] + Completed(host, more);
      assert c.cmdline[1..] == Completed(host, more);
    }
  }

  lemma EmptyCompletes(host: Host)
    ensures Completed(host, [""]) == [""]
  {
    assert SpecifiedAll(host, [""]) == [""];
    assert ExpandedAll(host, [""]) == [""] + [];
  }

  /** The service started from its drop-in runs the same compositor with the same command line if and only if the
      executable was absolute or contained no slash, and nothing that was printed means anything to systemd. */
  lemma ServiceRoundTripIff(host: Host, input: ResolveInput, c: CompGlobals, binPath: string, xdg: seq<string>)
    requires StartedAs(input, c) && OnHost(host, c, binPath) && ServiceIsOurs(c) && Decides(host, c)
    ensures Comes(StartService(host, c, binPath, xdg), c.cmdline)
            <==> (FirstIsAbsolute(c) || '/' !in c.cmdline[0]) && ServiceUntouched(host, c)
  {
    StartedId(input, c);
    StartedFacts(input, c);
    ServiceCmdline(input, c);
    IdIsNotAbsolute(c.id);
    if ServiceUntouched(host, c) {
      StartedServiceId(host, input, c, binPath, xdg);
    } else if Comes(StartService(host, c, binPath, xdg), c.cmdline) {
      ServiceCameThrough(host, input, c, binPath, xdg);
      SameCmdline(host, c, ReadAll(ServiceArgs(c)).value);
      ReadUntouched(host, ServiceArgs(c));
    }
  }

  // ----- the environment preloader -----

  lemma AroundCounts(front: seq<string>, rest: seq<string>, id: string, x: char)
    requires IsPlain(id) && (x == '\\' || x == '%' || x == '$' || x == '\n' || x == '\r')
    ensures CountAll(front + [id] + rest, x) == CountAll(front, x) + CountAll(rest, x)
  {
    CountAbsent(id, x);
    assert [id][1..] == [];
    CountAllConcat(front + [id], rest, x);
    CountAllConcat(front, [id], x);
  }

  lemma AroundInstanceCount(front: seq<string>, rest: seq<string>)
    ensures CountAll(front + ["%I"] + rest, '\\') == CountAll(front, '\\') + CountAll(rest, '\\')
  {
    InstanceWordIsPlain();
    assert ["%I"][1..] == [];
    CountAllConcat(front + ["%I"], rest, '\\');
    CountAllConcat(front, ["%I"], '\\');
  }

  /** Completed readings of two lists of words that add up to the printed ones around the id. */
  lemma BothUnchanged(host: Host, front: seq<string>, rest: seq<string>, id: string)
    requires Tame(host) && IsPlain(id) && ReadAll(front).Some? && ReadAll(rest).Some?
    requires Completed(host, ReadAll(front).value) + [id] + Completed(host, ReadAll(rest).value) == front + [id] + rest
    ensures forall a | a in front || a in rest :: !HasEscape(a) && !HasSpecifier(host, a) && !HasVariable(a)
  {
    var f, r := ReadAll(front).value, ReadAll(rest).value;
    BothKeep(host, front, rest, id, '%');
    BothKeep(host, front, rest, id, '$');
    CompletedUnchanged(host, f);
    CompletedUnchanged(host, r);
    ReadAllFacts(front, '%');
    assert (front + [id] + rest)[..|f|] == f && (front + [id] + rest)[..|front|] == front;
    assert (front + [id] + rest)[|f| + 1..] == r && (front + [id] + rest)[|front| + 1..] == rest;
    ReadAllExactlyIff(front);
    ReadAllExactlyIff(rest);
  }

  lemma BothKeep(host: Host, front: seq<string>, rest: seq<string>, id: string, x: char)
    requires Tame(host) && IsPlain(id) && ReadAll(front).Some? && ReadAll(rest).Some? && (x == '%' || x == '$')
    requires Completed(host, ReadAll(front).value) + [id] + Completed(host, ReadAll(rest).value) == front + [id] + rest
    ensures CountAll(Completed(host, ReadAll(front).value), x) >= CountAll(ReadAll(front).value, x)
    ensures CountAll(Completed(host, ReadAll(rest).value), x) >= CountAll(ReadAll(rest).value, x)
  {
    var f, r := ReadAll(front).value, ReadAll(rest).value;
    AroundCounts(front, rest, id, x);
    AroundCounts(Completed(host, f), Completed(host, r), id, x);
    ReadAllFacts(front, x);
    ReadAllFacts(rest, x);
    CompletedCount(host, f, x);
    CompletedCount(host, r, x);
  }

  lemma CameAround(host: Host, c: CompGlobals, what: string, template: seq<string>, front: seq<string>, rest: seq<string>)
    requires IsPlain(c.id) && Instance(host, c.id) && Tame(host) && !OwnCommand(c, what, true)
    requires Without(host, '\\') || CountAll(front + rest, '\\') == 0
    requires Completed(host, template) != front + [c.id] + rest
    requires StartedArgs(host, DropinText(c, what, Some(front + ["%I"] + rest)), template) == Some(front + [c.id] + rest)
    ensures SectionStands(c, what) && forall a | a in front || a in rest :: Untouched(host, a)
  {
    var argv, arrived := front + ["%I"] + rest, front + [c.id] + rest;
    AroundCounts(front, rest, c.id, '\\');
    AroundInstanceCount(front, rest);
    CountAllConcat(front, rest, '\\');
    ArrivedOneLine(host, c, what, argv, template, arrived);
    InstanceWordIsPlain();
    forall a | a in argv
      ensures OneLine(a)
    {
      assert a == "%I" || a in arrived;
    }
    ArrivedWordByWord(host, c, what, argv, template, arrived);
    ReadAllAround(front, rest);
    CompletedAround(host, ReadAll(front).value, ReadAll(rest).value, c.id);
    BothUnchanged(host, front, rest, c.id);
    assert forall a | a in front || a in rest :: a in argv;
  }

  function PreloaderFront(c: CompGlobals, binPath: string): seq<string> {
    [binPath, "aux", "prepare-env"] + NameArgs(c) + ["--"]
  }

  /** The arguments and the description of a printed preloader drop-in mean nothing to systemd. */
  predicate PreloaderUntouched(host: Host, c: CompGlobals) {
    || (NameArgs(c) == [] && !FirstIsAbsolute(c))
    || (SectionStands(c, PRELOADER_FOR) && forall a | a in NameArgs(c) + HardcodedArg(c) :: Untouched(host, a))
  }

  /** No command of the description's own runs as the preloader. */
  predicate PreloaderIsOurs(c: CompGlobals) {
    !OwnCommand(c, PRELOADER_FOR, NameArgs(c) != [] || FirstIsAbsolute(c))
  }

  lemma PreloaderTitle()
    ensures IsTitle(PRELOADER_FOR)
  {
    assert PRELOADER_FOR[|PRELOADER_FOR| - 1] == ' ';
  }

  lemma PreloaderWords(c: CompGlobals, binPath: string)
    ensures var argv := PreloaderArgv(c, binPath);
            (if argv.Some? then argv.value else PreloaderTemplate(binPath))
            == PreloaderFront(c, binPath) + ["%I"] + HardcodedArg(c)
  {
    RegroupWords([binPath, "aux", "prepare-env"], NameArgs(c), HardcodedArg(c));
    if PreloaderArgv(c, binPath).None? {
      assert [binPath, "aux", "prepare-env"] + [] == [binPath, "aux", "prepare-env"];
    }
  }

  lemma RegroupWords(front: seq<string>, names: seq<string>, rest: seq<string>)
    ensures front + (names + ["--", "%I"] + rest) == (front + names + ["--"]) + ["%I"] + rest
  {
  }

  lemma FixedWordsArePlain()
    ensures IsPlain("aux") && IsPlain("prepare-env") && IsPlain("--") && IsPlain("-D") && IsPlain("")
  {
  }

  lemma FixedWordsUntouched(host: Host)
    ensures Untouched(host, "aux") && Untouched(host, "prepare-env") && Untouched(host, "--")
    ensures Untouched(host, "-D") && Untouched(host, "")
  {
    FixedWordsArePlain();
    PlainIsUntouched(host, "aux");
    PlainIsUntouched(host, "prepare-env");
    PlainIsUntouched(host, "--");
    PlainIsUntouched(host, "-D");
    PlainIsUntouched(host, "");
  }

  lemma PreloaderWordsUntouched(host: Host, c: CompGlobals, binPath: string)
    requires IsPlain(binPath)
    ensures (forall a | a in PreloaderFront(c, binPath) + HardcodedArg(c) :: Untouched(host, a))
            <==> forall a | a in NameArgs(c) + HardcodedArg(c) :: Untouched(host, a)
  {
    FixedWordsUntouched(host);
    PlainIsUntouched(host, binPath);
    var all := PreloaderFront(c, binPath) + HardcodedArg(c);
    assert forall a | a in NameArgs(c) + HardcodedArg(c) :: a in all;
    assert forall a | a in all ::
        a == binPath || a == "aux" || a == "prepare-env" || a == "--" || a in NameArgs(c) + HardcodedArg(c);
  }

  lemma PreloaderArrives(host: Host, input: ResolveInput, c: CompGlobals, binPath: string)
    requires StartedAs(input, c) && OnHost(host, c, binPath) && PreloaderIsOurs(c) && PreloaderUntouched(host, c)
    ensures StartedArgs(host, PreloaderDropin(c, binPath), PreloaderTemplate(binPath))
            == Some(PreloaderFront(c, binPath) + [c.id] + HardcodedArg(c))
  {
    StartedId(input, c);
    PreloaderTitle();
    PreloaderWords(c, binPath);
    PreloaderWordsUntouched(host, c, binPath);
    WordsArrive(host, c, PRELOADER_FOR, PreloaderArgv(c, binPath), PreloaderTemplate(binPath),
                PreloaderFront(c, binPath), HardcodedArg(c));
  }

  /** The arguments printed for the preloader reach it around the id if and only if they, and the description, mean
      nothing to systemd. */
  lemma PreloaderArrivesIff(host: Host, input: ResolveInput, c: CompGlobals, binPath: string)
    requires StartedAs(input, c) && OnHost(host, c, binPath) && PreloaderIsOurs(c) && Tame(host)
    requires Without(host, '\\') || CountAll(PreloaderFront(c, binPath) + HardcodedArg(c), '\\') == 0
    ensures StartedArgs(host, PreloaderDropin(c, binPath), PreloaderTemplate(binPath))
            == Some(PreloaderFront(c, binPath) + [c.id] + HardcodedArg(c))
            <==> PreloaderUntouched(host, c)
  {
    var front, rest := PreloaderFront(c, binPath), HardcodedArg(c);
    StartedId(input, c);
    if PreloaderUntouched(host, c) {
      PreloaderArrives(host, input, c, binPath);
    } else if StartedArgs(host, PreloaderDropin(c, binPath), PreloaderTemplate(binPath)) == Some(front + [c.id] + rest) {
      PreloaderTitle();
      PreloaderWords(c, binPath);
      PreloaderTemplateIsShort(host, c, binPath);
      CameAround(host, c, PRELOADER_FOR, PreloaderTemplate(binPath), front, rest);
      PreloaderWordsUntouched(host, c, binPath);
    }
  }

  lemma PreloaderTemplateIsShort(host: Host, c: CompGlobals, binPath: string)
    requires OnHost(host, c, binPath) && IsPlain(c.id) && PreloaderArgv(c, binPath).Some?
    ensures Completed(host, PreloaderTemplate(binPath)) != PreloaderFront(c, binPath) + [c.id] + HardcodedArg(c)
  {
    var front := [binPath, "aux", "prepare-env", "--"];
    FixedWordsArePlain();
    PlainFront(host, front);
    assert PreloaderTemplate(binPath) == front + ["%I"] + [];
    CompletedAround(host, front, [], c.id);
    assert |Completed(host, PreloaderTemplate(binPath))| == 5;
  }

  function StartPreloader(host: Host, c: CompGlobals, binPath: string, xdg: seq<string>): Option<Resolution> {
    StartUnit(host, PreloaderDropin(c, binPath), PreloaderTemplate(binPath), "prepare-env", xdg)
  }

  lemma PreloaderStarts(host: Host, input: ResolveInput, c: CompGlobals, binPath: string, xdg: seq<string>)
    requires StartedAs(input, c) && OnHost(host, c, binPath) && PreloaderIsOurs(c) && PreloaderUntouched(host, c)
    ensures StartPreloader(host, c, binPath, xdg)
            == if NamesAccepted(c)
               then Some(Resolve(ResolveInput(AuxCmdline(c.id, HardcodedArg(c)),
                                              SplitColon(if NameArgs(c) == [] then "" else NameArgs(c)[1]),
                                              c.exclusive, None, None, xdg)))
               else None
  {
    PreloaderArrives(host, input, c, binPath);
    ParsesPreloader(binPath, c, HardcodedArg(c));
  }

  /** The preloader started from its drop-in runs if and only if the printed names do not look like an option. It then
      prepares the same compositor id and binary name, and the same desktop names if and only if they are not the single
      empty name carried by no `XDG_CURRENT_DESKTOP`. The variable is unset for `aux`, or as it was for `start`. */
  lemma PreloaderRoundTrip(host: Host, input: ResolveInput, c: CompGlobals, binPath: string, xdg: seq<string>)
    requires StartedAs(input, c) && OnHost(host, c, binPath) && PreloaderIsOurs(c) && PreloaderUntouched(host, c)
    requires input.desktopNames != [""] && forall n | n in input.xdg + input.desktopNames :: ':' !in n
    requires xdg == [] || xdg == input.xdg
    ensures var r := StartPreloader(host, c, binPath, xdg);
            && (r.Some? <==> NamesAccepted(c))
            && (r.Some? ==>
                  && r.value.Resolved?
                  && r.value.comp.id == c.id && r.value.comp.idUnit == c.idUnit && r.value.comp.binName == c.binName
                  && (r.value.comp.desktopNames == c.desktopNames
                      <==> c.exclusive || c.desktopNames != [""] || xdg != []))
  {
    PreloaderStarts(host, input, c, binPath, xdg);
    if NamesAccepted(c) {
      StartedFacts(input, c);
      StartedId(input, c);
      PreloaderCmdline(input, c);
      ResolvedId(AuxCmdline(c.id, HardcodedArg(c)), SplitColon(if NameArgs(c) == [] then "" else NameArgs(c)[1]),
                 c.exclusive, xdg, c.id);
      NamesComeBack(input.xdg, input.desktopNames, input.exclusive, c, xdg);
    }
  }
}
