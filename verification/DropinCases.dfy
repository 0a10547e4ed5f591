/** Compositors that a printed drop-in does not bring back. */
module DropinCases {
  import opened Wrappers
  import opened Strings
  import opened Escape
  import opened Marks
  import opened Shell
  import opened CommandLine
  import opened UnitFile
  import opened Dropin
  import opened DropinStart

  function SwayInput(executable: string, args: seq<string>, names: seq<string>, description: Option<string>): ResolveInput {
    ResolveInput([executable] + args, names, false, None, description, [])
  }

  function Sway(executable: string, args: seq<string>, names: seq<string>, description: Option<string>): CompGlobals {
    CompGlobals([executable] + args, "sway", Escaped("sway", false), "sway",
                Dedup(if names == [] then ["sway"] else names), None, description, names, false)
  }

  lemma SwayResolves(head: string, args: seq<string>, names: seq<string>, description: Option<string>)
    requires (head == "" || head[|head| - 1] == '/') && ':' !in head
    ensures StartedAs(SwayInput(head + "sway", args, names, description), Sway(head + "sway", args, names, description))
  {
    SwayAfter(head);
    SwayIsNoEntry(head);
    assert [] + names == names;
    assert IsWmId("sway");
  }

  lemma SwayIsNoEntry(head: string)
    requires ':' !in head
    ensures !IsEntryArg(head + "sway")
  {
    var executable := head + "sway";
    assert executable[|executable| - 1] == 'y' && ".desktop"[7] == 'p' && ".desktop:"[8] == ':' && ':' !in executable;
    forall i | 0 <= i <= |executable|
      ensures !(".desktop:" <= executable[i..])
    {
      if |executable[i..]| >= 9 {
        assert executable[i..][8] in executable;
      }
    }
  }

  lemma SwayPaths()
    ensures "" + "sway" == "sway" && "./" + "sway" == "./sway" && "/usr/bin/" + "sway" == "/usr/bin/sway"
  {
  }

  lemma BasenameStep(p: string, c: char)
    requires c != '/'
    ensures FileBasename(p + [c]) == FileBasename(p) + [c]
  {
    assert (p + [c])[..|p|] == p;
  }

  lemma Spelled(head: string)
    ensures head + "sway" == head + ['s'] + ['w'] + ['a'] + ['y']
    ensures "" + ['s'] + ['w'] + ['a'] + ['y'] == "sway"
  {
  }

  lemma SwayAfter(head: string)
    requires head == "" || head[|head| - 1] == '/'
    ensures FileBasename(head + "sway") == "sway"
  {
    var s := head + ['s'];
    var sw := s + ['w'];
    var swa := sw + ['a'];
    BasenameStep(head, 's');
    BasenameStep(s, 'w');
    BasenameStep(sw, 'a');
    BasenameStep(swa, 'y');
    Spelled(head);
  }

  /** A relative path with a slash comes back as the bare name. */
  lemma RelativePathChanges(host: Host, binPath: string, xdg: seq<string>)
    requires Instance(host, "sway") && IsPlain(binPath)
    ensures Comes(StartService(host, Sway("./sway", [], [], None), binPath, xdg), ["sway"])
  {
    SwayResolves("./", [], [], None);
    SwayPaths();
    RelativeWords(Sway("./sway", [], [], None));
    ServiceTitle();
    SectionStandsIff(Sway("./sway", [], [], None), SERVICE_FOR);
    StartedServiceId(host, SwayInput("./sway", [], [], None), Sway("./sway", [], [], None), binPath, xdg);
  }

  lemma RelativeWords(c: CompGlobals)
    requires c == Sway("./sway", [], [], None)
    ensures ServiceArgs(c) == [] && OneLine(DescSubstring(c)) && AuxCmdline(c.id, []) == ["sway"]
  {
    assert "./sway"[0] == '.';
    assert OneLine("sway");
  }

  /** An argument with a C escape is not what arrives. */
  lemma EscapedArgumentChanges(host: Host, binPath: string, xdg: seq<string>)
    requires Instance(host, "sway") && IsPlain(binPath) && Tame(host) && Without(host, '\\')
    ensures var c := Sway("/usr/bin/sway", ["a\\tb"], [], None);
            !Comes(StartService(host, c, binPath, xdg), ["/usr/bin/sway", "a\\tb"])
  {
    var c := Sway("/usr/bin/sway", ["a\\tb"], [], None);
    SwayResolves("/usr/bin/", ["a\\tb"], [], None);
    SwayPaths();
    EscapedWords(c);
    ServiceTitle();
    SectionStandsIff(c, SERVICE_FOR);
    ServiceRoundTripIff(host, SwayInput("/usr/bin/sway", ["a\\tb"], [], None), c, binPath, xdg);
  }

  lemma EscapedWords(c: CompGlobals)
    requires c == Sway("/usr/bin/sway", ["a\\tb"], [], None)
    ensures c.cmdline == ["/usr/bin/sway", "a\\tb"] && OneLine(DescSubstring(c))
    ensures ServiceArgs(c) != [] && exists a :: a in ServiceArgs(c) && HasEscape(a)
  {
    TabIsAnEscape();
    assert "/usr/bin/sway"[0] == '/' && c.cmdline[1] in ServiceArgs(c);
    assert OneLine("sway");
  }

  lemma TabIsAnEscape()
    ensures HasEscape("a\\tb")
  {
    var a := "a\\tb";
    assert a[1] == '\\' && (a[2..] + "'")[0] == 't';
  }

  /** A description that ends in a backslash costs the printed command. */
  lemma DescriptionCostsCommand(host: Host, binPath: string, xdg: seq<string>)
    requires Instance(host, "sway") && IsPlain(binPath) && Tame(host) && Without(host, '\\')
    ensures var c := Sway("/usr/bin/sway", [], [], Some("x\\"));
            !Comes(StartService(host, c, binPath, xdg), ["/usr/bin/sway"])
  {
    var c := Sway("/usr/bin/sway", [], [], Some("x\\"));
    SwayResolves("/usr/bin/", [], [], Some("x\\"));
    SwayPaths();
    BackslashRunsOn(c);
    AbsoluteWords(c);
    ServiceTitle();
    SectionStandsIff(c, SERVICE_FOR);
    ServiceRoundTripIff(host, SwayInput("/usr/bin/sway", [], [], Some("x\\")), c, binPath, xdg);
  }

  lemma AbsoluteWords(c: CompGlobals)
    requires c.cmdline == ["/usr/bin/sway"] + []
    ensures ServiceArgs(c) != [] && c.cmdline == ["/usr/bin/sway"]
  {
    assert "/usr/bin/sway"[0] == '/';
  }

  lemma BackslashRunsOn(c: CompGlobals)
    requires c.name == None && c.binName == "sway" && c.description == Some("x\\")
    ensures RunsOn(c) && OneLine(DescSubstring(c))
  {
    assert DescSubstring(c) == "sway, x" + "\\";
    DanglingAppend("sway, x", "\\");
    assert OneLine("sway, x") && OneLine("\\");
  }

  /** Two empty names are one, which is printed as nothing and comes back as the name of the executable. */
  lemma EmptyNameChanges(host: Host, binPath: string)
    requires Instance(host, "sway") && IsPlain(binPath)
    ensures var c := Sway("sway", [], ["", ""], None);
            var r := StartPreloader(host, c, binPath, []);
            c.desktopNames == [""] && r.Some? && r.value.Resolved? && r.value.comp.desktopNames != [""]
  {
    var c := Sway("sway", [], ["", ""], None);
    SwayResolves("", [], ["", ""], None);
    EmptyNames(c);
    PreloaderTitle();
    SectionStandsIff(c, PRELOADER_FOR);
    EmptyNamesUntouched(host, c);
    SwayPaths();
    PreloaderRoundTrip(host, SwayInput("sway", [], ["", ""], None), c, binPath, []);
  }

  lemma EmptyNamesUntouched(host: Host, c: CompGlobals)
    requires NameArgs(c) == ["-D", ""] && HardcodedArg(c) == [] && SectionStands(c, PRELOADER_FOR)
    ensures PreloaderUntouched(host, c) && NamesAccepted(c)
  {
    FixedWordsUntouched(host);
  }

  lemma EmptyNames(c: CompGlobals)
    requires c == Sway("sway", [], ["", ""], None)
    ensures c.desktopNames == [""] && NameArgs(c) == ["-D", ""] && HardcodedArg(c) == [] && OneLine(DescSubstring(c))
    ensures !Described(c)
  {
    assert OneLine("sway") && DescSubstring(c) == "sway" + "";
    assert ["", ""][..1] == [""];
    DedupOne("");
  }

  /** A desktop name that looks like an option is refused as the value of `-D`, and the preloader does not start. */
  lemma DashedNameIsRefused(host: Host, binPath: string, xdg: seq<string>)
    requires Instance(host, "sway") && IsPlain(binPath) && xdg == []
    ensures var c := Sway("sway", [], ["-x"], None);
            c.desktopNames == ["-x"] && StartPreloader(host, c, binPath, xdg) == None
  {
    var c := Sway("sway", [], ["-x"], None);
    SwayResolves("", [], ["-x"], None);
    DashedNames(host, c);
    PreloaderTitle();
    SectionStandsIff(c, PRELOADER_FOR);
    SwayPaths();
    DashedUntouched(host, c);
    assert xdg == SwayInput("sway", [], ["-x"], None).xdg;
    PreloaderRoundTrip(host, SwayInput("sway", [], ["-x"], None), c, binPath, xdg);
  }

  lemma DashedUntouched(host: Host, c: CompGlobals)
    requires NameArgs(c) == ["-D", "-x"] && HardcodedArg(c) == [] && SectionStands(c, PRELOADER_FOR)
    requires Untouched(host, "-D") && Untouched(host, "-x")
    ensures PreloaderUntouched(host, c)
  {
  }

  lemma DashedNames(host: Host, c: CompGlobals)
    requires c == Sway("sway", [], ["-x"], None)
    ensures c.desktopNames == ["-x"] && NameArgs(c) == ["-D", "-x"] && HardcodedArg(c) == []
    ensures !Described(c) && OneLine(DescSubstring(c)) && !NamesAccepted(c)
    ensures Untouched(host, "-D") && Untouched(host, "-x")
  {
    DedupOne("-x");
    FixedWordsUntouched(host);
    DashIsPlain(host);
    assert DescSubstring(c) == "sway" + "";
  }

  lemma DashIsPlain(host: Host)
    ensures Untouched(host, "-x") && OneLine("sway") && LooksLikeOption("-x") && "-x" != "sway"
  {
    assert IsPlain("-x") && "-x"[0] == '-';
    PlainIsUntouched(host, "-x");
  }

  const FALSE := "/bin/false"

  const INJECTED := EXEC_RESET + (EXEC_START + FALSE)

  /** A description with line breaks can carry a command of its own, which runs in place of the compositor when nothing
      is printed that resets it. */
  lemma DescriptionBringsCommand(host: Host, binPath: string)
    requires Instance(host, "sway")
    ensures var c := Sway("sway", [], [], Some("x\n" + INJECTED));
            StartedArgs(host, ServiceDropin(c, binPath), ServiceTemplate(binPath)) == Some([FALSE])
  {
    var c := Sway("sway", [], [], Some("x\n" + INJECTED));
    InjectedWords(host);
    InjectedIsRead(c);
    NothingPrinted(c, binPath);
    TemplateStarts(host, c, SERVICE_FOR, ServiceTemplate(binPath));
  }

  lemma NothingPrinted(c: CompGlobals, binPath: string)
    requires c.cmdline == ["sway"] + [] && c.id == "sway"
    ensures ServiceDropin(c, binPath) == DropinText(c, SERVICE_FOR, None) && IsPlain(c.id)
  {
    assert "sway"[0] == 's';
    assert IsPlain("sway");
  }

  lemma InjectedWords(host: Host)
    ensures ShlexJoin([FALSE]) == FALSE && Words(FALSE, Plain, None) == Some([FALSE])
    ensures Arguments(host, FALSE) == Some([FALSE]) && OneLine(FALSE)
  {
    var argv := [FALSE];
    assert IsPlain(FALSE) && AllSafe(FALSE);
    PlainIsUntouched(host, FALSE);
    assert forall a | a in argv :: Untouched(host, a);
    JoinedIsRead(argv);
    ReadAllExactlyIff(argv);
    CompletedUntouched(host, argv);
    assert ShlexJoin(argv) == Quote(argv[0]);
  }

  lemma InjectedText(c: CompGlobals)
    requires c == Sway("sway", [], [], Some("x\n" + INJECTED)) && ShlexJoin([FALSE]) == FALSE
    ensures Description(SERVICE_FOR, c) == (DESCRIPTION + (SERVICE_FOR + "sway, x")) + "\n" + ExecOverride([FALSE])
  {
    InjectedDescription(c);
    ConcatAssociates(EXEC_RESET, EXEC_START + FALSE, "\n");
    InjectedParts(DESCRIPTION, SERVICE_FOR, "sway, x", INJECTED);
  }

  lemma InjectedDescription(c: CompGlobals)
    requires c == Sway("sway", [], [], Some("x\n" + INJECTED))
    ensures Described(c) && DescSubstring(c) == "sway, x" + "\n" + INJECTED
  {
    Rearranged("sway", INJECTED);
    assert "sway" + ", x" == "sway, x";
  }

  lemma Rearranged(a: string, rest: string)
    ensures a + (", " + ("x\n" + rest)) == (a + ", x") + "\n" + rest
  {
  }

  lemma InjectedParts(a: string, b: string, c: string, rest: string)
    ensures a + b + (c + "\n" + rest) + "\n" == (a + (b + c)) + "\n" + (rest + "\n")
  {
  }

  lemma InjectedIsRead(c: CompGlobals)
    requires c == Sway("sway", [], [], Some("x\n" + INJECTED)) && ShlexJoin([FALSE]) == FALSE
    requires Words(FALSE, Plain, None).Some? && OneLine(FALSE)
    ensures Finished(AtDescription(c, SERVICE_FOR)).starts == [Setting(FALSE)]
  {
    var first := SERVICE_FOR + "sway, x";
    InjectedText(c);
    InjectedFirstLine();
    LongDescription(c, SERVICE_FOR, first, ExecOverride([FALSE]));
    InjectedCommand(AfterHeader(c.id).(description := Some(first)));
  }

  lemma InjectedCommand(u: UnitText)
    requires u.pending == "" && ShlexJoin([FALSE]) == FALSE && Words(FALSE, Plain, None).Some? && OneLine(FALSE)
    ensures Finished(WithText(u, ExecOverride([FALSE]))).starts == [Setting(FALSE)]
  {
    CommandTextIsRead(u, [FALSE]);
    assert [] + [Setting(FALSE)] == [Setting(FALSE)];
  }

  lemma InjectedFirstLine()
    ensures var line := DESCRIPTION + (SERVICE_FOR + "sway, x"); OneLine(line) && !Dangling(line)
  {
    var line := DESCRIPTION + (SERVICE_FOR + "sway, x");
    assert OneLine(DESCRIPTION) && OneLine(SERVICE_FOR) && OneLine("sway, x");
    assert line[|line| - 1] == 'x';
  }
}
