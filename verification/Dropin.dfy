/** The per-compositor drop-ins of `templates.rs` and their way back through the `aux` arguments (`main.rs`) into the
    compositor resolution of `comp.rs`, for compositors given as executables. */
module Dropin {
  import opened Wrappers
  import opened Strings
  import opened Utf8
  import opened Escape
  import opened Marks
  import opened Shell
  import opened CommandLine
  import opened UnitFile

  // ----- comp.rs -----

  /** What follows the last slash. */
  function FileBasename(p: string): string
    decreases |p|
  {
    if p == "" || p[|p| - 1] == '/' then "" else FileBasename(p[..|p| - 1]) + [p[|p| - 1]]
  }

  function Dedup(v: seq<string>): seq<string>
    decreases |v|
  {
    if v == [] then []
    else
      var init, last := v[..|v| - 1], v[|v| - 1];
      if last in init then Dedup(init) else Dedup(init) + [last]
  }

  /** `dedup_preserving` */
  method DedupPreserving(v: seq<string>) returns (r: seq<string>)
    ensures r == Dedup(v)
  {
    r := [];
    var seen: set<string> := {};
    for i := 0 to |v|
      invariant seen == set x | x in v[..i]
      invariant r == Dedup(v[..i])
    {
      assert v[..i + 1][..i] == v[..i];
      if v[i] !in seen {
        r := r + [v[i]];
        seen := seen + {v[i]};
      }
    }
    assert v[..|v|] == v;
  }

  datatype CompGlobals = CompGlobals(cmdline: seq<string>, id: string, idUnit: string, binName: string,
                                     desktopNames: seq<string>, name: Option<string>, description: Option<string>,
                                     cliDesktopNames: seq<string>, exclusive: bool)

  datatype ResolveInput = ResolveInput(cmdline: seq<string>, desktopNames: seq<string>, exclusive: bool,
                                       name: Option<string>, description: Option<string>, xdg: seq<string>)

  /** An `Entry` argument names a desktop entry, whose resolution is not part of this model. */
  datatype Resolution = NoCommand | Entry(arg: string) | BadId(id: string) | Resolved(comp: CompGlobals)

  predicate IsEntryArg(arg: string) {
    HasSuffix(arg, ".desktop") || exists i | 0 <= i <= |arg| :: ".desktop:" <= arg[i..]
  }

  function DesktopNames(xdg: seq<string>, cli: seq<string>, exclusive: bool, binName: string): seq<string> {
    Dedup(if exclusive then cli else if xdg + cli == [] then [binName] else xdg + cli)
  }

  /** `names` is `given` without repetitions, each name where it first occurs. */
  ghost predicate FirstOccurrences(given: seq<string>, names: seq<string>) {
    (forall n :: n in names <==> n in given) && forall i, j | 0 <= i < j < |names| :: Precedes(given, names[i], names[j])
  }

  /** `a` occurs in `given`, and `b` does not up to there. */
  ghost predicate Precedes(given: seq<string>, a: string, b: string) {
    exists k :: 0 <= k < |given| && given[k] == a && b !in given[..k + 1]
  }

  /** The last component of a path. */
  ghost predicate IsLastComponent(id: string, path: string) {
    HasSuffix(path, id) && '/' !in id && (id == path || path[|path| - |id| - 1] == '/')
  }

  /** What a resolved compositor promises: an id that is the last component of the executable's path and can be told from its
      unit string, desktop names that are those given, inherited first and without repetitions, or else the id, and everything
      else as given. */
  ghost predicate ResolvedAs(input: ResolveInput, c: CompGlobals) {
    var given := if input.exclusive then input.desktopNames else input.xdg + input.desktopNames;
    && c.cmdline == input.cmdline && c.cmdline != []
    && c.id == c.binName && IsWmId(c.id) && IsLastComponent(c.id, c.cmdline[0])
    && Unescaped(c.idUnit) == Some(Encode(c.id))
    && (if given == [] && !input.exclusive then c.desktopNames == [c.id] else FirstOccurrences(given, c.desktopNames))
    && c.name == input.name && c.description == input.description
    && c.cliDesktopNames == input.desktopNames && c.exclusive == input.exclusive
  }

  /** `CompGlobals::resolve` */
  method ResolveComp(input: ResolveInput) returns (r: Resolution)
    ensures r == Resolve(input)
    ensures r.Resolved? ==> ResolvedAs(input, r.comp)
  {
    if input.cmdline == [] {
      return NoCommand;
    }
    var arg0 := input.cmdline[0];
    if IsEntryArg(arg0) {
      return Entry(arg0);
    }
    var id := FileBasename(arg0);
    if !IsWmId(id) {
      return BadId(id);
    }
    var idUnit := SimpleSystemdEscape(id, false);
    var names: seq<string> := [];
    if input.exclusive {
      names := names + input.desktopNames;
      assert names == input.desktopNames;
    } else {
      names := names + input.xdg;
      names := names + input.desktopNames;
      assert [] + input.xdg == input.xdg;
      if names == [] {
        names := names + [id];
      }
    }
    names := DedupPreserving(names);
    ResolveMeaning(input);
    return Resolved(CompGlobals(input.cmdline, id, idUnit, id, names, input.name, input.description,
                                input.desktopNames, input.exclusive));
  }

  function Resolve(input: ResolveInput): Resolution {
    if input.cmdline == [] then NoCommand
    else if IsEntryArg(input.cmdline[0]) then Entry(input.cmdline[0])
    else
      var id := FileBasename(input.cmdline[0]);
      if !IsWmId(id) then BadId(id)
      else
        Resolved(CompGlobals(input.cmdline, id, Escaped(id, false), id,
                             DesktopNames(input.xdg, input.desktopNames, input.exclusive, id),
                             input.name, input.description, input.desktopNames, input.exclusive))
  }

  /** Which command lines are resolved here, and to what. */
  lemma ResolveMeaning(input: ResolveInput)
    ensures Resolve(input).NoCommand? <==> input.cmdline == []
    ensures Resolve(input).Entry? <==> input.cmdline != [] && IsEntryArg(input.cmdline[0])
    ensures Resolve(input).BadId? ==>
              IsLastComponent(Resolve(input).id, input.cmdline[0]) && !IsWmId(Resolve(input).id)
    ensures Resolve(input).Resolved? ==> ResolvedAs(input, Resolve(input).comp)
  {
    if input.cmdline != [] {
      var id := FileBasename(input.cmdline[0]);
      var given := if input.exclusive then input.desktopNames else input.xdg + input.desktopNames;
      BasenameIsLast(input.cmdline[0]);
      EscapeRoundTrip(id, false);
      DedupOrder(given);
      DedupOne(id);
    }
  }

  // ----- templates.rs -----

  function NonEmpty(s: Option<string>): bool {
    s.Some? && s.value != ""
  }

  function DescSubstring(c: CompGlobals): string {
    (if NonEmpty(c.name) then c.name.value else c.binName)
    + if NonEmpty(c.description) then ", " + c.description.value else ""
  }

  predicate FirstIsAbsolute(c: CompGlobals) {
    c.cmdline != [] && HasPrefix(c.cmdline[0], "/")
  }

  function Header(id: string): string {
    "# injected by wsmr, do not edit\n" + "[Unit]\n" + MARK + id + "\n"
  }

  const EXEC_RESET := "[Service]\n" + EXEC_START + "\n"

  function ExecOverride(argv: seq<string>): string {
    EXEC_RESET + (EXEC_START + ShlexJoin(argv) + "\n")
  }

  predicate Described(c: CompGlobals) {
    NonEmpty(c.name) || NonEmpty(c.description)
  }

  function Description(what: string, c: CompGlobals): string {
    if Described(c) then DESCRIPTION + what + DescSubstring(c) + "\n" else ""
  }

  function NameArgs(c: CompGlobals): seq<string> {
    if c.exclusive then ["-eD", Join(c.cliDesktopNames, ":")]
    else if c.desktopNames != [c.binName] then ["-D", Join(c.desktopNames, ":")]
    else []
  }

  function HardcodedArg(c: CompGlobals): seq<string> {
    if FirstIsAbsolute(c) then [c.cmdline[0]] else []
  }

  /** The arguments of the overriding `ExecStart=` of the preloader, if there is one. */
  function PreloaderArgv(c: CompGlobals, binPath: string): Option<seq<string>> {
    if NameArgs(c) == [] && !FirstIsAbsolute(c) then None
    else Some([binPath, "aux", "prepare-env"] + (NameArgs(c) + ["--", "%I"] + HardcodedArg(c)))
  }

  function ServiceArgs(c: CompGlobals): seq<string> {
    if FirstIsAbsolute(c) then c.cmdline
    else if |c.cmdline| > 1 then [""] + c.cmdline[1..]
    else []
  }

  function ServiceArgv(c: CompGlobals, binPath: string): Option<seq<string>> {
    if ServiceArgs(c) == [] then None else Some([binPath, "aux", "exec", "--", "%I"] + ServiceArgs(c))
  }

  function DropinText(c: CompGlobals, what: string, argv: Option<seq<string>>): Option<string> {
    var extra := Description(what, c) + if argv.Some? then ExecOverride(argv.value) else "";
    if extra == "" then None else Some(Header(c.id) + extra)
  }

  const PRELOADER_FOR := "Environment preloader for "
  const SERVICE_FOR := "Main service for "

  function PreloaderDropin(c: CompGlobals, binPath: string): Option<string> {
    DropinText(c, PRELOADER_FOR, PreloaderArgv(c, binPath))
  }

  function ServiceDropin(c: CompGlobals, binPath: string): Option<string> {
    DropinText(c, SERVICE_FOR, ServiceArgv(c, binPath))
  }

  // ----- main.rs -----

  datatype AuxArgs = AuxArgs(desktopNames: Option<string>, exclusive: bool, id: string, cmdline: seq<string>)

  function ParseAfterDashes(words: seq<string>, names: Option<string>, exclusive: bool): Option<AuxArgs> {
    if |words| >= 2 && words[0] == "--" then Some(AuxArgs(names, exclusive, words[1], words[2..])) else None
  }

  /** A separate value that the option parser takes for an option. */
  predicate LooksLikeOption(value: string) {
    |value| > 1 && value[0] == '-'
  }

  /** The option forms the drop-ins print. */
  function ParseAux(argv: seq<string>, action: string): Option<AuxArgs> {
    if |argv| < 4 || argv[1] != "aux" || argv[2] != action then None
    else if (argv[3] == "-eD" || argv[3] == "-D") && |argv| >= 5 then
      if LooksLikeOption(argv[4]) then None else ParseAfterDashes(argv[5..], Some(argv[4]), argv[3] == "-eD")
    else ParseAfterDashes(argv[3..], None, false)
  }

  function SplitColon(s: string): seq<string> {
    if s == "" then [] else Split(s, ':')
  }

  /** `resolve_aux`: an empty command line means the id, an empty first element too. */
  function ResolveAux(args: AuxArgs, xdg: seq<string>): Resolution {
    var cmdline :=
      if args.cmdline == [] then [args.id]
      else if args.cmdline[0] == "" then args.cmdline[0 := args.id]
      else args.cmdline;
    Resolve(ResolveInput(cmdline, SplitColon(if args.desktopNames.Some? then args.desktopNames.value else ""),
                         args.exclusive, None, None, xdg))
  }

  function PreloaderTemplate(binPath: string): seq<string> {
    [binPath, "aux", "prepare-env", "--", "%I"]
  }

  function ServiceTemplate(binPath: string): seq<string> {
    [binPath, "aux", "exec", "--", "%I"]
  }

  // ----- lemmas on names -----

  lemma {:induction false} BasenameFacts(p: string)
    ensures '/' !in FileBasename(p)
    ensures HasSuffix(p, FileBasename(p))
    ensures FileBasename(p) == p <==> '/' !in p
    decreases |p|
  {
    if p != "" && p[|p| - 1] != '/' {
      var init := p[..|p| - 1];
      BasenameFacts(init);
      var b := FileBasename(p);
      var front := init[..|init| - |FileBasename(init)|];
      assert p == init + [p[|p| - 1]] && init == front + FileBasename(init);
      ConcatAssociates(front, FileBasename(init), [p[|p| - 1]]);
      assert p == front + b;
      if b == p {
        assert b[..|b| - 1] == init;
      }
      assert '/' in p <==> '/' in init;
    }
  }

  lemma {:induction false} BasenameFront(p: string) returns (front: string)
    ensures p == front + FileBasename(p) && (front != "" ==> front[|front| - 1] == '/')
    decreases |p|
  {
    if p == "" || p[|p| - 1] == '/' {
      front := p;
      assert p == p + "";
    } else {
      front := BasenameFront(p[..|p| - 1]);
      assert p == p[..|p| - 1] + [p[|p| - 1]];
      ConcatAssociates(front, FileBasename(p[..|p| - 1]), [p[|p| - 1]]);
    }
  }

  lemma BasenameIsLast(p: string)
    ensures IsLastComponent(FileBasename(p), p)
  {
    BasenameFacts(p);
    var front := BasenameFront(p);
    if front == "" {
      assert front + FileBasename(p) == FileBasename(p);
    }
  }

  lemma {:induction false} DedupFacts(v: seq<string>)
    ensures forall x :: x in Dedup(v) <==> x in v
    ensures forall i, j | 0 <= i < j < |Dedup(v)| :: Dedup(v)[i] != Dedup(v)[j]
    ensures v != [] ==> Dedup(v) != [] && Dedup(v)[0] == v[0]
    decreases |v|
  {
    if v != [] {
      DedupFacts(v[..|v| - 1]);
      assert v == v[..|v| - 1] + [v[|v| - 1]];
    }
  }

  lemma PrecedesLonger(init: seq<string>, last: string, a: string, b: string)
    requires Precedes(init, a, b)
    ensures Precedes(init + [last], a, b)
  {
    var v := init + [last];
    var k :| 0 <= k < |init| && init[k] == a && b !in init[..k + 1];
    assert v[k] == a && v[..k + 1] == init[..k + 1];
  }

  lemma {:induction false} DedupInOrder(v: seq<string>, i: nat, j: nat)
    requires i < j < |Dedup(v)|
    ensures Precedes(v, Dedup(v)[i], Dedup(v)[j])
    decreases |v|
  {
    var init, last := v[..|v| - 1], v[|v| - 1];
    assert v == init + [last];
    DedupFacts(init);
    if j < |Dedup(init)| {
      DedupInOrder(init, i, j);
    } else {
      assert Dedup(v)[j] == last && last !in init && Dedup(init)[i] in init;
      assert Precedes(init, Dedup(v)[i], last);
    }
    PrecedesLonger(init, last, Dedup(v)[i], Dedup(v)[j]);
  }

  /** Deduplicating keeps the first occurrence of every name, in order. */
  lemma DedupOrder(v: seq<string>)
    ensures FirstOccurrences(v, Dedup(v))
  {
    DedupFacts(v);
    forall i, j | 0 <= i < j < |Dedup(v)|
      ensures Precedes(v, Dedup(v)[i], Dedup(v)[j])
    {
      DedupInOrder(v, i, j);
    }
  }

  lemma {:induction false} DedupSeen(a: seq<string>, c: seq<string>)
    requires forall x | x in c :: x in a
    ensures Dedup(a + c) == Dedup(a)
    decreases |c|
  {
    if c == [] {
      assert a + c == a;
    } else {
      var init := c[..|c| - 1];
      assert (a + c)[..|a + c| - 1] == a + init;
      assert c[|c| - 1] in c;
      DedupSeen(a, init);
    }
  }

  /** Deduplicating again behind the same prefix changes nothing. */
  lemma {:induction false} DedupAbsorbs(a: seq<string>, b: seq<string>)
    ensures Dedup(a + Dedup(a + b)) == Dedup(a + b)
    decreases |b|
  {
    if b == [] {
      assert a + b == a;
      DedupFacts(a);
      DedupSeen(a, Dedup(a));
    } else {
      var init, x := b[..|b| - 1], b[|b| - 1];
      assert (a + b)[..|a + b| - 1] == a + init;
      DedupAbsorbs(a, init);
      DedupFacts(a + init);
      if x !in a + init {
        var d := Dedup(a + init);
        assert (a + (d + [x]))[..|a| + |d|] == a + d;
        assert x !in a + d;
      }
    }
  }

  lemma {:induction false} DedupIdempotent(v: seq<string>)
    ensures Dedup(Dedup(v)) == Dedup(v)
  {
    DedupAbsorbs([], v);
    assert [] + v == v && [] + Dedup(v) == Dedup(v);
  }

  lemma SplitColonJoin(names: seq<string>)
    requires forall n | n in names :: ':' !in n
    ensures SplitColon(Join(names, ":")) == if names == [""] then [] else names
  {
    assert ":" == [':'];
    if names != [] && names != [""] {
      SplitJoin(names, ':');
      assert |names| > 1 ==> |Join(names, ":")| > 0;
    }
  }

  // ----- printing step by step -----

  /** `preloader_dropin` */
  method PrintPreloader(c: CompGlobals, binPath: string) returns (r: Option<string>)
    ensures r == PreloaderDropin(c, binPath)
  {
    var extra := "";
    if NonEmpty(c.name) || NonEmpty(c.description) {
      extra := extra + (DESCRIPTION + PRELOADER_FOR + DescSubstring(c) + "\n");
    }
    assert extra == Description(PRELOADER_FOR, c);
    var args: seq<string> := [];
    if c.exclusive {
      args := args + ["-eD"];
      args := args + [Join(c.cliDesktopNames, ":")];
    } else if c.desktopNames != [c.binName] {
      args := args + ["-D"];
      args := args + [Join(c.desktopNames, ":")];
    }
    assert args == NameArgs(c);
    var absolute := FirstIsAbsolute(c);
    if args != [] || absolute {
      args := args + ["--"];
      args := args + ["%I"];
      assert args == NameArgs(c) + ["--", "%I"];
      if absolute {
        args := args + [c.cmdline[0]];
      } else {
        assert args + [] == args;
      }
      extra := extra + ExecOverride([binPath, "aux", "prepare-env"] + args);
    }
    assert extra + "" == extra;
    return if extra == "" then None else Some(Header(c.id) + extra);
  }

  /** `service_dropin` */
  method PrintService(c: CompGlobals, binPath: string) returns (r: Option<string>)
    ensures r == ServiceDropin(c, binPath)
  {
    var extra := "";
    if NonEmpty(c.name) || NonEmpty(c.description) {
      extra := extra + (DESCRIPTION + SERVICE_FOR + DescSubstring(c) + "\n");
    }
    assert extra == Description(SERVICE_FOR, c);
    var svc: seq<string> := [];
    if FirstIsAbsolute(c) {
      svc := svc + c.cmdline;
    } else if |c.cmdline| > 1 {
      svc := svc + [""];
      svc := svc + c.cmdline[1..];
      assert svc == [""] + c.cmdline[1..];
    }
    assert svc == ServiceArgs(c);
    if svc != [] {
      extra := extra + ExecOverride([binPath, "aux", "exec", "--", "%I"] + svc);
    }
    assert extra + "" == extra;
    return if extra == "" then None else Some(Header(c.id) + extra);
  }

  /** What the description names: the entry's name, or else the binary, and the entry's description behind a comma. */
  lemma TitleMeaning(c: CompGlobals)
    ensures var named := if c.name.Some? && c.name.value != "" then c.name.value else c.binName;
            if c.description.Some? && c.description.value != ""
            then DescSubstring(c) == named + ", " + c.description.value
            else DescSubstring(c) == named
  {
    var named := if NonEmpty(c.name) then c.name.value else c.binName;
    if NonEmpty(c.description) {
      ConcatAssociates(named, ", ", c.description.value);
    } else {
      assert named + "" == named;
    }
  }

  lemma DropinTextIff(c: CompGlobals, what: string, argv: Option<seq<string>>)
    ensures DropinText(c, what, argv).None? <==> !Described(c) && argv.None?
  {
    assert |DESCRIPTION| > 0 && |EXEC_RESET| > 0;
  }

  /** A drop-in is printed exactly if there is something to say: a name or a description, for the preloader also desktop
      names that are not just the binary name or an absolute executable, for the service also an absolute executable or
      arguments. */
  lemma DropinsNeededIff(c: CompGlobals, binPath: string)
    ensures PreloaderDropin(c, binPath).Some?
            <==> NonEmpty(c.name) || NonEmpty(c.description) || c.exclusive || c.desktopNames != [c.binName] || FirstIsAbsolute(c)
    ensures ServiceDropin(c, binPath).Some?
            <==> NonEmpty(c.name) || NonEmpty(c.description) || FirstIsAbsolute(c) || |c.cmdline| > 1
  {
    DropinTextIff(c, PRELOADER_FOR, PreloaderArgv(c, binPath));
    DropinTextIff(c, SERVICE_FOR, ServiceArgv(c, binPath));
  }

  /** The printed command of the preloader: exclusive names with `-eD`, others with `-D` unless they are just the binary
      name, then the instance, and the executable if it is absolute. */
  lemma PreloaderCommand(c: CompGlobals, binPath: string, rest: seq<string>)
    requires rest == if FirstIsAbsolute(c) then [c.cmdline[0]] else []
    ensures c.exclusive ==>
              PreloaderArgv(c, binPath)
              == Some([binPath, "aux", "prepare-env", "-eD", Join(c.cliDesktopNames, ":"), "--", "%I"] + rest)
    ensures !c.exclusive && c.desktopNames != [c.binName] ==>
              PreloaderArgv(c, binPath)
              == Some([binPath, "aux", "prepare-env", "-D", Join(c.desktopNames, ":"), "--", "%I"] + rest)
    ensures !c.exclusive && c.desktopNames == [c.binName] && rest != [] ==>
              PreloaderArgv(c, binPath) == Some([binPath, "aux", "prepare-env", "--", "%I"] + rest)
  {
    var head, tail := [binPath, "aux", "prepare-env"], ["--", "%I"];
    assert rest == HardcodedArg(c);
    CommandWords(head, NameArgs(c), tail, rest);
    if c.exclusive {
      assert head + ["-eD", Join(c.cliDesktopNames, ":")] + tail
             == [binPath, "aux", "prepare-env", "-eD", Join(c.cliDesktopNames, ":"), "--", "%I"];
    } else if c.desktopNames != [c.binName] {
      assert head + ["-D", Join(c.desktopNames, ":")] + tail
             == [binPath, "aux", "prepare-env", "-D", Join(c.desktopNames, ":"), "--", "%I"];
    } else {
      assert head + [] + tail == [binPath, "aux", "prepare-env", "--", "%I"];
    }
  }

  lemma CommandWords(head: seq<string>, names: seq<string>, tail: seq<string>, rest: seq<string>)
    ensures head + (names + tail + rest) == (head + names + tail) + rest
  {
  }

  // ----- the round trip -----

  /** `c` is what `start` generates units for: resolved from an executable, possibly hardcoded (`-F`) to the absolute
      path of a binary of that name. */
  ghost predicate StartedAs(input: ResolveInput, c: CompGlobals) {
    && Resolve(input).Resolved?
    && c.cmdline != []
    && var base := Resolve(input).comp;
       || c == base
       || (c == base.(cmdline := base.cmdline[0 := c.cmdline[0]])
           && HasPrefix(c.cmdline[0], "/") && FileBasename(c.cmdline[0]) == base.id && !IsEntryArg(c.cmdline[0]))
  }

  lemma EntrySuffix(p: string, b: string)
    requires HasSuffix(p, b) && IsEntryArg(b)
    ensures IsEntryArg(p)
  {
    var k := |p| - |b|;
    assert p[k..] == b;
    if HasSuffix(b, ".desktop") {
      assert p[|p| - |".desktop"|..] == b[|b| - |".desktop"|..];
    } else {
      var i :| 0 <= i <= |b| && ".desktop:" <= b[i..];
      assert p[k + i..] == b[i..];
    }
  }

  lemma WmIdIsPlain(id: string)
    requires IsWmId(id)
    ensures IsPlain(id)
  {
  }

  lemma StartedFacts(input: ResolveInput, c: CompGlobals)
    requires StartedAs(input, c)
    ensures c.id == c.binName == FileBasename(c.cmdline[0]) && IsWmId(c.id) && c.idUnit == Escaped(c.id, false)
    ensures !IsEntryArg(c.cmdline[0])
    ensures c.desktopNames == DesktopNames(input.xdg, input.desktopNames, input.exclusive, c.id)
    ensures c.exclusive == input.exclusive && c.cliDesktopNames == input.desktopNames
  {
  }

  lemma StartedId(input: ResolveInput, c: CompGlobals)
    requires StartedAs(input, c)
    ensures !IsEntryArg(c.id) && FileBasename(c.id) == c.id && IsPlain(c.id) && c.id != ""
  {
    StartedFacts(input, c);
    BasenameFacts(c.cmdline[0]);
    BasenameFacts(c.id);
    if IsEntryArg(c.id) {
      EntrySuffix(c.cmdline[0], c.id);
    }
    WmIdIsPlain(c.id);
  }

  /** What `aux` makes of the id and the raw command line. */
  function AuxCmdline(id: string, svc: seq<string>): seq<string> {
    if svc == [] then [id] else if svc[0] == "" then svc[0 := id] else svc
  }

  lemma ParsesService(binPath: string, id: string, svc: seq<string>)
    ensures ParseAux([binPath, "aux", "exec", "--"] + [id] + svc, "exec") == Some(AuxArgs(None, false, id, svc))
  {
    var argv := [binPath, "aux", "exec", "--"] + [id] + svc;
    assert argv[3..][2..] == svc;
    assert "--"[1] != "-D"[1] && |"-eD"| == 3 && |"--"| == 2;
  }

  lemma RawCmdline(c: CompGlobals, id: string)
    requires c.cmdline != [] && id != ""
    ensures AuxCmdline(id, ServiceArgs(c)) == if FirstIsAbsolute(c) then c.cmdline else [id] + c.cmdline[1..]
    ensures !FirstIsAbsolute(c) ==> (AuxCmdline(id, ServiceArgs(c)) == c.cmdline <==> c.cmdline[0] == id)
  {
    var svc := ServiceArgs(c);
    if FirstIsAbsolute(c) {
      assert c.cmdline[0][0] == '/';
    } else {
      if |c.cmdline| > 1 {
        assert svc[0 := id] == [id] + c.cmdline[1..];
      } else {
        assert [id] + c.cmdline[1..] == [id];
      }
      assert c.cmdline == [c.cmdline[0]] + c.cmdline[1..];
      assert ([id] + c.cmdline[1..])[0] == id;
    }
  }

  lemma ServiceCmdline(input: ResolveInput, c: CompGlobals)
    requires StartedAs(input, c)
    ensures var cmdline := AuxCmdline(c.id, ServiceArgs(c));
            && cmdline != [] && !IsEntryArg(cmdline[0]) && FileBasename(cmdline[0]) == c.id
            && (cmdline == c.cmdline <==> FirstIsAbsolute(c) || '/' !in c.cmdline[0])
  {
    StartedFacts(input, c);
    StartedId(input, c);
    BasenameFacts(c.cmdline[0]);
    RawCmdline(c, c.id);
  }

  lemma ResolvedId(cmdline: seq<string>, names: seq<string>, exclusive: bool, xdg: seq<string>, id: string)
    requires cmdline != [] && !IsEntryArg(cmdline[0]) && FileBasename(cmdline[0]) == id && IsWmId(id)
    ensures var r := Resolve(ResolveInput(cmdline, names, exclusive, None, None, xdg));
            && r.Resolved? && r.comp.cmdline == cmdline
            && r.comp.id == id && r.comp.binName == id && r.comp.idUnit == Escaped(id, false)
            && r.comp.desktopNames == DesktopNames(xdg, names, exclusive, id)
  {
  }

  /** The printed names reach the option parser as the value of their option. */
  predicate NamesAccepted(c: CompGlobals) {
    NameArgs(c) == [] || !LooksLikeOption(NameArgs(c)[1])
  }

  lemma ParsesPreloader(binPath: string, c: CompGlobals, rest: seq<string>)
    ensures ParseAux([binPath, "aux", "prepare-env"] + NameArgs(c) + ["--"] + [c.id] + rest, "prepare-env")
            == if NamesAccepted(c)
               then Some(AuxArgs(if NameArgs(c) == [] then None else Some(NameArgs(c)[1]), c.exclusive, c.id, rest))
               else None
  {
    var argv := [binPath, "aux", "prepare-env"] + NameArgs(c) + ["--"] + [c.id] + rest;
    assert "--"[1] != "-D"[1] && |"-eD"| == 3 && |"--"| == 2 && |"-D"| == 2;
    if NameArgs(c) == [] {
      assert argv[3..][2..] == rest;
    } else {
      assert argv[5..][2..] == rest;
    }
  }

  /** The desktop names `aux prepare-env` ends up with. */
  function AuxNames(c: CompGlobals, xdg: seq<string>): seq<string> {
    DesktopNames(xdg, SplitColon(if NameArgs(c) == [] then "" else NameArgs(c)[1]), c.exclusive, c.id)
  }

  lemma NamesComeBack(xdg0: seq<string>, cli: seq<string>, exclusive: bool, c: CompGlobals, xdg: seq<string>)
    requires c.desktopNames == DesktopNames(xdg0, cli, exclusive, c.id) && c.binName == c.id && c.id != ""
    requires c.exclusive == exclusive && c.cliDesktopNames == cli && cli != [""]
    requires forall n | n in xdg0 + cli :: ':' !in n
    requires xdg == [] || xdg == xdg0
    ensures AuxNames(c, xdg) == c.desktopNames <==> exclusive || c.desktopNames != [""] || xdg != []
  {
    var names := c.desktopNames;
    if exclusive {
      SplitColonJoin(cli);
    } else {
      assert [] + names == names;
      if names == [c.id] {
        SameNames(xdg0, cli, c.id, xdg);
      } else {
        DedupOne(c.id);
        DedupFacts(xdg0 + cli);
        SplitColonJoin(names);
        if names == [""] {
          BlankNames(xdg0, cli, c.id, xdg);
        } else {
          DedupIdempotent(xdg0 + cli);
          DedupAbsorbs(xdg0, cli);
        }
      }
    }
  }

  lemma SameNames(xdg0: seq<string>, cli: seq<string>, id: string, xdg: seq<string>)
    requires DesktopNames(xdg0, cli, false, id) == [id] && (xdg == [] || xdg == xdg0)
    ensures DesktopNames(xdg, [], false, id) == [id]
  {
    assert xdg + [] == xdg;
    if xdg != [] {
      OnlyName(xdg0, cli, id);
    } else {
      DedupOne(id);
    }
  }

  lemma BlankNames(xdg0: seq<string>, cli: seq<string>, id: string, xdg: seq<string>)
    requires DesktopNames(xdg0, cli, false, id) == [""] && id != "" && (xdg == [] || xdg == xdg0)
    ensures DesktopNames(xdg, [], false, id) == [""] <==> xdg != []
  {
    assert xdg + [] == xdg;
    if xdg != [] {
      OnlyName(xdg0, cli, "");
    } else {
      DedupOne(id);
    }
  }

  lemma DedupOne(x: string)
    ensures Dedup([x]) == [x]
  {
  }

  /** A list whose prefix-extended deduplication is one name deduplicates to that name itself. */
  lemma OnlyName(a: seq<string>, b: seq<string>, x: string)
    requires a != [] && Dedup(a + b) == [x]
    ensures Dedup(a) == [x]
  {
    DedupFacts(a + b);
    DedupFacts(a);
    var d := Dedup(a);
    assert forall i | 0 <= i < |d| :: d[i] in d && d[i] in a && d[i] in a + b && d[i] in [x];
    SingleName(d, x);
  }

  lemma SingleName(d: seq<string>, x: string)
    requires d != [] && forall i | 0 <= i < |d| :: d[i] == x
    requires |d| >= 2 ==> d[0] != d[1]
    ensures d == [x]
  {
  }

  lemma PreloaderCmdline(input: ResolveInput, c: CompGlobals)
    requires StartedAs(input, c)
    ensures var cmdline := AuxCmdline(c.id, HardcodedArg(c));
            cmdline != [] && !IsEntryArg(cmdline[0]) && FileBasename(cmdline[0]) == c.id
  {
    StartedFacts(input, c);
    StartedId(input, c);
  }
}
