/** Terminal preferences and the not-terminals cache of `terminal.rs`. */
module Terminal {
  import opened Wrappers
  import opened VarNames
  import opened Strings
  import opened ExecField

  // ----- preference lists -----

  type EntryRef = (string, Option<string>)

  predicate IsActionId(s: string) {
    s != "" && forall i | 0 <= i < |s| :: IsAsciiAlphanumeric(s[i]) || s[i] == '-'
  }

  predicate IsEntryId(s: string) {
    && HasSuffix(s, ".desktop")
    && (IsAsciiAlphanumeric(s[0]) || s[0] == '_')
    && forall i | 0 <= i < |s| :: IsAsciiAlphanumeric(s[i]) || s[i] == '_' || s[i] == '.' || s[i] == '-'
  }

  predicate LooksLikeEntry(s: string) {
    HasSuffix(s, ".desktop") || exists i | 0 <= i <= |s| :: ".desktop:" <= s[i..]
  }

  /** `parse_entry_ref`: an entry id with an optional action; a path is not accepted. */
  function ParseEntryRef(s: string): Option<EntryRef> {
    if !LooksLikeEntry(s) then None
    else
      var (id, action) :=
        match SplitOnce(s, ':')
        case Some((id, action)) => (id, action)
        case None => (s, "");
      if (action != "" && !IsActionId(action)) || !IsEntryId(id) then None
      else Some((id, if action == "" then None else Some(action)))
  }

  /** What one line of a list says. */
  datatype Mark = Prefer(entry: EntryRef) | Exclude(id: string) | Protect(id: string) | Nothing

  function MarkOfLine(raw: string): Mark {
    var line := Trim(raw);
    if line == "" || line[0] == '#' then Nothing
    else if line[0] == '-' then
      match ParseEntryRef(line[1..])
      case Some((id, None)) => Exclude(id)
      case _ => Nothing
    else if line[0] == '+' then
      match ParseEntryRef(line[1..])
      case Some((id, None)) => Protect(id)
      case _ => Nothing
    else
      match ParseEntryRef(line)
      case Some(entry) => Prefer(entry)
      case None => Nothing
  }

  lemma EntryIdChars(id: string)
    requires IsEntryId(id)
    ensures |id| >= 8 && ':' !in id && id[0] !in {'#', '-', '+'}
  {
  }

  /** What an entry reference is, exactly; the action after a colon may be missing. */
  lemma ParseEntryRefIff(s: string, id: string, action: string)
    ensures ParseEntryRef(s) == Some((id, None)) <==> IsEntryId(id) && (s == id || s == id + ":")
    ensures action != "" ==>
              (ParseEntryRef(s) == Some((id, Some(action)))
               <==> IsEntryId(id) && IsActionId(action) && s == id + ":" + action)
  {
    ParsedShape(s);
    if IsEntryId(id) {
      EntryIdChars(id);
      if s == id || s == id + ":" {
        WithoutAction(s, id);
      }
      if s == id + ":" + action && IsActionId(action) {
        WithAction(s, id, action);
      }
    }
  }

  lemma ParsedShape(s: string)
    ensures ParseEntryRef(s).Some? ==>
              var (id, action) := ParseEntryRef(s).value;
              && IsEntryId(id)
              && (action.None? ==> s == id || s == id + ":")
              && (action.Some? ==> IsActionId(action.value) && s == id + ":" + action.value)
  {
    var i := IndexOf(s, ':');
    assert i < |s| ==> s == s[..i] + ":" + s[i + 1..];
  }

  lemma WithoutAction(s: string, id: string)
    requires IsEntryId(id) && ':' !in id && (s == id || s == id + ":")
    ensures ParseEntryRef(s) == Some((id, None))
  {
    if s == id {
      IndexOfAbsent(id, ':');
    } else {
      assert s == id + ":" + "";
      WithAction(s, id, "");
    }
  }

  lemma WithAction(s: string, id: string, action: string)
    requires IsEntryId(id) && ':' !in id && s == id + ":" + action && (action == "" || IsActionId(action))
    ensures ParseEntryRef(s) == Some((id, if action == "" then None else Some(action)))
  {
    assert ":" == [':'];
    SplitOnceAppend(id, ':', action);
    var i, suffix := |id| - 8, ".desktop";
    assert suffix + ":" == ".desktop:" && |suffix| == 8;
    assert s[i..] == id[i..] + ":" + action;
    assert ".desktop:" <= s[i..];
  }

  /** Which lines, without the blanks around them, prefer, exclude or protect an entry: the bare reference, and the id after
      a minus or a plus sign; only a preference can have an action. Every other line says nothing. */
  lemma LineMeaning(raw: string, id: string, action: string)
    ensures MarkOfLine(raw) == Exclude(id) <==> IsEntryId(id) && (Trim(raw) == "-" + id || Trim(raw) == "-" + (id + ":"))
    ensures MarkOfLine(raw) == Protect(id) <==> IsEntryId(id) && (Trim(raw) == "+" + id || Trim(raw) == "+" + (id + ":"))
    ensures MarkOfLine(raw) == Prefer((id, None)) <==> IsEntryId(id) && (Trim(raw) == id || Trim(raw) == id + ":")
    ensures action != "" ==>
              (MarkOfLine(raw) == Prefer((id, Some(action)))
               <==> IsEntryId(id) && IsActionId(action) && Trim(raw) == id + ":" + action)
  {
    var line := Trim(raw);
    MarkForms(raw, id, action);
    Signed(line, '-', id);
    Signed(line, '+', id);
    Signed(line, '-', id + ":");
    Signed(line, '+', id + ":");
    ParseEntryRefIff(line, id, action);
    if line != "" {
      ParseEntryRefIff(line[1..], id, action);
    }
    if IsEntryId(id) {
      EntryIdChars(id);
      assert (id + ":")[0] == id[0] && (id + ":" + action)[0] == id[0];
    }
  }

  predicate IsSigned(line: string, sign: char, rest: string) {
    line != "" && line[0] == sign && line[1..] == rest
  }

  lemma Signed(line: string, sign: char, rest: string)
    ensures IsSigned(line, sign, rest) <==> line == [sign] + rest
  {
    if line == [sign] + rest {
      assert line[0] == sign;
    }
  }

  lemma MarkForms(raw: string, id: string, action: string)
    ensures var line := Trim(raw);
            && (MarkOfLine(raw) == Exclude(id) <==> line != "" && line[0] == '-' && ParseEntryRef(line[1..]) == Some((id, None)))
            && (MarkOfLine(raw) == Protect(id) <==> line != "" && line[0] == '+' && ParseEntryRef(line[1..]) == Some((id, None)))
            && (forall a :: MarkOfLine(raw) == Prefer((id, a))
                  <==> line != "" && line[0] !in {'#', '-', '+'} && ParseEntryRef(line) == Some((id, a)))
  {
  }

  datatype Preferences = Preferences(preferred: seq<EntryRef>, excluded: set<string>, protected: set<string>)

  function WithMark(p: Preferences, m: Mark): Preferences {
    match m
    case Prefer(entry) => if entry in p.preferred then p else p.(preferred := p.preferred + [entry])
    case Exclude(id) => if id in p.protected then p else p.(excluded := p.excluded + {id})
    case Protect(id) => p.(protected := p.protected + {id}, excluded := p.excluded - {id})
    case Nothing => p
  }

  function WithMarks(p: Preferences, marks: seq<Mark>): Preferences
    decreases |marks|
  {
    if marks == [] then p else WithMark(WithMarks(p, marks[..|marks| - 1]), marks[|marks| - 1])
  }

  function MarksOf(lines: seq<string>): seq<Mark> {
    seq(|lines|, i requires 0 <= i < |lines| => MarkOfLine(lines[i]))
  }

  /** `parse_terminal_list` */
  method ParseTerminalList(content: string, p: Preferences) returns (r: Preferences)
    ensures r == WithMarks(p, MarksOf(Lines(content)))
  {
    r := p;
    var lines := Lines(content);
    ghost var marks := MarksOf(lines);
    for i := 0 to |lines|
      invariant r == WithMarks(p, marks[..i])
    {
      assert marks[..i + 1][..i] == marks[..i] && marks[i] == MarkOfLine(lines[i]);
      var line := Trim(lines[i]);
      if line == "" || line[0] == '#' {
        continue;
      }
      var sign, rest := ' ', line;
      if line[0] == '-' || line[0] == '+' {
        sign, rest := line[0], line[1..];
      }
      var entry := ParseEntryRef(rest);
      if entry.None? {
        continue;
      }
      var (id, action) := entry.value;
      if sign == ' ' {
        if (id, action) !in r.preferred {
          r := r.(preferred := r.preferred + [(id, action)]);
        }
      } else if sign == '-' {
        if action.None? && id !in r.protected {
          r := r.(excluded := r.excluded + {id});
        }
      } else if action.None? {
        r := r.(protected := r.protected + {id}, excluded := r.excluded - {id});
      }
    }
    assert marks[..|marks|] == marks;
  }

  function AllMarks(files: seq<string>): seq<Mark>
    decreases |files|
  {
    if files == [] then [] else AllMarks(files[..|files| - 1]) + MarksOf(Lines(files[|files| - 1]))
  }

  const NO_PREFERENCES := Preferences([], {}, {})

  /** The file loop of `read_terminal_lists`. */
  method ReadTerminalLists(files: seq<string>) returns (r: Preferences)
    ensures r == WithMarks(NO_PREFERENCES, AllMarks(files))
  {
    r := NO_PREFERENCES;
    for i := 0 to |files|
      invariant r == WithMarks(NO_PREFERENCES, AllMarks(files[..i]))
    {
      assert files[..i + 1][..i] == files[..i];
      WithMarksConcat(NO_PREFERENCES, AllMarks(files[..i]), MarksOf(Lines(files[i])));
      r := ParseTerminalList(files[i], r);
    }
    assert files[..|files|] == files;
  }

  lemma {:induction false} WithMarksConcat(p: Preferences, a: seq<Mark>, b: seq<Mark>)
    ensures WithMarks(p, a + b) == WithMarks(WithMarks(p, a), b)
    decreases |b|
  {
    if b == [] {
      assert a + b == a;
    } else {
      assert (a + b)[..|a + b| - 1] == a + b[..|b| - 1];
      WithMarksConcat(p, a, b[..|b| - 1]);
    }
  }

  /** The bare entries in order, each once. */
  function Preferred(marks: seq<Mark>): seq<EntryRef>
    decreases |marks|
  {
    if marks == [] then []
    else
      var init, last := Preferred(marks[..|marks| - 1]), marks[|marks| - 1];
      if last.Prefer? && last !in marks[..|marks| - 1] then init + [last.entry] else init
  }

  lemma {:induction false} PreferredMembers(marks: seq<Mark>, e: EntryRef)
    ensures e in Preferred(marks) <==> Prefer(e) in marks
    decreases |marks|
  {
    if marks != [] {
      PreferredMembers(marks[..|marks| - 1], e);
      assert marks == marks[..|marks| - 1] + [marks[|marks| - 1]];
    }
  }

  /** After any files, an id is excluded exactly if some line excludes it and no line protects it, wherever those
      lines stand; the preference list is the bare lines in order without repetitions. */
  lemma {:induction false} PreferencesMeaning(marks: seq<Mark>)
    ensures var p := WithMarks(NO_PREFERENCES, marks);
            && (forall id :: id in p.excluded <==> Exclude(id) in marks && Protect(id) !in marks)
            && (forall id :: id in p.protected <==> Protect(id) in marks)
            && p.preferred == Preferred(marks)
    decreases |marks|
  {
    if marks != [] {
      var init, last := marks[..|marks| - 1], marks[|marks| - 1];
      PreferencesMeaning(init);
      assert marks == init + [last];
      if last.Prefer? {
        PreferredMembers(init, last.entry);
      }
    }
  }

  /** The excluded ids depend only on which lines there are, not on their order. */
  lemma ExclusionIgnoresOrder(a: seq<Mark>, b: seq<Mark>)
    requires forall m :: m in a <==> m in b
    ensures WithMarks(NO_PREFERENCES, a).excluded == WithMarks(NO_PREFERENCES, b).excluded
  {
    PreferencesMeaning(a);
    PreferencesMeaning(b);
  }

  // ----- scanning with the not-terminals cache -----

  /** What reading and parsing a file gives; `valid` stands for the checks on a parsed entry. */
  datatype Doc = Unreadable | Malformed | Desktop(terminal: bool, valid: bool, body: string)

  datatype Stored = Stored(mtime: nat, doc: Doc)

  type Disk = map<string, Stored>

  type Cache = map<string, nat>

  function Mtime(disk: Disk, path: string): nat {
    if path in disk then disk[path].mtime else 0
  }

  function Read(disk: Disk, path: string): Doc {
    if path in disk then disk[path].doc else Unreadable
  }

  predicate IsHit(d: Doc) {
    d.Desktop? && d.terminal && d.valid
  }

  /** The scan without any cache: the first valid terminal that is not excluded. */
  function PlainScan(listing: seq<(string, string)>, excluded: set<string>, disk: Disk): Option<Doc>
    decreases |listing|
  {
    if listing == [] then None
    else
      var (id, path) := listing[0];
      if id !in excluded && IsHit(Read(disk, path)) then Some(Read(disk, path))
      else PlainScan(listing[1..], excluded, disk)
  }

  predicate IsValidTerminal(entry: (string, string), excluded: set<string>, disk: Disk) {
    && entry.0 !in excluded && entry.1 in disk
    && disk[entry.1].doc.Desktop? && disk[entry.1].doc.terminal && disk[entry.1].doc.valid
  }

  /** The result is the first listed entry that is not excluded, can be read and parsed, is a terminal and is valid; there
      is none exactly if no listed entry is all that. */
  lemma {:induction false} PlainScanMeaning(listing: seq<(string, string)>, excluded: set<string>, disk: Disk)
    ensures PlainScan(listing, excluded, disk).Some? <==>
              exists i :: 0 <= i < |listing| && IsValidTerminal(listing[i], excluded, disk)
    ensures forall i | 0 <= i < |listing| && IsValidTerminal(listing[i], excluded, disk)
                       && (forall j | 0 <= j < i :: !IsValidTerminal(listing[j], excluded, disk)) ::
              PlainScan(listing, excluded, disk) == Some(disk[listing[i].1].doc)
    decreases |listing|
  {
    if listing != [] {
      var rest := listing[1..];
      PlainScanMeaning(rest, excluded, disk);
      assert forall i | 0 < i < |listing| :: listing[i] == rest[i - 1];
      assert forall i | 0 <= i < |rest| :: rest[i] == listing[i + 1];
    }
  }

  /** A matching cache entry always denotes a non-terminal. */
  ghost predicate Sound(cache: Cache, disk: Disk) {
    forall p | p in cache && p in disk && cache[p] == disk[p].mtime :: !(disk[p].doc.Desktop? && disk[p].doc.terminal)
  }

  /** An entry of which a scan can learn that it is no terminal. */
  predicate IsKnowable(entry: (string, string), excluded: set<string>, disk: Disk) {
    entry.0 !in excluded && entry.1 in disk && disk[entry.1].doc.Desktop? && !disk[entry.1].doc.terminal
  }

  predicate Known(cache: Cache, path: string, disk: Disk)
    requires path in disk
  {
    path in cache && cache[path] == disk[path].mtime
  }

  /** `scan_for_terminal` between loading and saving the cache. */
  method Scan(listing: seq<(string, string)>, excluded: set<string>, cache: Cache, disk: Disk)
    returns (found: Option<Doc>, cache': Cache, changed: bool)
    requires Sound(cache, disk)
    ensures found == PlainScan(listing, excluded, disk)
    ensures Sound(cache', disk)
    ensures !changed ==> cache' == cache
    ensures found.None? ==> forall e | e in listing && IsKnowable(e, excluded, disk) :: Known(cache', e.1, disk)
    ensures forall p | p in cache' ::
              (p in cache && cache'[p] == cache[p])
              || ((exists i :: 0 <= i < |listing| && listing[i].1 == p)
                  && p in disk && cache'[p] == disk[p].mtime && disk[p].doc.Desktop? && !disk[p].doc.terminal)
  {
    cache', changed, found := cache, false, None;
    for i := 0 to |listing|
      invariant PlainScan(listing, excluded, disk) == PlainScan(listing[i..], excluded, disk)
      invariant Sound(cache', disk) && (!changed ==> cache' == cache)
      invariant forall j | 0 <= j < i && IsKnowable(listing[j], excluded, disk) :: Known(cache', listing[j].1, disk)
      invariant forall p | p in cache' ::
                  (p in cache && cache'[p] == cache[p])
                  || ((exists j :: 0 <= j < |listing| && listing[j].1 == p)
                      && p in disk && cache'[p] == disk[p].mtime && disk[p].doc.Desktop? && !disk[p].doc.terminal)
    {
      assert listing[i..][1..] == listing[i + 1..];
      var (id, path) := listing[i];
      if id in excluded {
        continue;
      }
      var mtime := Mtime(disk, path);
      if path in cache' && cache'[path] == mtime {
        continue;
      }
      match Read(disk, path) {
        case Unreadable => continue;
        case Malformed => continue;
        case Desktop(terminal, valid, body) =>
          if terminal && valid {
            return Some(Desktop(terminal, valid, body)), cache', changed;
          }
          if !terminal {
            cache' := cache'[path := mtime];
            changed := true;
          }
      }
    }
  }

  // ----- the cache file -----

  function Decimal(n: nat): (s: string)
    ensures s != "" && forall i | 0 <= i < |s| :: '0' <= s[i] <= '9'
  {
    var d := '0' + (n % 10) as char;
    if n < 10 then [d] else Decimal(n / 10) + [d]
  }

  function DecimalValue(s: string): Option<nat> {
    if s == "" then Some(0)
    else
      match (DecimalValue(s[..|s| - 1]), DecimalDigit(s[|s| - 1]))
      case (Some(high), Some(low)) => Some(10 * high + low)
      case _ => None
  }

  const U64_LIMIT: nat := 0x1_0000_0000_0000_0000

  /** `str::parse::<u64>` */
  function ParseU64(s: string): Option<nat> {
    var digits := if s != "" && s[0] == '+' then s[1..] else s;
    if digits == "" then None
    else
      match DecimalValue(digits)
      case Some(v) => if v < U64_LIMIT then Some(v) else None
      case None => None
  }

  lemma {:induction false} DecimalRoundTrip(n: nat)
    ensures DecimalValue(Decimal(n)) == Some(n)
  {
    var s := Decimal(n);
    if n >= 10 {
      DecimalRoundTrip(n / 10);
      assert s[..|s| - 1] == Decimal(n / 10);
    } else {
      assert s[..0] == "";
    }
  }

  function CacheOf(listing: seq<(string, nat)>): Cache
    decreases |listing|
  {
    if listing == [] then map[]
    else
      var last := listing[|listing| - 1];
      CacheOf(listing[..|listing| - 1])[last.0 := last.1]
  }

  function CacheLines(listing: seq<(string, nat)>): seq<string>
    decreases |listing|
  {
    if listing == [] then []
    else
      var last := listing[|listing| - 1];
      CacheLines(listing[..|listing| - 1])
      + if '\n' in last.0 then [] else [Decimal(last.1) + " " + last.0]
  }

  function Terminated(lines: seq<string>): string
    decreases |lines|
  {
    if lines == [] then "" else Terminated(lines[..|lines| - 1]) + (lines[|lines| - 1] + "\n")
  }

  /** `save_not_terminals`: a path with a newline is not written. */
  method SaveNotTerminals(listing: seq<(string, nat)>) returns (text: string)
    ensures text == Terminated(CacheLines(listing))
  {
    text := "";
    for i := 0 to |listing|
      invariant text == Terminated(CacheLines(listing[..i]))
    {
      assert listing[..i + 1][..i] == listing[..i];
      ghost var before := CacheLines(listing[..i]);
      var (path, mtime) := listing[i];
      if '\n' in path {
        assert before + [] == before;
        continue;
      }
      var line := Decimal(mtime) + " " + path;
      assert (before + [line])[..|before|] == before;
      text := text + (line + "\n");
    }
    assert listing[..|listing|] == listing;
  }

  function WithCacheLine(cache: Cache, line: string): Cache {
    match SplitOnce(line, ' ')
    case None => cache
    case Some((mtime, path)) =>
      match ParseU64(mtime)
      case Some(mt) => cache[path := mt]
      case None => cache
  }

  function LoadedFrom(lines: seq<string>): Cache
    decreases |lines|
  {
    if lines == [] then map[] else WithCacheLine(LoadedFrom(lines[..|lines| - 1]), lines[|lines| - 1])
  }

  /** `load_not_terminals` */
  method LoadNotTerminals(text: string) returns (cache: Cache)
    ensures cache == LoadedFrom(Lines(text))
  {
    cache := map[];
    var lines := Lines(text);
    for i := 0 to |lines|
      invariant cache == LoadedFrom(lines[..i])
    {
      assert lines[..i + 1][..i] == lines[..i];
      match SplitOnce(lines[i], ' ') {
        case None =>
        case Some((mtime, path)) =>
          var mt := ParseU64(mtime);
          if mt.Some? {
            cache := cache[path := mt.value];
          }
      }
    }
    assert lines[..|lines|] == lines;
  }

  /** A line that records that `path`, last changed at `mtime`, is no terminal. */
  ghost predicate Records(line: string, path: string, mtime: nat) {
    exists digits :: line == digits + " " + path && ' ' !in digits && ParseU64(digits) == Some(mtime)
  }

  lemma WithCacheLineMeaning(cache: Cache, line: string, path: string)
    ensures forall m: nat | Records(line, path, m) :: WithCacheLine(cache, line) == cache[path := m]
    ensures (forall m: nat :: !Records(line, path, m)) ==>
              (path in WithCacheLine(cache, line) <==> path in cache)
              && (path in cache ==> WithCacheLine(cache, line)[path] == cache[path])
  {
    assert " " == [' '];
    forall m: nat | Records(line, path, m)
      ensures WithCacheLine(cache, line) == cache[path := m]
    {
      var digits :| line == digits + " " + path && ' ' !in digits && ParseU64(digits) == Some(m);
      SplitOnceAppend(digits, ' ', path);
    }
    var i := IndexOf(line, ' ');
    if i < |line| {
      assert line == line[..i] + " " + line[i + 1..];
      assert ParseU64(line[..i]).Some? ==> Records(line, line[i + 1..], ParseU64(line[..i]).value);
    }
  }

  /** A path is in the cache exactly if some line records it, with the time of the last such line; other lines count for
      nothing. */
  lemma {:induction false} LoadedMeaning(lines: seq<string>, path: string)
    ensures path in LoadedFrom(lines) <==> exists i, m: nat :: 0 <= i < |lines| && Records(lines[i], path, m)
    ensures forall i, m: nat | 0 <= i < |lines| && Records(lines[i], path, m)
                               && (forall j, m': nat | i < j < |lines| :: !Records(lines[j], path, m')) ::
              path in LoadedFrom(lines) && LoadedFrom(lines)[path] == m
    decreases |lines|
  {
    if lines != [] {
      var init, last := lines[..|lines| - 1], lines[|lines| - 1];
      LoadedMeaning(init, path);
      WithCacheLineMeaning(LoadedFrom(init), last, path);
      assert forall i | 0 <= i < |init| :: init[i] == lines[i];
    }
  }

  lemma {:induction false} LinesTerminated(lines: seq<string>)
    requires forall l | l in lines :: LineSafe(l)
    ensures Lines(Terminated(lines)) == lines
    ensures lines != [] ==> var t := Terminated(lines); t != "" && t[|t| - 1] == '\n'
    decreases |lines|
  {
    if lines != [] {
      var init, last := lines[..|lines| - 1], lines[|lines| - 1];
      assert forall l | l in init :: l in lines;
      LinesTerminated(init);
      assert last in lines;
      OneMoreLine(Terminated(init), last);
      assert lines == init + [last];
    }
  }

  lemma OneMoreLine(text: string, line: string)
    requires LineSafe(line) && (text != "" ==> text[|text| - 1] == '\n')
    ensures Lines(text + (line + "\n")) == Lines(text) + [line]
  {
    LinesConcat(text, line + "\n");
    OneLineOnly(line);
  }

  lemma OneLineOnly(line: string)
    requires LineSafe(line)
    ensures Lines(line + "\n") == [line]
  {
    LinesAppend(line, "");
    assert line + "\n" + "" == line + "\n";
    assert [line] + [] == [line];
  }

  lemma CacheLineRoundTrip(cache: Cache, path: string, mtime: nat)
    requires mtime < U64_LIMIT
    ensures WithCacheLine(cache, Decimal(mtime) + " " + path) == cache[path := mtime]
  {
    var d := Decimal(mtime);
    assert d + " " + path == d + [' '] + path;
    assert forall c | c in d :: '0' <= c <= '9';
    SplitOnceAppend(d, ' ', path);
    DecimalRoundTrip(mtime);
    assert d[0] != '+';
  }

  function OneLinePaths(cache: Cache): Cache {
    map p | p in cache && '\n' !in p :: cache[p]
  }

  lemma CacheLineIsSafe(path: string, mtime: nat)
    requires '\n' !in path && HasSuffix(path, ".desktop")
    ensures LineSafe(Decimal(mtime) + " " + path)
  {
    var d := Decimal(mtime);
    var line := d + " " + path;
    assert path[|path| - 1] == ".desktop"[7];
    assert '\n' !in " " && '\n' !in d;
    assert line[|line| - 1] == path[|path| - 1];
  }

  lemma {:induction false} CacheLinesAreSafe(listing: seq<(string, nat)>)
    requires forall e | e in listing :: HasSuffix(e.0, ".desktop")
    ensures forall l | l in CacheLines(listing) :: LineSafe(l)
    decreases |listing|
  {
    if listing != [] {
      var init, last := listing[..|listing| - 1], listing[|listing| - 1];
      assert last in listing && forall e | e in init :: e in listing;
      CacheLinesAreSafe(init);
      if '\n' !in last.0 {
        CacheLineIsSafe(last.0, last.1);
      }
    }
  }

  lemma OneLinePathsStep(cache: Cache, path: string, mtime: nat)
    ensures OneLinePaths(cache[path := mtime])
            == if '\n' in path then OneLinePaths(cache) else OneLinePaths(cache)[path := mtime]
  {
  }

  lemma {:induction false} LoadedLines(listing: seq<(string, nat)>)
    requires forall e | e in listing :: e.1 < U64_LIMIT
    ensures LoadedFrom(CacheLines(listing)) == OneLinePaths(CacheOf(listing))
    decreases |listing|
  {
    if listing == [] {
      assert OneLinePaths(map[]) == map[];
    } else {
      var init, last := listing[..|listing| - 1], listing[|listing| - 1];
      assert last in listing && forall e | e in init :: e in listing;
      LoadedLines(init);
      OneLinePathsStep(CacheOf(init), last.0, last.1);
      var before := CacheLines(init);
      if '\n' in last.0 {
        assert before + [] == before;
      } else {
        var line := Decimal(last.1) + " " + last.0;
        assert (before + [line])[..|before|] == before;
        CacheLineRoundTrip(LoadedFrom(before), last.0, last.1);
      }
    }
  }

  /** Saving and loading loses nothing but the paths that contain a newline, and invents nothing. */
  lemma CacheRoundTrip(listing: seq<(string, nat)>)
    requires forall e | e in listing :: e.1 < U64_LIMIT && HasSuffix(e.0, ".desktop")
    ensures LoadedFrom(Lines(Terminated(CacheLines(listing)))) == OneLinePaths(CacheOf(listing))
  {
    LoadedLines(listing);
    CacheLinesAreSafe(listing);
    LinesTerminated(CacheLines(listing));
  }

  // ----- many scans of a changing disk -----

  /** Which document a path holds at a modification time, for all disks under consideration. */
  type Denotation = map<(string, nat), Doc>

  ghost predicate Consistent(disk: Disk, denotes: Denotation) {
    forall p | p in disk ::
      disk[p].mtime < U64_LIMIT && (p, disk[p].mtime) in denotes && denotes[(p, disk[p].mtime)] == disk[p].doc
  }

  ghost predicate TrueCache(cache: Cache, denotes: Denotation) {
    forall p | p in cache ::
      HasSuffix(p, ".desktop") && cache[p] < U64_LIMIT
      && ((p, cache[p]) in denotes ==> var d := denotes[(p, cache[p])]; !(d.Desktop? && d.terminal))
  }

  function Loaded(file: Option<string>): Cache {
    if file.Some? then LoadedFrom(Lines(file.value)) else map[]
  }

  method ListCache(cache: Cache) returns (listing: seq<(string, nat)>)
    ensures CacheOf(listing) == cache
    ensures forall e | e in listing :: e.0 in cache && e.1 == cache[e.0]
  {
    listing := [];
    var rest := cache.Keys;
    while rest != {}
      invariant rest <= cache.Keys
      invariant CacheOf(listing) == cache - rest
      invariant forall e | e in listing :: e.0 in cache && e.1 == cache[e.0]
      decreases rest
    {
      var p :| p in rest;
      ghost var before := listing;
      listing := listing + [(p, cache[p])];
      assert listing[..|listing| - 1] == before;
      assert (cache - rest)[p := cache[p]] == cache - (rest - {p});
      rest := rest - {p};
    }
    assert cache - {} == cache;
  }

  /** `scan_for_terminal`: load, scan, save when something was learnt. Saving may fail. */
  method ScanForTerminal(listing: seq<(string, string)>, excluded: set<string>, disk: Disk, file: Option<string>,
                         ghost denotes: Denotation)
    returns (found: Option<Doc>, file': Option<string>)
    requires Consistent(disk, denotes) && TrueCache(Loaded(file), denotes)
    requires forall e | e in listing :: HasSuffix(e.1, ".desktop")
    ensures found == PlainScan(listing, excluded, disk)
    ensures TrueCache(Loaded(file'), denotes)
  {
    var cache: Cache := map[];
    if file.Some? {
      cache := LoadNotTerminals(file.value);
    }
    assert cache == Loaded(file);
    var cache', changed;
    found, cache', changed := Scan(listing, excluded, cache, disk);
    LearntIsTrue(listing, cache, cache', disk, denotes);
    file' := file;
    if changed {
      var entries := ListCache(cache');
      var text := SaveNotTerminals(entries);
      CacheRoundTrip(entries);
      if * {
        file' := Some(text);
      }
    }
  }

  lemma LearntIsTrue(listing: seq<(string, string)>, cache: Cache, cache': Cache, disk: Disk, denotes: Denotation)
    requires Consistent(disk, denotes) && TrueCache(cache, denotes)
    requires forall e | e in listing :: HasSuffix(e.1, ".desktop")
    requires forall p | p in cache' ::
               (p in cache && cache'[p] == cache[p])
               || ((exists i :: 0 <= i < |listing| && listing[i].1 == p)
                   && p in disk && cache'[p] == disk[p].mtime && disk[p].doc.Desktop? && !disk[p].doc.terminal)
    ensures TrueCache(cache', denotes)
  {
    assert forall i | 0 <= i < |listing| :: HasSuffix(listing[i].1, ".desktop") by {
      assert forall i | 0 <= i < |listing| :: listing[i] in listing;
    }
  }

  /** Any number of scans, with any edits in between that give changed contents a new modification time, find what
      scans without a cache would find. */
  method ScanMany(listings: seq<seq<(string, string)>>, excluded: set<string>, disks: seq<Disk>, file: Option<string>,
                  ghost denotes: Denotation)
    returns (found: seq<Option<Doc>>)
    requires |listings| == |disks| && TrueCache(Loaded(file), denotes)
    requires forall i | 0 <= i < |disks| :: Consistent(disks[i], denotes)
    requires forall i | 0 <= i < |disks| :: forall e | e in listings[i] :: HasSuffix(e.1, ".desktop")
    ensures |found| == |disks|
    ensures forall i | 0 <= i < |disks| :: found[i] == PlainScan(listings[i], excluded, disks[i])
  {
    found := [];
    var current := file;
    for i := 0 to |disks|
      invariant |found| == i && TrueCache(Loaded(current), denotes)
      invariant forall j | 0 <= j < i :: found[j] == PlainScan(listings[j], excluded, disks[j])
    {
      var one;
      one, current := ScanForTerminal(listings[i], excluded, disks[i], current, denotes);
      found := found + [one];
    }
  }
}
