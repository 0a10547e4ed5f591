/** The on-disk and on-pipe forms of an environment: `files.rs` and `dump.rs`. A map is written in some order, given
    here as a listing of its bindings. */
module EnvFiles {
  import opened Wrappers
  import opened Strings
  import opened VarNames
  import opened Generation

  type Listing = seq<(string, string)>

  function EnvOf(listing: Listing): Env
    decreases |listing|
  {
    if listing == [] then map[]
    else
      var last := listing[|listing| - 1];
      EnvOf(listing[..|listing| - 1])[last.0 := last.1]
  }

  function Chunk(b: (string, string)): string {
    b.0 + "=" + b.1
  }

  function Chunks(listing: Listing): seq<string>
    decreases |listing|
  {
    if listing == [] then []
    else
      var last := listing[|listing| - 1];
      Chunks(listing[..|listing| - 1]) + if KeepName(last.0) then [Chunk(last)] else []
  }

  // ----- serialising -----

  datatype Sep = Nul | Newline

  function SepText(sep: Sep): string {
    if sep == Nul then "\0" else "\n"
  }

  lemma {:induction false} JoinSnoc(parts: seq<string>, last: string, sep: string)
    requires parts != []
    ensures Join(parts + [last], sep) == Join(parts, sep) + sep + last
    decreases |parts|
  {
    var all := parts + [last];
    if |parts| == 1 {
      assert all[1..] == [last];
      assert Join(all[1..], sep) == last;
    } else {
      assert all[1..] == parts[1..] + [last];
      JoinSnoc(parts[1..], last, sep);
    }
  }

  /** `serialize_env` */
  method SerializeEnv(listing: Listing, sep: Sep) returns (out: string)
    ensures var joined := Join(Chunks(listing), SepText(sep));
            out == if sep == Newline && joined != "" then joined + "\n" else joined
  {
    out := "";
    var first := true;
    for i := 0 to |listing|
      invariant out == Join(Chunks(listing[..i]), SepText(sep))
      invariant first <==> Chunks(listing[..i]) == []
    {
      var (k, v) := listing[i];
      assert listing[..i + 1][..i] == listing[..i];
      if !KeepName(k) {
        assert Chunks(listing[..i + 1]) == Chunks(listing[..i]) + [] == Chunks(listing[..i]);
        continue;
      }
      ghost var before := Chunks(listing[..i]);
      assert Chunks(listing[..i + 1]) == before + [Chunk(listing[i])];
      if before == [] {
        assert before + [Chunk(listing[i])] == [Chunk(listing[i])];
      } else {
        JoinSnoc(before, Chunk(listing[i]), SepText(sep));
      }
      if !first {
        out := out + SepText(sep);
      }
      out := out + (k + "=" + v);
      first := false;
    }
    assert listing[..|listing|] == listing;
    if sep == Newline && out != "" {
      out := out + "\n";
    }
  }

  // ----- parsing -----

  function WithChunk(env: Env, chunk: string): Env {
    match SplitOnce(chunk, '=')
    case Some((k, v)) => if KeepName(k) then env[k := v] else env
    case None => env
  }

  function ParsedChunks(env: Env, chunks: seq<string>): Env
    decreases |chunks|
  {
    if chunks == [] then env else WithChunk(ParsedChunks(env, chunks[..|chunks| - 1]), chunks[|chunks| - 1])
  }

  function Parsed(data: string): Env {
    ParsedChunks(map[], Split(data, '\0'))
  }

  /** `parse_env_nul` */
  method ParseEnvNul(data: string) returns (env: Env)
    ensures env == Parsed(data)
  {
    env := map[];
    var chunks := Split(data, '\0');
    for i := 0 to |chunks|
      invariant env == ParsedChunks(map[], chunks[..i])
    {
      assert chunks[..i + 1][..i] == chunks[..i];
      if chunks[i] == "" {
        continue;
      }
      match SplitOnce(chunks[i], '=')
      case None =>
      case Some((k, v)) =>
        if KeepName(k) {
          env := env[k := v];
        }
    }
    assert chunks[..|chunks|] == chunks;
  }

  /** A chunk that binds `k` to `v`: what stands before the first `=` is the name. */
  ghost predicate Binds(chunk: string, k: string, v: string) {
    KeepName(k) && chunk == k + "=" + v
  }

  lemma WithChunkMeaning(env: Env, chunk: string, k: string)
    ensures forall v | Binds(chunk, k, v) :: WithChunk(env, chunk) == env[k := v]
    ensures (forall v :: !Binds(chunk, k, v)) ==>
              (k in WithChunk(env, chunk) <==> k in env) && (k in env ==> WithChunk(env, chunk)[k] == env[k])
  {
    assert "=" == ['='];
    forall v | Binds(chunk, k, v)
      ensures WithChunk(env, chunk) == env[k := v]
    {
      KeptNameIsPlain(k);
      SplitOnceAppend(k, '=', v);
    }
    var i := IndexOf(chunk, '=');
    if i < |chunk| {
      assert chunk == chunk[..i] + "=" + chunk[i + 1..];
      assert KeepName(chunk[..i]) ==> Binds(chunk, chunk[..i], chunk[i + 1..]);
    }
  }

  /** A name is set exactly if some chunk binds it, to the value of the last such chunk; every other chunk is ignored. */
  lemma {:induction false} ParsedMeaning(chunks: seq<string>, k: string)
    ensures k in ParsedChunks(map[], chunks) <==> exists i, v :: 0 <= i < |chunks| && Binds(chunks[i], k, v)
    ensures forall i, v | 0 <= i < |chunks| && Binds(chunks[i], k, v)
                          && (forall j, v' | i < j < |chunks| :: !Binds(chunks[j], k, v')) ::
              k in ParsedChunks(map[], chunks) && ParsedChunks(map[], chunks)[k] == v
    decreases |chunks|
  {
    if chunks != [] {
      var init, last := chunks[..|chunks| - 1], chunks[|chunks| - 1];
      ParsedMeaning(init, k);
      WithChunkMeaning(ParsedChunks(map[], init), last, k);
      assert forall i | 0 <= i < |init| :: init[i] == chunks[i];
    }
  }

  /** A binding that can be written: no NUL anywhere and no `=` in the name. */
  predicate Writable(b: (string, string)) {
    '\0' !in b.0 && '=' !in b.0 && '\0' !in b.1
  }

  lemma ChunkRoundTrip(env: Env, b: (string, string))
    requires '=' !in b.0
    ensures WithChunk(env, Chunk(b)) == if KeepName(b.0) then env[b.0 := b.1] else env
  {
    assert Chunk(b) == b.0 + ['='] + b.1;
    SplitOnceAppend(b.0, '=', b.1);
  }

  lemma KeptNameIsPlain(name: string)
    requires KeepName(name)
    ensures '=' !in name && '\0' !in name && ' ' !in name && '\n' !in name && '\r' !in name
  {
    KeptNameChars(name);
  }

  lemma {:induction false} KeptChunksParse(listing: Listing)
    ensures ParsedChunks(map[], Chunks(listing)) == FilterEnv(EnvOf(listing))
    decreases |listing|
  {
    if listing == [] {
      assert FilterEnv(map[]) == map[];
    } else {
      var init, last := listing[..|listing| - 1], listing[|listing| - 1];
      KeptChunksParse(init);
      if KeepName(last.0) {
        KeptNameIsPlain(last.0);
        assert Chunks(listing)[..|Chunks(listing)| - 1] == Chunks(init);
        ChunkRoundTrip(ParsedChunks(map[], Chunks(init)), last);
      } else {
        assert Chunks(listing) == Chunks(init) + [] == Chunks(init);
      }
      assert FilterEnv(EnvOf(init)[last.0 := last.1])
             == if KeepName(last.0) then FilterEnv(EnvOf(init))[last.0 := last.1] else FilterEnv(EnvOf(init));
    }
  }

  lemma {:induction false} ChunksAreNulFree(listing: Listing)
    requires forall b | b in listing :: '\0' !in b.1
    ensures forall c | c in Chunks(listing) :: '\0' !in c && c != ""
    decreases |listing|
  {
    if listing != [] {
      var init, last := listing[..|listing| - 1], listing[|listing| - 1];
      assert last in listing && forall b | b in init :: b in listing;
      ChunksAreNulFree(init);
      if KeepName(last.0) {
        KeptNameIsPlain(last.0);
        assert '\0' !in "=";
      }
    }
  }

  /** Reading what was written in NUL form gives the name-filtered environment back, whatever the values contain
      besides NUL. */
  lemma NulRoundTrip(listing: Listing)
    requires forall b | b in listing :: '\0' !in b.1
    ensures Parsed(Join(Chunks(listing), "\0")) == FilterEnv(EnvOf(listing))
  {
    KeptChunksParse(listing);
    ChunksAreNulFree(listing);
    assert "\0" == ['\0'];
    if Chunks(listing) == [] {
      assert Split("", '\0') == [""];
      assert ParsedChunks(map[], [""]) == WithChunk(ParsedChunks(map[], []), "");
    } else {
      SplitJoin(Chunks(listing), '\0');
    }
  }

  lemma {:induction false} LinesOfJoin(parts: seq<string>)
    requires parts != [] && forall p | p in parts :: LineSafe(p)
    ensures Lines(Join(parts, "\n") + "\n") == parts
    decreases |parts|
  {
    assert parts[0] in parts;
    if |parts| == 1 {
      LinesAppend(parts[0], "");
      assert parts[0] + "\n" + "" == parts[0] + "\n";
      assert parts == [parts[0]] + [];
    } else {
      var rest := Join(parts[1..], "\n") + "\n";
      assert Join(parts, "\n") + "\n" == parts[0] + "\n" + rest;
      LinesAppend(parts[0], rest);
      LinesOfJoin(parts[1..]);
    }
  }

  lemma {:induction false} ChunksAreLines(listing: Listing)
    requires forall b | b in listing :: LineSafe(b.1)
    ensures forall c | c in Chunks(listing) :: LineSafe(c)
    ensures Chunks(listing) != [] ==> Join(Chunks(listing), "\n") != ""
    decreases |listing|
  {
    if listing != [] {
      var init, last := listing[..|listing| - 1], listing[|listing| - 1];
      assert last in listing && forall b | b in init :: b in listing;
      ChunksAreLines(init);
      if KeepName(last.0) {
        KeptNameIsPlain(last.0);
        assert '\n' !in "=" && "="[0] != '\r';
      }
    }
  }

  /** The newline form, read line by line as an environment file, gives the name-filtered environment too, provided that
      the values are single lines. */
  lemma NewlineRoundTrip(listing: Listing)
    requires forall b | b in listing :: LineSafe(b.1)
    ensures var joined := Join(Chunks(listing), SepText(Newline));
            ParsedChunks(map[], Lines(if joined != "" then joined + "\n" else joined)) == FilterEnv(EnvOf(listing))
  {
    KeptChunksParse(listing);
    ChunksAreLines(listing);
    if Chunks(listing) != [] {
      LinesOfJoin(Chunks(listing));
    }
  }

  // ----- the loader's dump -----

  predicate OccursAt(s: string, pattern: string, i: nat) {
    i <= |s| && pattern <= s[i..]
  }

  function FindFrom(s: string, pattern: string, i: nat): (r: Option<nat>)
    requires i <= |s|
    ensures r.Some? ==> i <= r.value && OccursAt(s, pattern, r.value)
    ensures forall j | i <= j <= |s| && (r.None? || j < r.value) :: !OccursAt(s, pattern, j)
    decreases |s| - i
  {
    if pattern <= s[i..] then Some(i) else if i == |s| then None else FindFrom(s, pattern, i + 1)
  }

  function Find(s: string, pattern: string): Option<nat> {
    FindFrom(s, pattern, 0)
  }

  function TrimNuls(s: string): string
    decreases |s|
  {
    if s != "" && s[|s| - 1] == '\0' then TrimNuls(s[..|s| - 1]) else s
  }

  datatype ShellDump = ShellDump(messages: string, env: Env)

  /** `parse_shell_dump`; `None` when the mark is missing. */
  function ParseShellDump(stdout: string, mark: string): (r: Option<ShellDump>)
    ensures r.None? <==> forall j | 0 <= j <= |stdout| :: !OccursAt(stdout, mark, j)
  {
    match Find(stdout, mark)
    case None => None
    case Some(pos) => Some(ShellDump(stdout[..pos], Parsed(TrimNuls(stdout[pos + |mark|..]))))
  }

  /** What `env -0` prints: every binding, each followed by a NUL. */
  function Dump(listing: Listing): string
    decreases |listing|
  {
    if listing == [] then "" else Dump(listing[..|listing| - 1]) + Chunk(listing[|listing| - 1]) + "\0"
  }

  function AllChunks(listing: Listing): seq<string> {
    seq(|listing|, i requires 0 <= i < |listing| => Chunk(listing[i]))
  }

  lemma {:induction false} DumpIsJoined(listing: Listing)
    requires listing != []
    ensures Dump(listing) == Join(AllChunks(listing), "\0") + "\0"
    decreases |listing|
  {
    var n := |listing| - 1;
    var init, last := listing[..n], listing[n];
    if n == 0 {
      assert Dump(init) == "";
      assert AllChunks(listing) == [Chunk(last)];
    } else {
      DumpIsJoined(init);
      assert AllChunks(listing) == AllChunks(init) + [Chunk(last)];
      JoinSnoc(AllChunks(init), Chunk(last), "\0");
    }
  }

  lemma {:induction false} JoinEnds(parts: seq<string>, sep: string)
    requires parts != [] && parts[|parts| - 1] != ""
    ensures var j := Join(parts, sep); j != "" && j[|j| - 1] == parts[|parts| - 1][|parts[|parts| - 1]| - 1]
    decreases |parts|
  {
    if |parts| > 1 {
      JoinEnds(parts[1..], sep);
    }
  }

  lemma {:induction false} AllChunksParse(listing: Listing)
    requires forall b | b in listing :: Writable(b)
    ensures ParsedChunks(map[], AllChunks(listing)) == FilterEnv(EnvOf(listing))
    decreases |listing|
  {
    if listing != [] {
      var n := |listing| - 1;
      var init, last := listing[..n], listing[n];
      assert last in listing && forall b | b in init :: b in listing;
      AllChunksParse(init);
      assert AllChunks(listing)[..n] == AllChunks(init) && AllChunks(listing)[n] == Chunk(last);
      ChunkRoundTrip(ParsedChunks(map[], AllChunks(init)), last);
      assert FilterEnv(EnvOf(init)[last.0 := last.1])
             == if KeepName(last.0) then FilterEnv(EnvOf(init))[last.0 := last.1] else FilterEnv(EnvOf(init));
    }
  }

  lemma DumpParses(listing: Listing)
    requires forall b | b in listing :: Writable(b)
    ensures Parsed(TrimNuls(Dump(listing))) == FilterEnv(EnvOf(listing))
  {
    if listing == [] {
      assert Split("", '\0') == [""];
      assert ParsedChunks(map[], [""]) == WithChunk(ParsedChunks(map[], []), "");
    } else {
      var chunks := AllChunks(listing);
      DumpIsJoined(listing);
      forall c | c in chunks
        ensures '\0' !in c && c != ""
      {
        var i :| 0 <= i < |chunks| && c == Chunk(listing[i]);
        ChunkIsText(listing[i], listing);
      }
      LastNulTrimmed(chunks);
      assert "\0" == ['\0'];
      SplitJoin(chunks, '\0');
      AllChunksParse(listing);
    }
  }

  lemma ChunkIsText(b: (string, string), listing: Listing)
    requires b in listing && forall x | x in listing :: Writable(x)
    ensures '\0' !in Chunk(b) && Chunk(b) != ""
  {
    assert '\0' !in "=";
  }

  lemma LastNulTrimmed(chunks: seq<string>)
    requires chunks != [] && forall c | c in chunks :: '\0' !in c && c != ""
    ensures TrimNuls(Join(chunks, "\0") + "\0") == Join(chunks, "\0")
  {
    var joined, last := Join(chunks, "\0"), chunks[|chunks| - 1];
    assert last in chunks;
    JoinEnds(chunks, "\0");
    assert last[|last| - 1] in last;
    assert (joined + "\0")[..|joined|] == joined;
  }

  lemma MarkFoundIff(messages: string, mark: string, tail: string)
    ensures var stdout := messages + mark + tail;
            && Find(stdout, mark).Some? && Find(stdout, mark).value <= |messages|
            && (Find(stdout, mark) == Some(|messages|) <==> forall j | 0 <= j < |messages| :: !OccursAt(stdout, mark, j))
            && stdout[..|messages|] == messages && stdout[|messages| + |mark|..] == tail
  {
    var stdout := messages + mark + tail;
    assert stdout[|messages|..] == mark + tail;
    assert OccursAt(stdout, mark, |messages|);
  }

  /** The loader's output parses back into its messages and the name-filtered environment if and only if the mark
      does not occur earlier than where it was printed. */
  lemma ShellDumpRoundTrip(messages: string, mark: string, listing: Listing)
    requires forall b | b in listing :: Writable(b)
    ensures var stdout := messages + mark + Dump(listing);
            ParseShellDump(stdout, mark) == Some(ShellDump(messages, FilterEnv(EnvOf(listing))))
            <==> forall j | 0 <= j < |messages| :: !OccursAt(stdout, mark, j)
  {
    var stdout := messages + mark + Dump(listing);
    MarkFoundIff(messages, mark, Dump(listing));
    DumpParses(listing);
    var pos := Find(stdout, mark).value;
    assert |ParseShellDump(stdout, mark).value.messages| == pos;
  }

  // ----- the cleanup list -----

  function EntryText(e: CleanupEntry): string {
    e.generation + " " + e.name
  }

  function CleanupBody(listing: seq<CleanupEntry>): string
    decreases |listing|
  {
    if listing == [] then "" else EntryText(listing[0]) + "\n" + CleanupBody(listing[1..])
  }

  /** `write_cleanup_entries` */
  method WriteCleanupEntries(listing: seq<CleanupEntry>) returns (body: string)
    ensures body == CleanupBody(listing)
  {
    body := "";
    for i := 0 to |listing|
      invariant body + CleanupBody(listing[i..]) == CleanupBody(listing)
    {
      assert listing[i..][1..] == listing[i + 1..];
      ConcatAssociates(body, EntryText(listing[i]) + "\n", CleanupBody(listing[i + 1..]));
      body := body + (listing[i].generation + " " + listing[i].name + "\n");
    }
    assert body + CleanupBody(listing[|listing|..]) == body;
  }

  function ReadEntry(line: string): set<CleanupEntry> {
    match SplitOnce(line, ' ')
    case Some((generation, name)) =>
      if generation != "" && KeepName(name) then {CleanupEntry(generation, name)} else {}
    case None => {}
  }

  function ReadLines(lines: seq<string>): set<CleanupEntry>
    decreases |lines|
  {
    if lines == [] then {} else ReadEntry(lines[0]) + ReadLines(lines[1..])
  }

  /** `read_cleanup_entries` */
  function ReadCleanupEntries(text: string): set<CleanupEntry> {
    ReadLines(Lines(text))
  }

  /** A line that lists `e`: the generation is what stands before the first blank. */
  ghost predicate Lists(line: string, e: CleanupEntry) {
    line == e.generation + " " + e.name && e.generation != "" && ' ' !in e.generation && KeepName(e.name)
  }

  lemma ReadEntryIff(line: string, e: CleanupEntry)
    ensures e in ReadEntry(line) <==> Lists(line, e)
  {
    assert " " == [' '];
    if Lists(line, e) {
      SplitOnceAppend(e.generation, ' ', e.name);
    }
    var i := IndexOf(line, ' ');
    assert i < |line| ==> line == line[..i] + " " + line[i + 1..];
  }

  /** Exactly the well-formed lines count, whatever else is in the file. */
  lemma {:induction false} ReadLinesMeaning(lines: seq<string>, e: CleanupEntry)
    ensures e in ReadLines(lines) <==> exists i :: 0 <= i < |lines| && Lists(lines[i], e)
    decreases |lines|
  {
    if lines != [] {
      ReadEntryIff(lines[0], e);
      ReadLinesMeaning(lines[1..], e);
      assert forall i | 0 < i < |lines| :: lines[i] == lines[1..][i - 1];
      assert forall i | 0 <= i < |lines| - 1 :: lines[1..][i] == lines[i + 1];
    }
  }

  lemma EntryRoundTrip(e: CleanupEntry)
    requires e.generation != "" && ' ' !in e.generation && '\n' !in e.generation && KeepName(e.name)
    ensures LineSafe(EntryText(e)) && ReadEntry(EntryText(e)) == {e}
  {
    KeptNameIsPlain(e.name);
    KeptNameChars(e.name);
    assert EntryText(e) == e.generation + [' '] + e.name;
    SplitOnceAppend(e.generation, ' ', e.name);
    assert '\n' !in " ";
    assert EntryText(e)[|EntryText(e)| - 1] == e.name[|e.name| - 1];
  }

  /** The cleanup list survives being written and read, in whatever order it is listed. */
  lemma {:induction false} CleanupRoundTrip(listing: seq<CleanupEntry>)
    requires forall e | e in listing ::
               e.generation != "" && ' ' !in e.generation && '\n' !in e.generation && KeepName(e.name)
    ensures ReadCleanupEntries(CleanupBody(listing)) == set e | e in listing
    decreases |listing|
  {
    if listing != [] {
      assert listing[0] in listing && forall e | e in listing[1..] :: e in listing;
      EntryRoundTrip(listing[0]);
      LinesAppend(EntryText(listing[0]), CleanupBody(listing[1..]));
      CleanupRoundTrip(listing[1..]);
      assert Lines(CleanupBody(listing))[1..] == Lines(CleanupBody(listing[1..]));
      assert (set e | e in listing) == {listing[0]} + set e | e in listing[1..];
    }
  }
}
