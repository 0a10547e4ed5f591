/** Field expansion of a tokenized `Exec` (`field.rs`): one command line, or one per argument. */
module ExecArgs {
  import opened Wrappers
  import opened VarNames
  import opened Strings
  import opened Utf8

  // ----- file URLs -----

  function HexUpper(d: nat): char
    requires d < 16
  {
    if d < 10 then '0' + d as char else 'A' + (d - 10) as char
  }

  /** Bytes that stay as they are: all of them are ASCII. */
  predicate IsUnreserved(b: Byte) {
    b < 128 && var c := b as char; IsAsciiAlphanumeric(c) || c == '_' || c == '.' || c == '~' || c == '-' || c == '/'
  }

  function PercentByte(b: Byte): string {
    if IsUnreserved(b) then [b as char] else ['%', HexUpper(b / 16), HexUpper(b % 16)]
  }

  function PercentEncoded(bytes: seq<Byte>): string {
    if bytes == [] then "" else PercentByte(bytes[0]) + PercentEncoded(bytes[1..])
  }

  function PercentDecoded(s: string): Option<seq<Byte>>
    decreases |s|
  {
    if s == "" then Some([])
    else if s[0] == '%' then
      if |s| < 3 then None
      else
        match (HexDigit(s[1]), HexDigit(s[2]), PercentDecoded(s[3..]))
        case (Some(hi), Some(lo), Some(rest)) => Some([16 * hi + lo] + rest)
        case _ => None
    else if s[0] as int >= 128 then None
    else
      match PercentDecoded(s[1..])
      case Some(rest) => Some([s[0] as int] + rest)
      case None => None
  }

  /** Decoding a percent-encoded path gives its UTF-8 bytes back. */
  lemma {:induction false} PercentRoundTrip(bytes: seq<Byte>)
    ensures PercentDecoded(PercentEncoded(bytes)) == Some(bytes)
  {
    if bytes != [] {
      var b, tail := bytes[0], PercentEncoded(bytes[1..]);
      PercentRoundTrip(bytes[1..]);
      var s := PercentEncoded(bytes);
      assert bytes == [b] + bytes[1..];
      if IsUnreserved(b) {
        assert s[1..] == tail && s[0] as int == b && s[0] != '%';
      } else {
        assert s[3..] == tail;
        assert HexDigit(HexUpper(b / 16)) == Some(b / 16) && HexDigit(HexUpper(b % 16)) == Some(b % 16);
      }
    }
  }

  predicate SchemeRest(s: string) {
    s != "" && (s[0] == ':' || ((IsAsciiAlphanumeric(s[0]) || s[0] == '+' || s[0] == '-' || s[0] == '.') && SchemeRest(s[1..])))
  }

  predicate HasUriScheme(s: string) {
    s != "" && IsAsciiAlphabetic(s[0]) && SchemeRest(s[1..])
  }

  function Path2Url(arg: string): string {
    if HasUriScheme(arg) then arg else "file://" + PercentEncoded(Encode(arg))
  }

  // ----- patterns -----

  predicate Contains(s: string, pattern: string) {
    exists i | 0 <= i <= |s| :: pattern <= s[i..]
  }

  /** Leftmost, non-overlapping replacement. */
  function Replaced(s: string, pattern: string, text: string): string
    requires pattern != ""
    decreases |s|
  {
    if s == "" then ""
    else if pattern <= s then text + Replaced(s[|pattern|..], pattern, text)
    else [s[0]] + Replaced(s[1..], pattern, text)
  }

  lemma WholeReplaced(pattern: string, text: string)
    requires pattern != ""
    ensures Replaced(pattern, pattern, text) == text
  {
    assert pattern[|pattern|..] == "" && text + "" == text;
  }

  function FieldCount(s: string): nat
    decreases |s|
  {
    if |s| < 2 then 0
    else if s[0] == '%' && s[1] == '%' then FieldCount(s[2..])
    else if s[0] == '%' && IsAsciiAlphabetic(s[1]) then 1 + FieldCount(s[2..])
    else FieldCount(s[1..])
  }

  /** `count_fields` */
  method CountFields(s: string) returns (n: nat)
    ensures n == FieldCount(s)
  {
    n := 0;
    var i := 0;
    while i < |s|
      invariant i <= |s| && n + FieldCount(s[i..]) == FieldCount(s)
    {
      if i + 1 < |s| {
        assert s[i..][2..] == s[i + 2..];
      }
      assert s[i..][1..] == s[i + 1..];
      if s[i] == '%' && i + 1 < |s| {
        if s[i + 1] == '%' {
          i := i + 2;
          continue;
        }
        if IsAsciiAlphabetic(s[i + 1]) {
          n := n + 1;
          i := i + 2;
          continue;
        }
      }
      i := i + 1;
    }
  }

  predicate HasDeprecated(s: string) {
    || Contains(s, "%d") || Contains(s, "%D") || Contains(s, "%n")
    || Contains(s, "%N") || Contains(s, "%v") || Contains(s, "%m")
  }

  // ----- expansion -----

  datatype EntryCtx = EntryCtx(name: string, icon: string, filename: string)

  datatype GenArgs = Single(argv: seq<string>) | Multi(argvs: seq<seq<string>>)

  datatype FieldError = EmptyExec | ManyFields | ListInsideArgument | Conflicting | NoArguments

  /** The expanded words so far, the file or URL field met, and where a single-valued one stands. */
  datatype Progress = Progress(out: seq<string>, field: Option<string>, at: Option<nat>)

  function Fill(p: Progress, tok: string, words: seq<string>, single: bool): Result<Progress, FieldError> {
    if p.field.Some? then Err(Conflicting)
    else Ok(Progress(p.out + words, Some(tok), if single then Some(|p.out|) else p.at))
  }

  function SingleWords(tok: string, field: string, args: seq<string>, url: bool): seq<string>
    requires field != ""
  {
    if args == [] then []
    else if |args| == 1 then [Replaced(tok, field, if url then Path2Url(args[0]) else args[0])]
    else [tok]
  }

  function Urls(args: seq<string>): seq<string> {
    seq(|args|, i requires 0 <= i < |args| => Path2Url(args[i]))
  }

  /** What a word of the `Exec` line is, decided in this order. */
  datatype Kind = Bad(error: FieldError) | Words(words: seq<string>) | File | FileList | Url | UrlList

  function Classified(tok: string, ctx: EntryCtx): Kind {
    if FieldCount(tok) > 1 then Bad(ManyFields)
    else if Contains(tok, "%%") then Words([Replaced(tok, "%%", "%")])
    else if HasDeprecated(tok) then Words([])
    else if Contains(tok, "%f") then File
    else if tok == "%F" then FileList
    else if Contains(tok, "%F") then Bad(ListInsideArgument)
    else if Contains(tok, "%u") then Url
    else if tok == "%U" then UrlList
    else if Contains(tok, "%U") then Bad(ListInsideArgument)
    else if tok == "%c" then Words([ctx.name])
    else if tok == "%k" then Words([ctx.filename])
    else if tok == "%i" then Words(if ctx.icon == "" then [] else ["--icon", ctx.icon])
    else Words([tok])
  }

  function Expand(p: Progress, tok: string, args: seq<string>, ctx: EntryCtx): Result<Progress, FieldError> {
    match Classified(tok, ctx)
    case Bad(e) => Err(e)
    case Words(words) => Ok(p.(out := p.out + words))
    case File => Fill(p, tok, SingleWords(tok, "%f", args, false), true)
    case FileList => Fill(p, tok, args, false)
    case Url => Fill(p, tok, SingleWords(tok, "%u", args, true), true)
    case UrlList => Fill(p, tok, Urls(args), false)
  }

  function ExpandAll(p: Progress, toks: seq<string>, args: seq<string>, ctx: EntryCtx): Result<Progress, FieldError>
    decreases |toks|
  {
    if toks == [] then Ok(p)
    else
      match Expand(p, toks[0], args, ctx)
      case Ok(next) => ExpandAll(next, toks[1..], args, ctx)
      case Err(e) => Err(e)
  }

  predicate Standalone(p: Progress) {
    p.at.Some? && p.at.value < |p.out| && (p.field == Some("%f") || p.field == Some("%u"))
  }

  function Filling(field: string, arg: string): string {
    if field == "%u" then Path2Url(arg) else arg
  }

  function Instance(cmd: string, p: Progress, arg: string): seq<string>
    requires Standalone(p)
  {
    [cmd] + p.out[p.at.value := Replaced(p.out[p.at.value], p.field.value, Filling(p.field.value, arg))]
  }

  function Finish(cmd: string, p: Progress, args: seq<string>): Result<GenArgs, FieldError> {
    if args != [] && p.field.None? then Err(NoArguments)
    else if |args| > 1 && Standalone(p) then
      Ok(Multi(seq(|args|, i requires 0 <= i < |args| => Instance(cmd, p, args[i]))))
    else Ok(Single([cmd] + p.out))
  }

  const NOTHING := Progress([], None, None)

  function Generated(exec: seq<string>, args: seq<string>, ctx: EntryCtx): Result<GenArgs, FieldError> {
    if exec == [] then Err(EmptyExec)
    else
      match ExpandAll(NOTHING, exec[1..], args, ctx)
      case Ok(p) => Finish(exec[0], p, args)
      case Err(e) => Err(e)
  }

  /** `gen_entry_args` */
  method GenEntryArgs(exec: seq<string>, args: seq<string>, ctx: EntryCtx) returns (r: Result<GenArgs, FieldError>)
    ensures r == Generated(exec, args, ctx)
  {
    if exec == [] {
      return Err(EmptyExec);
    }
    var p := NOTHING;
    for i := 1 to |exec|
      invariant ExpandAll(p, exec[i..], args, ctx) == ExpandAll(NOTHING, exec[1..], args, ctx)
    {
      assert exec[i..][1..] == exec[i + 1..];
      var next := ExpandWord(p, exec[i], args, ctx);
      match next {
        case Err(e) => return Err(e);
        case Ok(q) => p := q;
      }
    }
    if args != [] && p.field.None? {
      return Err(NoArguments);
    }
    if |args| > 1 && Standalone(p) {
      var instances := Instances(exec[0], p, args);
      return Ok(Multi(instances));
    }
    return Ok(Single([exec[0]] + p.out));
  }

  /** The loop over the arguments of a multi-instance result. */
  method Instances(cmd: string, p: Progress, args: seq<string>) returns (instances: seq<seq<string>>)
    requires Standalone(p)
    ensures instances == seq(|args|, i requires 0 <= i < |args| => Instance(cmd, p, args[i]))
  {
    instances := [];
    for i := 0 to |args|
      invariant instances == seq(i, j requires 0 <= j < i => Instance(cmd, p, args[j]))
    {
      var inst := p.out;
      var repl := if p.field == Some("%u") then Path2Url(args[i]) else args[i];
      inst := inst[p.at.value := Replaced(inst[p.at.value], p.field.value, repl)];
      instances := instances + [[cmd] + inst];
    }
  }

  /** The body of the loop over the words. */
  method ExpandWord(p: Progress, tok: string, args: seq<string>, ctx: EntryCtx) returns (r: Result<Progress, FieldError>)
    ensures r == Expand(p, tok, args, ctx)
  {
    var out, field, at := p.out, p.field, p.at;
    var fields := CountFields(tok);
    if fields > 1 {
      return Err(ManyFields);
    }
    if Contains(tok, "%%") {
      out := out + [Replaced(tok, "%%", "%")];
    } else if HasDeprecated(tok) {
      assert out + [] == out;
    } else if Contains(tok, "%f") {
      if field.Some? {
        return Err(Conflicting);
      }
      field, at := Some(tok), Some(|out|);
      if |args| == 1 {
        out := out + [Replaced(tok, "%f", args[0])];
      } else if |args| > 1 {
        out := out + [tok];
      }
      assert args == [] ==> p.out + [] == out;
    } else if tok == "%F" {
      if field.Some? {
        return Err(Conflicting);
      }
      field, out := Some(tok), out + args;
    } else if Contains(tok, "%F") {
      return Err(ListInsideArgument);
    } else if Contains(tok, "%u") {
      if field.Some? {
        return Err(Conflicting);
      }
      field, at := Some(tok), Some(|out|);
      if |args| == 1 {
        out := out + [Replaced(tok, "%u", Path2Url(args[0]))];
      } else if |args| > 1 {
        out := out + [tok];
      }
      assert args == [] ==> p.out + [] == out;
    } else if tok == "%U" {
      if field.Some? {
        return Err(Conflicting);
      }
      field, out := Some(tok), out + Urls(args);
    } else if Contains(tok, "%U") {
      return Err(ListInsideArgument);
    } else if tok == "%c" {
      out := out + [ctx.name];
    } else if tok == "%k" {
      out := out + [ctx.filename];
    } else if tok == "%i" {
      if ctx.icon != "" {
        out := out + ["--icon"];
        out := out + [ctx.icon];
        assert p.out + ["--icon", ctx.icon] == out;
      }
      assert p.out + [] == p.out;
    } else {
      out := out + [tok];
    }
    return Ok(Progress(out, field, at));
  }

  // ----- several arguments against one -----

  /** How the expansion for many arguments relates to the one for a single argument. */
  ghost predicate Parallel(many: Progress, one: Progress, arg: string) {
    && many.field == one.field && many.at == one.at
    && (many.field.None? ==> many.out == one.out && many.at.None?)
    && (many.field == Some("%f") || many.field == Some("%u") ==>
          && many.at.Some? && many.at.value < |many.out|
          && many.out[many.at.value] == many.field.value
          && one.out == many.out[many.at.value := Filling(many.field.value, arg)])
  }

  lemma ContainsSameLength(s: string, pattern: string)
    requires |s| == |pattern|
    ensures Contains(s, pattern) <==> s == pattern
  {
    assert s[0..] == s;
    if i :| 0 <= i <= |s| && pattern <= s[i..] {
      assert i == 0;
    }
  }

  lemma DeprecatedFields(tok: string)
    requires |tok| == 2 && tok[1] in "fu"
    ensures !HasDeprecated(tok)
  {
    ContainsSameLength(tok, "%d");
    ContainsSameLength(tok, "%D");
    ContainsSameLength(tok, "%n");
    ContainsSameLength(tok, "%N");
    ContainsSameLength(tok, "%v");
    ContainsSameLength(tok, "%m");
    assert "%d"[1] == 'd' && "%D"[1] == 'D' && "%n"[1] == 'n' && "%N"[1] == 'N' && "%v"[1] == 'v' && "%m"[1] == 'm';
  }

  lemma OneField(tok: string)
    requires |tok| == 2 && tok[0] == '%' && IsAsciiAlphabetic(tok[1])
    ensures FieldCount(tok) == 1 && !Contains(tok, "%%")
  {
    assert FieldCount(tok[2..]) == 0;
    ContainsSameLength(tok, "%%");
    assert "%%"[1] == '%';
  }

  lemma SimpleToken(tok: string)
    requires |tok| == 2 && tok[0] == '%' && (tok[1] == 'f' || tok[1] == 'u')
    ensures FieldCount(tok) == 1 && !Contains(tok, "%%") && !HasDeprecated(tok)
    ensures Contains(tok, "%f") <==> tok == "%f"
    ensures Contains(tok, "%F") <==> tok == "%F"
    ensures Contains(tok, "%u") <==> tok == "%u"
  {
    OneField(tok);
    DeprecatedFields(tok);
    ContainsSameLength(tok, "%f");
    ContainsSameLength(tok, "%F");
    ContainsSameLength(tok, "%u");
  }

  lemma StandaloneToken(ctx: EntryCtx)
    ensures Classified("%f", ctx) == File && Classified("%u", ctx) == Url
  {
    SimpleToken("%f");
    SimpleToken("%u");
    assert "%u"[1] == 'u' && "%f"[1] == 'f' && "%F"[1] == 'F';
  }

  lemma WordsKeepParallel(many: Progress, one: Progress, arg: string, words: seq<string>)
    requires Parallel(many, one, arg)
    ensures Parallel(many.(out := many.out + words), one.(out := one.out + words), arg)
  {
    if many.at.Some? && many.at.value < |many.out| && many.field.Some? {
      var i, word := many.at.value, Filling(many.field.value, arg);
      assert (many.out + words)[i := word] == many.out[i := word] + words;
    }
  }

  lemma FillStandalone(many: Progress, one: Progress, tok: string, arg: string)
    requires Parallel(many, one, arg) && many.field.None? && (tok == "%f" || tok == "%u")
    ensures Parallel(Progress(many.out + [tok], Some(tok), Some(|many.out|)),
                     Progress(one.out + [Filling(tok, arg)], Some(tok), Some(|one.out|)), arg)
  {
    assert (many.out + [tok])[|many.out| := Filling(tok, arg)] == many.out + [Filling(tok, arg)];
  }

  lemma ParallelStep(many: Progress, one: Progress, tok: string, args: seq<string>, arg: string, ctx: EntryCtx)
    requires Parallel(many, one, arg) && |args| > 1
    requires Expand(many, tok, args, ctx).Ok?
    ensures Expand(one, tok, [arg], ctx).Ok?
    ensures Parallel(Expand(many, tok, args, ctx).value, Expand(one, tok, [arg], ctx).value, arg)
  {
    var kind := Classified(tok, ctx);
    StandaloneToken(ctx);
    if kind.Words? {
      WordsKeepParallel(many, one, arg, kind.words);
    } else if tok == "%f" || tok == "%u" {
      WholeReplaced(tok, Filling(tok, arg));
      FillStandalone(many, one, tok, arg);
    }
  }

  lemma {:induction false} ParallelRun(many: Progress, one: Progress, toks: seq<string>, args: seq<string>, arg: string,
                                       ctx: EntryCtx)
    requires Parallel(many, one, arg) && |args| > 1
    requires ExpandAll(many, toks, args, ctx).Ok?
    ensures ExpandAll(one, toks, [arg], ctx).Ok?
    ensures Parallel(ExpandAll(many, toks, args, ctx).value, ExpandAll(one, toks, [arg], ctx).value, arg)
    decreases |toks|
  {
    if toks != [] {
      ParallelStep(many, one, toks[0], args, arg, ctx);
      ParallelRun(Expand(many, toks[0], args, ctx).value, Expand(one, toks[0], [arg], ctx).value, toks[1..], args, arg, ctx);
    }
  }

  /** A multi-instance result has one command line per argument, in order, each the result for that argument alone. */
  lemma MultiIsOnePerArgument(exec: seq<string>, args: seq<string>, ctx: EntryCtx, i: nat)
    requires Generated(exec, args, ctx).Ok? && Generated(exec, args, ctx).value.Multi?
    ensures |Generated(exec, args, ctx).value.argvs| == |args|
    ensures i < |args| ==>
              Generated(exec, [args[i]], ctx) == Ok(Single(Generated(exec, args, ctx).value.argvs[i]))
  {
    if i < |args| {
      ParallelRun(NOTHING, NOTHING, exec[1..], args, args[i], ctx);
      var p := ExpandAll(NOTHING, exec[1..], args, ctx).value;
      WholeReplaced(p.field.value, Filling(p.field.value, args[i]));
    }
  }

  // ----- when a result is multi-instance -----

  lemma ExpandField(p: Progress, tok: string, args: seq<string>, ctx: EntryCtx)
    requires |args| > 1 && Expand(p, tok, args, ctx).Ok?
    requires p.field.Some? && p.field.value in {"%f", "%u"} ==> p.at.Some? && p.at.value < |p.out|
    ensures var q := Expand(p, tok, args, ctx).value;
            && (q.field == p.field || (p.field.None? && q.field == Some(tok)))
            && (tok == "%f" || tok == "%u" ==> q.field == Some(tok))
            && (q.field.Some? && q.field.value in {"%f", "%u"} ==> q.at.Some? && q.at.value < |q.out|)
  {
    StandaloneToken(ctx);
  }

  lemma {:induction false} FieldOfRun(p: Progress, toks: seq<string>, args: seq<string>, ctx: EntryCtx)
    requires |args| > 1 && ExpandAll(p, toks, args, ctx).Ok?
    requires p.field.Some? && p.field.value in {"%f", "%u"} ==> p.at.Some? && p.at.value < |p.out|
    ensures var q := ExpandAll(p, toks, args, ctx).value;
            && (p.field.Some? ==> q.field == p.field)
            && (p.field.None? && q.field.Some? ==> q.field.value in toks)
            && (("%f" in toks || "%u" in toks) ==> q.field.Some? && q.field.value in {"%f", "%u"})
            && (q.field.Some? && q.field.value in {"%f", "%u"} ==> q.at.Some? && q.at.value < |q.out|)
    decreases |toks|
  {
    if toks != [] {
      var tok := toks[0];
      ExpandField(p, tok, args, ctx);
      FieldOfRun(Expand(p, tok, args, ctx).value, toks[1..], args, ctx);
      assert forall t :: t in toks <==> t == tok || t in toks[1..];
    }
  }

  /** With several arguments, an accepted `Exec` yields one instance per argument if and only if one of its words is
      exactly `%f` or `%u`; a field embedded in a longer word leaves a single command line. */
  lemma MultiIff(exec: seq<string>, args: seq<string>, ctx: EntryCtx)
    requires |args| > 1 && Generated(exec, args, ctx).Ok?
    ensures Generated(exec, args, ctx).value.Multi? <==> "%f" in exec[1..] || "%u" in exec[1..]
  {
    FieldOfRun(NOTHING, exec[1..], args, ctx);
  }

  // ----- which lines are accepted, and where the arguments go -----

  /** The words that are or hold a file or URL field. */
  function FieldWords(toks: seq<string>, ctx: EntryCtx): nat {
    if toks == [] then 0
    else
      (match Classified(toks[0], ctx)
       case Bad(_) => 0
       case Words(_) => 0
       case _ => 1) + FieldWords(toks[1..], ctx)
  }

  lemma {:induction false} ExpandsIff(p: Progress, toks: seq<string>, args: seq<string>, ctx: EntryCtx)
    ensures ExpandAll(p, toks, args, ctx).Ok?
            <==> (forall t | t in toks :: !Classified(t, ctx).Bad?)
                 && FieldWords(toks, ctx) + (if p.field.Some? then 1 else 0) <= 1
    ensures ExpandAll(p, toks, args, ctx).Ok? ==>
              (ExpandAll(p, toks, args, ctx).value.field.Some? <==> p.field.Some? || FieldWords(toks, ctx) > 0)
    decreases |toks|
  {
    if toks != [] {
      assert forall t :: t in toks <==> t == toks[0] || t in toks[1..];
      match Expand(p, toks[0], args, ctx)
      case Ok(next) => ExpandsIff(next, toks[1..], args, ctx);
      case Err(_) =>
    }
  }

  /** An `Exec` line is accepted if and only if it is not empty, each of its words is acceptable by itself, and it has
      at most one file or URL field, exactly one when there are arguments; the order of the words does not matter. */
  lemma AcceptedIff(exec: seq<string>, args: seq<string>, ctx: EntryCtx)
    ensures Generated(exec, args, ctx).Ok?
            <==> exec != [] && (forall t | t in exec[1..] :: !Classified(t, ctx).Bad?)
                 && (if args == [] then FieldWords(exec[1..], ctx) <= 1 else FieldWords(exec[1..], ctx) == 1)
  {
    if exec != [] {
      ExpandsIff(NOTHING, exec[1..], args, ctx);
    }
  }

  /** What the words without a file or URL field turn into. */
  function PlainWords(toks: seq<string>, ctx: EntryCtx): seq<string> {
    if toks == [] then []
    else
      (match Classified(toks[0], ctx)
       case Words(words) => words
       case _ => []) + PlainWords(toks[1..], ctx)
  }

  lemma {:induction false} ExpandsPlain(p: Progress, toks: seq<string>, args: seq<string>, ctx: EntryCtx)
    requires ExpandAll(p, toks, args, ctx).Ok? && p.field.Some?
    ensures ExpandAll(p, toks, args, ctx) == Ok(p.(out := p.out + PlainWords(toks, ctx)))
    decreases |toks|
  {
    if toks == [] {
      assert p.out + [] == p.out;
    } else {
      var kind := Classified(toks[0], ctx);
      ExpandsPlain(p.(out := p.out + kind.words), toks[1..], args, ctx);
      ConcatAssociates(p.out, kind.words, PlainWords(toks[1..], ctx));
    }
  }

  lemma ListToken(ctx: EntryCtx)
    ensures Classified("%F", ctx) == FileList && Classified("%U", ctx) == UrlList
  {
    ListTokenFacts("%F");
    ListTokenFacts("%U");
  }

  lemma ListTokenFacts(tok: string)
    requires tok == "%F" || tok == "%U"
    ensures FieldCount(tok) == 1 && !Contains(tok, "%%") && !HasDeprecated(tok)
    ensures !Contains(tok, "%f") && !Contains(tok, "%u")
    ensures Contains(tok, "%F") <==> tok == "%F"
  {
    assert FieldCount(tok[2..]) == 0;
    ContainsSameLength(tok, "%d");
    ContainsSameLength(tok, "%D");
    ContainsSameLength(tok, "%n");
    ContainsSameLength(tok, "%N");
    ContainsSameLength(tok, "%v");
    ContainsSameLength(tok, "%m");
    ContainsSameLength(tok, "%%");
    ContainsSameLength(tok, "%f");
    ContainsSameLength(tok, "%F");
    ContainsSameLength(tok, "%u");
    assert tok[1] == 'F' || tok[1] == 'U';
    assert "%d"[1] == 'd' && "%D"[1] == 'D' && "%n"[1] == 'n' && "%N"[1] == 'N' && "%v"[1] == 'v' && "%m"[1] == 'm';
    assert "%%"[1] == '%' && "%f"[1] == 'f' && "%u"[1] == 'u';
  }

  predicate IsField(kind: Kind) {
    kind.File? || kind.FileList? || kind.Url? || kind.UrlList?
  }

  /** The words a file or URL field leaves in its place. */
  function FieldFilled(tok: string, args: seq<string>, ctx: EntryCtx): seq<string> {
    match Classified(tok, ctx)
    case File => SingleWords(tok, "%f", args, false)
    case FileList => args
    case Url => SingleWords(tok, "%u", args, true)
    case UrlList => Urls(args)
    case _ => []
  }

  /** The expansion of a line around its file or URL field `tok`. */
  ghost predicate Around(p: Progress, q: Progress, before: seq<string>, filled: seq<string>, after: seq<string>,
                         tok: string, single: bool)
  {
    && q.out == p.out + (before + filled + after)
    && q.field == Some(tok)
    && (single ==> q.at == Some(|p.out| + |before|))
  }

  predicate IsSingle(kind: Kind) {
    kind.File? || kind.Url?
  }

  lemma FieldFirst(p: Progress, toks: seq<string>, args: seq<string>, ctx: EntryCtx)
    requires p.field.None? && toks != [] && IsField(Classified(toks[0], ctx)) && ExpandAll(p, toks, args, ctx).Ok?
    ensures Around(p, ExpandAll(p, toks, args, ctx).value, [], FieldFilled(toks[0], args, ctx),
                   PlainWords(toks[1..], ctx), toks[0], IsSingle(Classified(toks[0], ctx)))
  {
    var filled, after := FieldFilled(toks[0], args, ctx), PlainWords(toks[1..], ctx);
    ExpandsPlain(Expand(p, toks[0], args, ctx).value, toks[1..], args, ctx);
    ConcatAssociates(p.out, filled, after);
    assert [] + filled + after == filled + after;
  }

  lemma WordsBefore(p: Progress, q: Progress, words: seq<string>, before: seq<string>, filled: seq<string>,
                    after: seq<string>, tok: string, single: bool)
    requires Around(p.(out := p.out + words), q, before, filled, after, tok, single)
    ensures Around(p, q, words + before, filled, after, tok, single)
  {
    Regroup(p.out, words, before, filled, after);
  }

  lemma {:induction false} ExpandsField(p: Progress, toks: seq<string>, args: seq<string>, ctx: EntryCtx, i: nat)
    requires p.field.None? && i < |toks| && IsField(Classified(toks[i], ctx))
    requires ExpandAll(p, toks, args, ctx).Ok?
    ensures Around(p, ExpandAll(p, toks, args, ctx).value, PlainWords(toks[..i], ctx), FieldFilled(toks[i], args, ctx),
                   PlainWords(toks[i + 1..], ctx), toks[i], IsSingle(Classified(toks[i], ctx)))
    decreases |toks|
  {
    if i == 0 {
      FieldFirst(p, toks, args, ctx);
    } else {
      WordBeforeField(p, toks, args, ctx, i);
      var words := Classified(toks[0], ctx).words;
      assert toks[1..][..i - 1] == toks[1..i] && toks[1..][i..] == toks[i + 1..] && toks[..i][1..] == toks[1..i];
      ExpandsField(p.(out := p.out + words), toks[1..], args, ctx, i - 1);
      WordsBefore(p, ExpandAll(p, toks, args, ctx).value, words, PlainWords(toks[1..i], ctx),
                  FieldFilled(toks[i], args, ctx), PlainWords(toks[i + 1..], ctx), toks[i],
                  IsSingle(Classified(toks[i], ctx)));
    }
  }

  lemma Regroup(a: seq<string>, b: seq<string>, c: seq<string>, d: seq<string>, e: seq<string>)
    ensures (a + b) + (c + d + e) == a + ((b + c) + d + e)
  {
  }

  lemma WordBeforeField(p: Progress, toks: seq<string>, args: seq<string>, ctx: EntryCtx, i: nat)
    requires 0 < i < |toks| && IsField(Classified(toks[i], ctx)) && ExpandAll(p, toks, args, ctx).Ok?
    ensures Classified(toks[0], ctx).Words?
  {
    FieldsAfter(toks[1..], ctx, i - 1);
    ExpandsIff(p, toks, args, ctx);
    assert toks[0] in toks;
  }

  lemma {:induction false} FieldsAfter(toks: seq<string>, ctx: EntryCtx, i: nat)
    requires i < |toks| && IsField(Classified(toks[i], ctx))
    ensures FieldWords(toks, ctx) >= 1
    decreases |toks|
  {
    if i > 0 {
      FieldsAfter(toks[1..], ctx, i - 1);
    }
  }

  /** A list field passes on all the arguments or their URLs, in order and where it stands, and the result is a single command line. */
  lemma ListInPlace(exec: seq<string>, args: seq<string>, ctx: EntryCtx, i: nat, texts: seq<string>)
    requires 1 <= i < |exec| && (exec[i] == "%F" || exec[i] == "%U") && Generated(exec, args, ctx).Ok?
    requires |texts| == |args|
    requires forall k | 0 <= k < |args| :: texts[k] == if exec[i] == "%F" then args[k] else Path2Url(args[k])
    ensures Generated(exec, args, ctx)
            == Ok(Single([exec[0]] + (PlainWords(exec[1..i], ctx) + texts + PlainWords(exec[i + 1..], ctx))))
  {
    assert exec[1..][..i - 1] == exec[1..i] && exec[1..][i..] == exec[i + 1..];
    ListToken(ctx);
    ExpandsField(NOTHING, exec[1..], args, ctx, i - 1);
    assert FieldFilled(exec[i], args, ctx) == texts;
    var words := PlainWords(exec[1..i], ctx) + texts + PlainWords(exec[i + 1..], ctx);
    assert [] + words == words;
    assert "%F"[1] == 'F' && "%U"[1] == 'U' && "%f"[1] == 'f' && "%u"[1] == 'u';
  }

  lemma {:induction false} NoFieldCodes(tok: string)
    requires '%' !in tok
    ensures FieldCount(tok) == 0
    decreases |tok|
  {
    if |tok| >= 2 {
      assert tok[0] in tok && forall c | c in tok[1..] :: c in tok;
      NoFieldCodes(tok[1..]);
    }
  }

  lemma NoPattern(tok: string, pattern: string)
    requires '%' !in tok && pattern != "" && pattern[0] == '%'
    ensures !Contains(tok, pattern) && tok != pattern
  {
    assert pattern[0] in pattern;
    forall i | 0 <= i <= |tok|
      ensures !(pattern <= tok[i..])
    {
      if i < |tok| {
        assert tok[i..][0] == tok[i] && tok[i] in tok;
      }
    }
  }

  lemma LiteralWord(tok: string, ctx: EntryCtx)
    requires '%' !in tok
    ensures Classified(tok, ctx) == Words([tok])
  {
    NoFieldCodes(tok);
    NoPattern(tok, "%%");
    NoPattern(tok, "%d");
    NoPattern(tok, "%D");
    NoPattern(tok, "%n");
    NoPattern(tok, "%N");
    NoPattern(tok, "%v");
    NoPattern(tok, "%m");
    NoPattern(tok, "%f");
    NoPattern(tok, "%F");
    NoPattern(tok, "%u");
    NoPattern(tok, "%U");
    assert "%c"[0] == '%' && "%k"[0] == '%' && "%i"[0] == '%';
  }

  lemma {:induction false} LiteralWords(toks: seq<string>, ctx: EntryCtx)
    requires forall t | t in toks :: '%' !in t
    ensures PlainWords(toks, ctx) == toks && FieldWords(toks, ctx) == 0
    decreases |toks|
  {
    if toks != [] {
      assert toks[0] in toks && forall t | t in toks[1..] :: t in toks;
      LiteralWord(toks[0], ctx);
      LiteralWords(toks[1..], ctx);
    }
  }

  /** Words without field codes are passed on as they are, around the list of arguments. */
  lemma LiteralsAroundList(exec: seq<string>, args: seq<string>, ctx: EntryCtx, i: nat)
    requires 1 <= i < |exec| && exec[i] == "%F" && forall j | 1 <= j < |exec| && j != i :: '%' !in exec[j]
    ensures Generated(exec, args, ctx) == Ok(Single(exec[..i] + args + exec[i + 1..]))
  {
    var before, after := exec[1..i], exec[i + 1..];
    LiteralWords(before, ctx);
    LiteralWords(after, ctx);
    LiteralsAccepted(exec, args, ctx, i);
    ListInPlace(exec, args, ctx, i, args);
    Reassemble(exec[0], before, args, after);
    assert exec[..i] == [exec[0]] + before;
  }

  lemma Reassemble(command: string, before: seq<string>, args: seq<string>, after: seq<string>)
    ensures [command] + (before + args + after) == ([command] + before) + args + after
  {
  }

  lemma LiteralsAccepted(exec: seq<string>, args: seq<string>, ctx: EntryCtx, i: nat)
    requires 1 <= i < |exec| && exec[i] == "%F" && forall j | 1 <= j < |exec| && j != i :: '%' !in exec[j]
    ensures Generated(exec, args, ctx).Ok?
  {
    assert exec[1..] == exec[1..i] + (["%F"] + exec[i + 1..]);
    ListAccepted(exec[1..i], exec[i + 1..], ctx);
    AcceptedIff(exec, args, ctx);
  }

  lemma ListAccepted(before: seq<string>, after: seq<string>, ctx: EntryCtx)
    requires forall t | t in before || t in after :: '%' !in t
    ensures var toks := before + (["%F"] + after);
            FieldWords(toks, ctx) == 1 && forall t | t in toks :: !Classified(t, ctx).Bad?
  {
    ListToken(ctx);
    LiteralWords(before, ctx);
    LiteralWords(after, ctx);
    assert (["%F"] + after)[1..] == after;
    FieldWordsConcat(before, ["%F"] + after, ctx);
    forall t | t in before + (["%F"] + after)
      ensures !Classified(t, ctx).Bad?
    {
      if t != "%F" {
        LiteralWord(t, ctx);
      }
    }
  }

  lemma {:induction false} FieldWordsConcat(a: seq<string>, b: seq<string>, ctx: EntryCtx)
    ensures FieldWords(a + b, ctx) == FieldWords(a, ctx) + FieldWords(b, ctx)
    decreases |a|
  {
    if a == [] {
      assert a + b == b;
    } else {
      assert (a + b)[1..] == a[1..] + b;
      FieldWordsConcat(a[1..], b, ctx);
    }
  }
}
