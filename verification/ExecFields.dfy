/** What the words of an `Exec` line turn into: the one field of a word decides, and it is filled where it stands. */
module ExecFields {
  import opened Wrappers
  import opened VarNames
  import opened Strings
  import opened Utf8
  import opened ExecArgs

  // ----- where a word has its field -----

  /** A field stands at `i`: `%` and a letter. */
  predicate FieldAt(s: string, i: nat) {
    i + 1 < |s| && s[i] == '%' && IsAsciiAlphabetic(s[i + 1])
  }

  predicate EscapeAt(s: string, i: nat) {
    i + 1 < |s| && s[i] == '%' && s[i + 1] == '%'
  }

  predicate NoEscape(s: string) {
    forall i: nat | i < |s| :: !EscapeAt(s, i)
  }

  lemma PatternAt(s: string, pattern: string, x: char, i: nat)
    requires pattern == ['%', x] && i <= |s|
    ensures pattern <= s[i..] <==> i + 1 < |s| && s[i] == '%' && s[i + 1] == x
  {
    if i + 1 < |s| {
      assert s[i..][0] == s[i] && s[i..][1] == s[i + 1];
    }
  }

  lemma {:induction false} CountedField(s: string, i: nat)
    requires NoEscape(s) && FieldAt(s, i)
    ensures FieldCount(s) >= 1
    decreases |s|
  {
    assert !EscapeAt(s, 0);
    if i > 0 && !FieldAt(s, 0) {
      TailHasField(s, i, 1);
      CountedField(s[1..], i - 1);
    }
  }

  lemma TailHasField(s: string, i: nat, k: nat)
    requires NoEscape(s) && FieldAt(s, i) && k <= i
    ensures NoEscape(s[k..]) && FieldAt(s[k..], i - k)
  {
    forall j: nat | j < |s[k..]|
      ensures !EscapeAt(s[k..], j)
    {
      assert !EscapeAt(s, j + k);
    }
  }

  lemma {:induction false} TwoFields(s: string, i: nat, j: nat)
    requires NoEscape(s) && FieldAt(s, i) && FieldAt(s, j) && i < j
    ensures FieldCount(s) >= 2
    decreases |s|
  {
    assert !EscapeAt(s, 0);
    if FieldAt(s, 0) {
      assert j >= 2;
      TailHasField(s, j, 2);
      CountedField(s[2..], j - 2);
    } else {
      TailHasField(s, i, 1);
      TailHasField(s, j, 1);
      TwoFields(s[1..], i - 1, j - 1);
    }
  }

  /** The only field of `s` stands between `a` and `b` and has the letter `x`. */
  ghost predicate OneFieldIn(s: string, a: string, x: char, b: string) {
    && s == a + ['%', x] + b && IsAsciiAlphabetic(x)
    && NoEscape(s) && FieldCount(s) <= 1
  }

  lemma OtherFieldsAbsent(s: string, a: string, x: char, b: string, pattern: string, y: char)
    requires OneFieldIn(s, a, x, b) && pattern == ['%', y] && IsAsciiAlphabetic(y)
    ensures Contains(s, pattern) <==> y == x
    ensures forall i | 0 <= i <= |s| && pattern <= s[i..] :: i == |a|
  {
    assert FieldAt(s, |a|);
    PatternAt(s, pattern, y, |a|);
    forall i | 0 <= i <= |s| && pattern <= s[i..]
      ensures i == |a|
    {
      PatternAt(s, pattern, y, i);
      if i < |a| {
        TwoFields(s, i, |a|);
      } else if i > |a| {
        TwoFields(s, |a|, i);
      }
    }
  }

  lemma EscapeAbsent(s: string)
    ensures NoEscape(s) <==> !Contains(s, "%%")
  {
    assert "%%" == ['%', '%'];
    if i :| 0 <= i <= |s| && "%%" <= s[i..] {
      PatternAt(s, "%%", '%', i);
      assert EscapeAt(s, i);
    }
    if i: nat :| i < |s| && EscapeAt(s, i) {
      PatternAt(s, "%%", '%', i);
    }
  }

  lemma {:induction false} ReplacedOnce(a: string, pattern: string, b: string, text: string)
    requires pattern != ""
    requires forall i | 0 <= i < |a| :: !(pattern <= (a + pattern + b)[i..])
    requires forall i | 0 <= i <= |b| :: !(pattern <= b[i..])
    ensures Replaced(a + pattern + b, pattern, text) == a + text + b
    decreases |a|
  {
    var s := a + pattern + b;
    if a == "" {
      NothingReplaced(b, pattern, text);
      assert s[|pattern|..] == b && s == pattern + b;
    } else {
      assert s[0..] == s;
      var rest := a[1..] + pattern + b;
      assert s[1..] == rest;
      forall i | 0 <= i < |a[1..]|
        ensures !(pattern <= rest[i..])
      {
        assert rest[i..] == s[i + 1..];
      }
      ReplacedOnce(a[1..], pattern, b, text);
      assert a == [a[0]] + a[1..];
    }
  }

  lemma {:induction false} NothingReplaced(s: string, pattern: string, text: string)
    requires pattern != "" && forall i | 0 <= i <= |s| :: !(pattern <= s[i..])
    ensures Replaced(s, pattern, text) == s
    decreases |s|
  {
    if s != "" {
      assert s[0..] == s;
      forall i | 0 <= i <= |s[1..]|
        ensures !(pattern <= s[1..][i..])
      {
        assert s[1..][i..] == s[i + 1..];
      }
      NothingReplaced(s[1..], pattern, text);
    }
  }

  lemma FieldReplaced(s: string, a: string, x: char, b: string, pattern: string, text: string)
    requires OneFieldIn(s, a, x, b) && pattern == ['%', x]
    ensures Replaced(s, pattern, text) == a + text + b
  {
    OtherFieldsAbsent(s, a, x, b, pattern, x);
    assert s == a + pattern + b;
    forall i | 0 <= i <= |b|
      ensures !(pattern <= b[i..])
    {
      assert b[i..] == s[|a| + 2 + i..];
    }
    ReplacedOnce(a, pattern, b, text);
  }

  // ----- what a word is -----

  /** The field letters with a meaning of their own. */
  ghost predicate DecidedByLetter(s: string, a: string, x: char, b: string, ctx: EntryCtx) {
    var kind, whole := Classified(s, ctx), a == "" && b == "";
    && (x in {'d', 'D', 'n', 'N', 'v', 'm'} ==> kind == Words([]))
    && (x == 'f' ==> kind == File)
    && (x == 'u' ==> kind == Url)
    && (x == 'F' ==> kind == if whole then FileList else Bad(ListInsideArgument))
    && (x == 'U' ==> kind == if whole then UrlList else Bad(ListInsideArgument))
    && (x == 'c' && whole ==> kind == Words([ctx.name]))
    && (x == 'k' && whole ==> kind == Words([ctx.filename]))
    && (x == 'i' && whole ==> kind == Words(if ctx.icon == "" then [] else ["--icon", ctx.icon]))
    && (x !in {'d', 'D', 'n', 'N', 'v', 'm', 'f', 'u', 'F', 'U'} && !(x in {'c', 'k', 'i'} && whole) ==> kind == Words([s]))
  }

  /** The one field of a word decides what the word is, wherever it stands: a deprecated one drops the word, a file or URL
      is filled in place, a list field and the name, icon and path must be the whole word, and anything else is literal. */
  lemma FieldDecides(s: string, a: string, x: char, b: string, ctx: EntryCtx)
    requires OneFieldIn(s, a, x, b)
    ensures DecidedByLetter(s, a, x, b, ctx)
  {
    EscapeAbsent(s);
    DeprecatedIff(s, a, x, b);
    FileFieldsIff(s, a, x, b);
    WholeWordsIff(s, a, x, b);
  }

  lemma DeprecatedIff(s: string, a: string, x: char, b: string)
    requires OneFieldIn(s, a, x, b)
    ensures HasDeprecated(s) <==> x in {'d', 'D', 'n', 'N', 'v', 'm'}
  {
    FieldLetters();
    OtherFieldsAbsent(s, a, x, b, "%d", 'd');
    OtherFieldsAbsent(s, a, x, b, "%D", 'D');
    OtherFieldsAbsent(s, a, x, b, "%n", 'n');
    OtherFieldsAbsent(s, a, x, b, "%N", 'N');
    OtherFieldsAbsent(s, a, x, b, "%v", 'v');
    OtherFieldsAbsent(s, a, x, b, "%m", 'm');
  }

  lemma FileFieldsIff(s: string, a: string, x: char, b: string)
    requires OneFieldIn(s, a, x, b)
    ensures (Contains(s, "%f") <==> x == 'f') && (Contains(s, "%F") <==> x == 'F')
    ensures (Contains(s, "%u") <==> x == 'u') && (Contains(s, "%U") <==> x == 'U')
  {
    FieldLetters();
    OtherFieldsAbsent(s, a, x, b, "%f", 'f');
    OtherFieldsAbsent(s, a, x, b, "%F", 'F');
    OtherFieldsAbsent(s, a, x, b, "%u", 'u');
    OtherFieldsAbsent(s, a, x, b, "%U", 'U');
  }

  lemma WholeWordsIff(s: string, a: string, x: char, b: string)
    requires s == a + ['%', x] + b
    ensures var whole := a == "" && b == "";
            && (s == "%F" <==> x == 'F' && whole) && (s == "%U" <==> x == 'U' && whole)
            && (s == "%c" <==> x == 'c' && whole) && (s == "%k" <==> x == 'k' && whole) && (s == "%i" <==> x == 'i' && whole)
  {
    FieldLetters();
    WholeField(s, a, x, b);
  }

  lemma FieldLetters()
    ensures "%d" == ['%', 'd'] && "%D" == ['%', 'D'] && "%n" == ['%', 'n'] && "%N" == ['%', 'N']
    ensures "%v" == ['%', 'v'] && "%m" == ['%', 'm'] && "%f" == ['%', 'f'] && "%F" == ['%', 'F']
    ensures "%u" == ['%', 'u'] && "%U" == ['%', 'U'] && "%c" == ['%', 'c'] && "%k" == ['%', 'k'] && "%i" == ['%', 'i']
  {
  }

  lemma WholeField(s: string, a: string, x: char, b: string)
    requires s == a + ['%', x] + b
    ensures forall y: char :: s == ['%', y] <==> y == x && a == "" && b == ""
  {
    forall y: char
      ensures s == ['%', y] <==> y == x && a == "" && b == ""
    {
      if s == ['%', y] {
        assert |s| == 2 && |a| == 0 && |b| == 0;
        assert s[1] == x;
      }
    }
  }

  /** Two fields in one word are too many. */
  lemma TwoFieldsAreRefused(s: string, i: nat, j: nat, ctx: EntryCtx)
    requires NoEscape(s) && FieldAt(s, i) && FieldAt(s, j) && i < j
    ensures Classified(s, ctx) == Bad(ManyFields)
  {
    TwoFields(s, i, j);
  }

  /** `%%` stands for one percent sign. */
  lemma PercentSign(a: string, b: string, ctx: EntryCtx)
    requires '%' !in a && '%' !in b
    ensures Classified(a + "%%" + b, ctx) == Words([a + "%" + b])
  {
    var s, pattern := a + "%%" + b, "%%";
    assert pattern == ['%', '%'];
    CountWithoutFields(a, b);
    assert pattern <= s[|a|..] by { PatternAt(s, pattern, '%', |a|); }
    forall i | 0 <= i < |a|
      ensures !(pattern <= s[i..])
    {
      PatternAt(s, pattern, '%', i);
      assert s[i] == a[i] && a[i] in a;
    }
    NoPattern(b, pattern);
    ReplacedOnce(a, pattern, b, "%");
  }

  lemma {:induction false} CountWithoutFields(a: string, b: string)
    requires '%' !in a && '%' !in b
    ensures FieldCount(a + "%%" + b) == 0
    decreases |a|
  {
    var s := a + "%%" + b;
    if a == "" {
      assert s[2..] == b;
      NoFieldCodes(b);
    } else {
      assert s[0] == a[0] && a[0] in a && s[1..] == a[1..] + "%%" + b;
      CountWithoutFields(a[1..], b);
    }
  }

  // ----- the command line -----

  /** The line with `words` in the place of its `i`-th word, and every other word expanded. */
  function WithWords(exec: seq<string>, i: nat, words: seq<string>, ctx: EntryCtx): seq<string>
    requires 1 <= i < |exec|
  {
    [exec[0]] + (PlainWords(exec[1..i], ctx) + words + PlainWords(exec[i + 1..], ctx))
  }

  lemma AcceptedWord(exec: seq<string>, args: seq<string>, ctx: EntryCtx, i: nat)
    requires 1 <= i < |exec| && Generated(exec, args, ctx).Ok?
    ensures !Classified(exec[i], ctx).Bad? && FieldCount(exec[i]) <= 1
  {
    AcceptedIff(exec, args, ctx);
    assert exec[i] == exec[1..][i - 1];
  }

  /** A file field passes the argument on and a URL field its URL, in the place of the field, whether it is a word of its
      own or part of one. For several arguments a field that is a word of its own gives one command line each, with its
      argument in that place; one inside a longer word is left as it is. Without arguments the word goes. */
  lemma FieldInPlace(exec: seq<string>, args: seq<string>, ctx: EntryCtx, i: nat, a: string, field: string, b: string,
                     texts: seq<string>)
    requires 1 <= i < |exec| && (field == "%f" || field == "%u") && exec[i] == a + field + b && NoEscape(exec[i])
    requires |texts| == |args| && forall k | 0 <= k < |args| :: texts[k] == if field == "%f" then args[k] else Path2Url(args[k])
    requires Generated(exec, args, ctx).Ok?
    ensures |args| == 0 ==> Generated(exec, args, ctx).value == Single(WithWords(exec, i, [], ctx))
    ensures |args| == 1 ==> Generated(exec, args, ctx).value == Single(WithWords(exec, i, [a + texts[0] + b], ctx))
    ensures |args| > 1 && a + b != "" ==> Generated(exec, args, ctx).value == Single(WithWords(exec, i, [exec[i]], ctx))
    ensures |args| > 1 && a + b == "" ==>
              Generated(exec, args, ctx).value
              == Multi(seq(|args|, k requires 0 <= k < |args| => WithWords(exec, i, [texts[k]], ctx)))
  {
    var p := FieldExpanded(exec, args, ctx, i, a, field, b);
    var before, after := PlainWords(exec[1..i], ctx), PlainWords(exec[i + 1..], ctx);
    if |args| > 1 && a + b == "" {
      assert exec[i] == field;
      forall k | 0 <= k < |args|
        ensures Instance(exec[0], p, args[k]) == WithWords(exec, i, [texts[k]], ctx)
      {
        InstanceInPlace(exec[0], p, before, after, args[k], field, texts[k]);
      }
    } else if |args| > 1 {
      assert |exec[i]| > 2;
    }
  }

  /** The expansion of a line around its single-valued field. */
  lemma FieldExpanded(exec: seq<string>, args: seq<string>, ctx: EntryCtx, i: nat, a: string, field: string, b: string)
    returns (p: Progress)
    requires 1 <= i < |exec| && (field == "%f" || field == "%u") && exec[i] == a + field + b && NoEscape(exec[i])
    requires Generated(exec, args, ctx).Ok?
    ensures ExpandAll(NOTHING, exec[1..], args, ctx) == Ok(p)
    ensures p.field == Some(exec[i]) && p.at == Some(|PlainWords(exec[1..i], ctx)|)
    ensures args == [] ==> p.out == PlainWords(exec[1..i], ctx) + [] + PlainWords(exec[i + 1..], ctx)
    ensures |args| == 1 ==>
              p.out == PlainWords(exec[1..i], ctx) + [a + (if field == "%f" then args[0] else Path2Url(args[0])) + b]
                       + PlainWords(exec[i + 1..], ctx)
    ensures |args| > 1 ==> p.out == PlainWords(exec[1..i], ctx) + [exec[i]] + PlainWords(exec[i + 1..], ctx)
  {
    AcceptedWord(exec, args, ctx, i);
    FilledInPlace(exec[i], args, ctx, a, b, field);
    assert exec[1..][..i - 1] == exec[1..i] && exec[1..][i..] == exec[i + 1..];
    ExpandsField(NOTHING, exec[1..], args, ctx, i - 1);
    p := ExpandAll(NOTHING, exec[1..], args, ctx).value;
  }

  lemma FilledInPlace(tok: string, args: seq<string>, ctx: EntryCtx, a: string, b: string, field: string)
    requires (field == "%f" || field == "%u") && tok == a + field + b && NoEscape(tok) && FieldCount(tok) <= 1
    ensures IsField(Classified(tok, ctx)) && IsSingle(Classified(tok, ctx))
    ensures args == [] ==> FieldFilled(tok, args, ctx) == []
    ensures |args| == 1 ==>
              FieldFilled(tok, args, ctx) == [a + (if field == "%f" then args[0] else Path2Url(args[0])) + b]
    ensures |args| > 1 ==> FieldFilled(tok, args, ctx) == [tok]
  {
    FieldLetters();
    var x := field[1];
    assert OneFieldIn(tok, a, x, b);
    FieldDecides(tok, a, x, b, ctx);
    if |args| == 1 {
      FieldReplaced(tok, a, x, b, field, if field == "%f" then args[0] else Path2Url(args[0]));
    }
  }

  lemma InstanceInPlace(command: string, p: Progress, before: seq<string>, after: seq<string>, arg: string,
                        field: string, text: string)
    requires p.field == Some(field) && p.at == Some(|before|) && p.out == before + [field] + after
    requires (field == "%f" || field == "%u") && text == if field == "%f" then arg else Path2Url(arg)
    ensures Instance(command, p, arg) == [command] + (before + [text] + after)
  {
    WholeReplaced(field, text);
    FieldLetters();
    assert p.out[|before| := text] == before + [text] + after;
  }

  /** A line without a file or URL field takes no arguments, and its words are expanded one by one. */
  lemma PlainLine(exec: seq<string>, args: seq<string>, ctx: EntryCtx)
    requires exec != [] && forall t | t in exec[1..] :: Classified(t, ctx).Words?
    ensures Generated(exec, args, ctx)
            == if args == [] then Ok(Single([exec[0]] + PlainWords(exec[1..], ctx))) else Err(NoArguments)
  {
    PlainWordsOnly(NOTHING, exec[1..], args, ctx);
    assert [] + PlainWords(exec[1..], ctx) == PlainWords(exec[1..], ctx);
  }

  lemma {:induction false} PlainWordsOnly(p: Progress, toks: seq<string>, args: seq<string>, ctx: EntryCtx)
    requires forall t | t in toks :: Classified(t, ctx).Words?
    ensures ExpandAll(p, toks, args, ctx) == Ok(p.(out := p.out + PlainWords(toks, ctx)))
    decreases |toks|
  {
    if toks == [] {
      assert p.out + [] == p.out;
    } else {
      assert toks[0] in toks && forall t | t in toks[1..] :: t in toks;
      var words := Classified(toks[0], ctx).words;
      PlainWordsOnly(p.(out := p.out + words), toks[1..], args, ctx);
      ConcatAssociates(p.out, words, PlainWords(toks[1..], ctx));
    }
  }

  // ----- URLs -----

  /** A letter, then letters, digits, `+`, `-` and `.` up to a colon. */
  ghost predicate SchemeUpTo(s: string, k: nat) {
    && 0 < k < |s| && s[k] == ':' && IsAsciiAlphabetic(s[0])
    && forall j | 1 <= j < k :: IsAsciiAlphanumeric(s[j]) || s[j] in {'+', '-', '.'}
  }

  lemma {:induction false} SchemeRestIff(s: string)
    ensures SchemeRest(s) <==>
            exists k :: 0 <= k < |s| && s[k] == ':' && forall j | 0 <= j < k :: IsAsciiAlphanumeric(s[j]) || s[j] in {'+', '-', '.'}
  {
    if s != "" && s[0] != ':' {
      SchemeRestIff(s[1..]);
      if SchemeRest(s) {
        var k :| 0 <= k < |s[1..]| && s[1..][k] == ':'
                 && forall j | 0 <= j < k :: IsAsciiAlphanumeric(s[1..][j]) || s[1..][j] in {'+', '-', '.'};
        assert s[k + 1] == ':';
        assert forall j | 0 < j < k + 1 :: s[j] == s[1..][j - 1];
      }
      if k :| 0 <= k < |s| && s[k] == ':' && forall j | 0 <= j < k :: IsAsciiAlphanumeric(s[j]) || s[j] in {'+', '-', '.'} {
        assert s[1..][k - 1] == ':';
        assert forall j | 0 <= j < k - 1 :: s[1..][j] == s[j + 1];
      }
    } else if s != "" {
      assert s[0] == ':';
    }
  }

  lemma SchemeIff(s: string)
    ensures HasUriScheme(s) <==> exists k: nat :: SchemeUpTo(s, k)
  {
    if s != "" {
      SchemeRestIff(s[1..]);
      if HasUriScheme(s) {
        var k :| 0 <= k < |s[1..]| && s[1..][k] == ':'
                 && forall j | 0 <= j < k :: IsAsciiAlphanumeric(s[1..][j]) || s[1..][j] in {'+', '-', '.'};
        assert forall j | 0 < j < k + 1 :: s[j] == s[1..][j - 1];
        assert SchemeUpTo(s, k + 1);
      }
      if k: nat :| SchemeUpTo(s, k) {
        assert s[1..][k - 1] == ':';
        assert forall j | 0 <= j < k - 1 :: s[1..][j] == s[j + 1];
      }
    }
  }

  /** A character of an encoded path: a letter, a digit, one of `_.~-/`, or part of an escape. */
  predicate IsUrlChar(c: char) {
    IsAsciiAlphanumeric(c) || c in {'_', '.', '~', '-', '/', '%'}
  }

  lemma {:induction false} EncodedChars(bytes: seq<Byte>)
    ensures forall c | c in PercentEncoded(bytes) :: IsUrlChar(c)
    decreases |bytes|
  {
    if bytes != [] {
      EncodedChars(bytes[1..]);
    }
  }

  lemma {:induction false} PlainPathStays(s: string)
    requires forall c | c in s :: IsUrlChar(c) && c != '%'
    ensures PercentEncoded(Encode(s)) == s
  {
    if s != "" {
      assert s[0] in s && forall c | c in s[1..] :: c in s;
      PlainPathStays(s[1..]);
      assert EncodeChar(s[0]) == [s[0] as int];
      assert Encode(s)[1..] == Encode(s[1..]) && s == [s[0]] + s[1..];
    }
  }

  /** What has a scheme is passed on as it is; anything else becomes a `file` URL of URL characters that decodes to the
      bytes of the path, and a path of nothing but unreserved characters stands in it unchanged. */
  lemma UrlMeaning(arg: string)
    ensures (exists k: nat :: SchemeUpTo(arg, k)) ==> Path2Url(arg) == arg
    ensures !(exists k: nat :: SchemeUpTo(arg, k)) ==>
              exists path ::
                && Path2Url(arg) == "file://" + path
                && PercentDecoded(path) == Some(Encode(arg))
                && (forall c | c in path :: IsUrlChar(c))
                && ((forall c | c in arg :: IsUrlChar(c) && c != '%') ==> path == arg)
  {
    SchemeIff(arg);
    var path := PercentEncoded(Encode(arg));
    PercentRoundTrip(Encode(arg));
    EncodedChars(Encode(arg));
    if forall c | c in arg :: IsUrlChar(c) && c != '%' {
      PlainPathStays(arg);
    }
    assert "file://" + path == "file://" + path;
  }
}
