/** Shell quoting (`templates.rs`, `prepare.rs`) and the daemon's reply line (`daemon.rs`), against the token recognition
    and quote removal of the POSIX.1-2017 Shell Command Language, sections 2.2 and 2.3. */
module Shell {
  import opened Wrappers
  import opened VarNames
  import opened Strings

  // ----- what wsmr prints -----

  predicate IsSafe(c: char) {
    || IsAsciiAlphanumeric(c)
    || c == '@' || c == '%' || c == '+' || c == '=' || c == ':' || c == ',' || c == '.' || c == '/' || c == '-'
    || c == '_'
  }

  predicate AllSafe(s: string) {
    forall i | 0 <= i < |s| :: IsSafe(s[i])
  }

  const QUOTED_QUOTE := "'\"'\"'"

  function ReplaceQuotes(s: string): string {
    if s == "" then "" else (if s[0] == '\'' then QUOTED_QUOTE else [s[0]]) + ReplaceQuotes(s[1..])
  }

  /** `shlex_quote`; `sh_quote` is the same function. */
  function Quote(s: string): string {
    if s == "" then "''"
    else if AllSafe(s) then s
    else "'" + ReplaceQuotes(s) + "'"
  }

  /** `shlex_join` */
  function ShlexJoin(parts: seq<string>): string {
    Join(seq(|parts|, i requires 0 <= i < |parts| => Quote(parts[i])), " ")
  }

  /** The reply of `handle_app` for the resolved argument vectors. */
  function Reply(argvs: seq<seq<string>>): string {
    if |argvs| == 1 then "exec " + ShlexJoin(argvs[0])
    else
      Join(seq(|argvs|, i requires 0 <= i < |argvs| => ShlexJoin(argvs[i]) + " &") + ["wait"], " ")
  }

  // ----- what a shell reads -----

  datatype Token = Word(text: string) | Amp

  datatype Mode = Plain | Single | Double

  function Flush(word: Option<string>, rest: Option<seq<Token>>): Option<seq<Token>> {
    match (word, rest)
    case (_, None) => None
    case (None, _) => rest
    case (Some(w), Some(tokens)) => Some([Word(w)] + tokens)
  }

  function Grow(word: Option<string>, text: string): Option<string> {
    if word.Some? then Some(word.value + text) else Some(text)
  }

  /** Starts another operator, an expansion or a pathname pattern. */
  predicate IsSpecial(c: char) {
    || c == '|' || c == ';' || c == '<' || c == '>' || c == '(' || c == ')' || c == '$' || c == '`'
    || c == '*' || c == '?' || c == '[' || c == '\n'
  }

  predicate EscapesInDouble(c: char) {
    c == '$' || c == '`' || c == '"' || c == '\\'
  }

  /** Words and `&` operators of `s`; `None` where an expansion, another operator or a comment would begin, or where a
      quotation does not end. `word` is the word under way, if one has begun. */
  function Lex(s: string, mode: Mode, word: Option<string>): Option<seq<Token>>
    decreases |s|
  {
    if s == "" then
      if mode == Plain then Flush(word, Some([])) else None
    else
      var c, rest := s[0], s[1..];
      match mode
      case Single => if c == '\'' then Lex(rest, Plain, word) else Lex(rest, Single, Grow(word, [c]))
      case Double =>
        if c == '"' then Lex(rest, Plain, word)
        else if c == '$' || c == '`' then None
        else if c == '\\' && rest != "" && EscapesInDouble(rest[0]) then Lex(rest[1..], Double, Grow(word, [rest[0]]))
        else if c == '\\' && rest != "" && rest[0] == '\n' then Lex(rest[1..], Double, word)
        else Lex(rest, Double, Grow(word, [c]))
      case Plain =>
        if c == ' ' || c == '\t' then Flush(word, Lex(rest, Plain, None))
        else if c == '&' then
          match Lex(rest, Plain, None)
          case Some(tokens) => Flush(word, Some([Amp] + tokens))
          case None => None
        else if c == '\'' then Lex(rest, Single, Grow(word, ""))
        else if c == '"' then Lex(rest, Double, Grow(word, ""))
        else if c == '\\' then
          if rest == "" then None
          else if rest[0] == '\n' then Lex(rest[1..], Plain, word)
          else Lex(rest[1..], Plain, Grow(word, [rest[0]]))
        else if IsSpecial(c) || (word.None? && (c == '#' || c == '~')) then None
        else Lex(rest, Plain, Grow(word, [c]))
  }

  function WordsOf(argv: seq<string>): seq<Token> {
    seq(|argv|, i requires 0 <= i < |argv| => Word(argv[i]))
  }

  // ----- quoting is undone -----

  lemma SafeIsOrdinary(c: char)
    requires IsSafe(c)
    ensures !IsSpecial(c) && c != ' ' && c != '\t' && c != '&' && c != '\'' && c != '"' && c != '\\' && c != '#' && c != '~'
  {
  }

  lemma {:induction false} LexSafe(s: string, rest: string, word: Option<string>)
    requires AllSafe(s) && (s != "" || word.Some?)
    ensures Lex(s + rest, Plain, word) == Lex(rest, Plain, Grow(word, s))
    decreases |s|
  {
    if s == "" {
      assert s + rest == rest;
      assert word.value + s == word.value;
    } else {
      SafeIsOrdinary(s[0]);
      assert (s + rest)[1..] == s[1..] + rest;
      LexSafe(s[1..], rest, Grow(word, [s[0]]));
      assert Grow(Grow(word, [s[0]]), s[1..]) == Grow(word, s) by {
        assert s == [s[0]] + s[1..];
        if word.Some? {
          ConcatAssociates(word.value, [s[0]], s[1..]);
        }
      }
    }
  }

  lemma LexQuotedQuote(rest: string, word: string)
    ensures Lex(QUOTED_QUOTE + rest, Single, Some(word)) == Lex(rest, Single, Some(word + "'"))
  {
    var s := QUOTED_QUOTE + rest;
    assert s[1..] == "\"'\"'" + rest;
    assert s[1..][1..] == "'\"'" + rest;
    assert s[1..][1..][1..] == "\"'" + rest;
    assert s[1..][1..][1..][1..] == "'" + rest;
    assert s[1..][1..][1..][1..][1..] == rest;
    assert Lex(s, Single, Some(word)) == Lex(s[1..], Plain, Some(word));
    assert Lex(s[1..], Plain, Some(word)) == Lex(s[1..][1..], Double, Some(word + ""));
    assert word + "" == word;
    assert Lex(s[1..][1..], Double, Some(word)) == Lex(s[1..][1..][1..], Double, Some(word + "'"));
    assert Lex(s[1..][1..][1..], Double, Some(word + "'")) == Lex(s[1..][1..][1..][1..], Plain, Some(word + "'"));
    assert word + "'" + "" == word + "'";
  }

  lemma {:induction false} LexReplaced(s: string, rest: string, word: string)
    ensures Lex(ReplaceQuotes(s) + "'" + rest, Single, Some(word)) == Lex(rest, Plain, Some(word + s))
    decreases |s|
  {
    if s == "" {
      assert (ReplaceQuotes(s) + "'" + rest)[1..] == rest;
      assert word + s == word;
    } else {
      var tail := ReplaceQuotes(s[1..]) + "'" + rest;
      assert word + s == word + [s[0]] + s[1..];
      LexReplaced(s[1..], rest, word + [s[0]]);
      if s[0] == '\'' {
        assert ReplaceQuotes(s) + "'" + rest == QUOTED_QUOTE + tail;
        LexQuotedQuote(tail, word);
        assert "'" == [s[0]];
      } else {
        assert ReplaceQuotes(s) + "'" + rest == [s[0]] + tail;
        assert ([s[0]] + tail)[1..] == tail;
      }
    }
  }

  lemma LexEmptyQuotes(rest: string, word: Option<string>)
    ensures Lex("''" + rest, Plain, word) == Lex(rest, Plain, Grow(word, ""))
  {
    var s := "''" + rest;
    assert s[1..] == "'" + rest;
    assert s[1..][1..] == rest;
  }

  lemma LexQuoted(s: string, rest: string, word: Option<string>)
    ensures Lex("'" + ReplaceQuotes(s) + "'" + rest, Plain, word) == Lex(rest, Plain, Grow(word, s))
  {
    var body := ReplaceQuotes(s) + "'" + rest;
    assert "'" + ReplaceQuotes(s) + "'" + rest == "'" + body;
    assert ("'" + body)[1..] == body;
    var begun := if word.Some? then word.value else "";
    assert begun + "" == begun && "" + s == s;
    LexReplaced(s, rest, begun);
  }

  /** One quoted argument is read as exactly that argument, as a word of its own or the end of one. */
  lemma LexQuote(s: string, rest: string, word: Option<string>)
    ensures Lex(Quote(s) + rest, Plain, word) == Lex(rest, Plain, Grow(word, s))
  {
    if s == "" {
      LexEmptyQuotes(rest, word);
    } else if AllSafe(s) {
      LexSafe(s, rest, word);
    } else {
      LexQuoted(s, rest, word);
    }
  }

  function Prefixed(words: seq<Token>, tokens: Option<seq<Token>>): Option<seq<Token>> {
    if tokens.Some? then Some(words + tokens.value) else None
  }

  lemma LexWordThenSpace(s: string, rest: string)
    ensures Lex(Quote(s) + (" " + rest), Plain, None) == Prefixed([Word(s)], Lex(rest, Plain, None))
  {
    LexQuote(s, " " + rest, None);
    assert (" " + rest)[1..] == rest;
  }

  lemma LexLastWord(s: string, rest: string)
    requires rest == "" || rest[0] == ' '
    ensures Lex(Quote(s) + rest, Plain, None) == Prefixed([Word(s)], Lex(rest, Plain, None))
  {
    if rest == "" {
      LexQuote(s, rest, None);
    } else {
      assert rest == " " + rest[1..];
      LexWordThenSpace(s, rest[1..]);
      assert Lex(rest, Plain, None) == Lex(rest[1..], Plain, None);
    }
  }

  lemma JoinedParts(parts: seq<string>)
    requires |parts| > 1
    ensures ShlexJoin(parts) == Quote(parts[0]) + " " + ShlexJoin(parts[1..])
    ensures WordsOf(parts) == [Word(parts[0])] + WordsOf(parts[1..])
  {
    var quoted := seq(|parts|, i requires 0 <= i < |parts| => Quote(parts[i]));
    assert quoted[1..] == seq(|parts| - 1, i requires 0 <= i < |parts| - 1 => Quote(parts[1..][i]));
  }

  lemma {:induction false} LexJoined(parts: seq<string>, rest: string)
    requires parts != [] && (rest == "" || rest[0] == ' ')
    ensures Lex(ShlexJoin(parts) + rest, Plain, None) == Prefixed(WordsOf(parts), Lex(rest, Plain, None))
    decreases |parts|
  {
    if |parts| == 1 {
      assert WordsOf(parts) == [Word(parts[0])];
      assert ShlexJoin(parts) == Quote(parts[0]);
      LexLastWord(parts[0], rest);
    } else {
      var more := ShlexJoin(parts[1..]) + rest;
      JoinedParts(parts);
      assert ShlexJoin(parts) + rest == Quote(parts[0]) + (" " + more);
      LexWordThenSpace(parts[0], more);
      LexJoined(parts[1..], rest);
      var tail := Lex(rest, Plain, None);
      if tail.Some? {
        ConcatAssociates([Word(parts[0])], WordsOf(parts[1..]), tail.value);
      }
    }
  }

  /** A shell recognises the words of a joined argument list as exactly that list. */
  lemma ShlexRoundTrip(parts: seq<string>)
    ensures Lex(ShlexJoin(parts), Plain, None) == Some(WordsOf(parts))
  {
    if parts == [] {
      assert WordsOf(parts) == [];
    } else {
      LexJoined(parts, "");
      assert ShlexJoin(parts) + "" == ShlexJoin(parts);
      assert WordsOf(parts) + [] == WordsOf(parts);
    }
  }

  /** An assignment line of the loader's variables file is one word whose value is the quoted string. */
  lemma AssignmentRoundTrip(name: string, value: string)
    requires name != "" && AllSafe(name)
    ensures Lex(name + "=" + Quote(value), Plain, None) == Some([Word(name + "=" + value)])
  {
    var head := name + "=";
    assert AllSafe(head);
    assert name + "=" + Quote(value) == head + Quote(value);
    LexSafe(head, Quote(value), None);
    LexQuote(value, "", Some(head));
    assert Quote(value) + "" == Quote(value);
    assert [Word(head + value)] + [] == [Word(head + value)];
  }

  // ----- the daemon's reply -----

  datatype Command = Exec(argv: seq<string>) | Background(argvs: seq<seq<string>>)

  /** Commands in front of an `&`, and the words after the last one; an empty command is not allowed. */
  function Groups(tokens: seq<Token>): Option<(seq<seq<string>>, seq<string>)>
    decreases |tokens|
  {
    if tokens == [] then Some(([], []))
    else
      match Groups(tokens[1..])
      case None => None
      case Some((groups, last)) =>
        match tokens[0]
        case Amp => Some(([[]] + groups, last))
        case Word(w) => if groups == [] then Some(([], [w] + last)) else Some(([[w] + groups[0]] + groups[1..], last))
  }

  function ReadCommand(text: string): Option<Command> {
    match Lex(text, Plain, None)
    case None => None
    case Some(tokens) =>
      match Groups(tokens)
      case None => None
      case Some((groups, last)) =>
        if groups == [] && last != [] && last[0] == "exec" then Some(Exec(last[1..]))
        else if last == ["wait"] && [] !in groups then Some(Background(groups))
        else None
  }

  lemma {:induction false} GroupsOfWords(argv: seq<string>, rest: seq<Token>)
    requires Groups(rest).Some?
    ensures var (groups, last) := Groups(rest).value;
            Groups(WordsOf(argv) + rest)
            == if groups == [] then Some(([], argv + last)) else Some(([argv + groups[0]] + groups[1..], last))
    decreases |argv|
  {
    var (groups, last) := Groups(rest).value;
    if argv == [] {
      assert WordsOf(argv) + rest == rest;
      assert argv + last == last;
      if groups != [] {
        assert argv + groups[0] == groups[0] && [groups[0]] + groups[1..] == groups;
      }
    } else {
      GroupsOfWords(argv[1..], rest);
      var tokens := WordsOf(argv) + rest;
      assert tokens[0] == Word(argv[0]) && tokens[1..] == WordsOf(argv[1..]) + rest;
      assert argv == [argv[0]] + argv[1..];
      ConcatAssociates([argv[0]], argv[1..], last);
      if groups != [] {
        ConcatAssociates([argv[0]], argv[1..], groups[0]);
      }
    }
  }

  function BackgroundTokens(argvs: seq<seq<string>>): seq<Token>
    decreases |argvs|
  {
    if argvs == [] then [Word("wait")] else WordsOf(argvs[0]) + ([Amp] + BackgroundTokens(argvs[1..]))
  }

  function BackgroundText(argvs: seq<seq<string>>): string {
    Join(seq(|argvs|, i requires 0 <= i < |argvs| => ShlexJoin(argvs[i]) + " &") + ["wait"], " ")
  }

  lemma {:induction false} GroupsOfBackground(argvs: seq<seq<string>>)
    ensures Groups(BackgroundTokens(argvs)) == Some((argvs, ["wait"]))
    decreases |argvs|
  {
    if argvs == [] {
      assert BackgroundTokens(argvs)[1..] == [];
      assert ["wait"] + [] == ["wait"];
    } else {
      GroupsOfBackground(argvs[1..]);
      var rest := [Amp] + BackgroundTokens(argvs[1..]);
      assert rest[1..] == BackgroundTokens(argvs[1..]);
      assert Groups(rest) == Some(([[]] + argvs[1..], ["wait"]));
      GroupsOfWords(argvs[0], rest);
      assert ([[]] + argvs[1..])[1..] == argvs[1..];
      assert argvs[0] + [] == argvs[0] && [argvs[0]] + argvs[1..] == argvs;
    }
  }

  lemma LexArgv(argv: seq<string>, rest: string)
    requires rest != "" && rest[0] == ' ' && Lex(rest, Plain, None).Some?
    ensures Lex(ShlexJoin(argv) + rest, Plain, None) == Some(WordsOf(argv) + Lex(rest, Plain, None).value)
  {
    if argv == [] {
      assert ShlexJoin(argv) + rest == rest;
      assert WordsOf(argv) + Lex(rest, Plain, None).value == Lex(rest, Plain, None).value;
    } else {
      LexJoined(argv, rest);
    }
  }

  lemma LexAmp(rest: string)
    requires Lex(rest, Plain, None).Some?
    ensures Lex(" & " + rest, Plain, None) == Some([Amp] + Lex(rest, Plain, None).value)
  {
    var s := " & " + rest;
    var amp, blank := "& " + rest, " " + rest;
    assert s[1..] == amp && amp[1..] == blank && blank[1..] == rest;
    assert Lex(blank, Plain, None) == Lex(rest, Plain, None);
    assert Lex(amp, Plain, None) == Some([Amp] + Lex(rest, Plain, None).value);
  }

  lemma LexWait()
    ensures Lex("wait", Plain, None) == Some([Word("wait")])
  {
    assert AllSafe("wait");
    LexSafe("wait", "", None);
    assert "wait" + "" == "wait";
    assert [Word("wait")] + [] == [Word("wait")];
  }

  lemma {:induction false} LexBackground(argvs: seq<seq<string>>)
    ensures Lex(BackgroundText(argvs), Plain, None) == Some(BackgroundTokens(argvs))
    decreases |argvs|
  {
    var parts := seq(|argvs|, i requires 0 <= i < |argvs| => ShlexJoin(argvs[i]) + " &") + ["wait"];
    if argvs == [] {
      assert parts == ["wait"];
      LexWait();
    } else {
      assert parts[1..] == seq(|argvs| - 1, i requires 0 <= i < |argvs| - 1 => ShlexJoin(argvs[1..][i]) + " &") + ["wait"];
      var more := BackgroundText(argvs[1..]);
      assert BackgroundText(argvs) == ShlexJoin(argvs[0]) + (" & " + more);
      LexBackground(argvs[1..]);
      LexAmp(more);
      LexArgv(argvs[0], " & " + more);
    }
  }

  lemma ExecRoundTrip(argv: seq<string>)
    ensures ReadCommand("exec " + ShlexJoin(argv)) == Some(Exec(argv))
  {
    var all := ["exec"] + argv;
    assert "exec " + ShlexJoin(argv) == "exec" + (" " + ShlexJoin(argv));
    assert AllSafe("exec");
    LexSafe("exec", " " + ShlexJoin(argv), None);
    assert (" " + ShlexJoin(argv))[1..] == ShlexJoin(argv);
    ShlexRoundTrip(argv);
    assert [Word("exec")] + WordsOf(argv) == WordsOf(all);
    GroupsOfWords(all, []);
    assert WordsOf(all) + [] == WordsOf(all) && all + [] == all;
    assert all[1..] == argv;
  }

  /** The daemon's reply parses back into the resolved argument vectors in order, if and only if no vector of a
      multi-instance reply is empty. */
  lemma ReplyRoundTrip(argvs: seq<seq<string>>)
    ensures ReadCommand(Reply(argvs)) == Some(if |argvs| == 1 then Exec(argvs[0]) else Background(argvs))
            <==> |argvs| == 1 || [] !in argvs
  {
    if |argvs| == 1 {
      ExecRoundTrip(argvs[0]);
    } else {
      LexBackground(argvs);
      GroupsOfBackground(argvs);
      assert "wait"[0] != "exec"[0];
    }
  }
}
