/** How systemd reads the command of an `ExecStart=` setting: words, quotes and C escapes as in systemd.syntax(7), then
    specifiers as in systemd.unit(5), then variables as in systemd.service(5), "Command lines". */
module CommandLine {
  import opened Wrappers
  import opened Strings
  import opened Shell

  // ----- words, quotes and escapes -----

  function HexRun(s: string, digits: nat, value: nat): (r: Option<nat>)
    ensures r.Some? ==> digits <= |s|
  {
    if digits == 0 then Some(value)
    else if s == "" then None
    else
      match HexDigit(s[0])
      case Some(d) => HexRun(s[1..], digits - 1, 16 * value + d)
      case None => None
  }

  function OctalRun(s: string, digits: nat, value: nat): (r: Option<nat>)
    ensures r.Some? ==> digits <= |s|
  {
    if digits == 0 then Some(value)
    else if s == "" || !('0' <= s[0] <= '7') then None
    else OctalRun(s[1..], digits - 1, 8 * value + (s[0] as int - '0' as int))
  }

  /** The character of a code; a surrogate has none and stands for itself by the replacement character. */
  function Coded(code: Option<nat>, limit: nat, length: nat): Option<(char, nat)> {
    if code.None? || code.value == 0 || code.value >= limit then None
    else if code.value < 0xD800 || 0xE000 <= code.value < 0x11_0000 then Some((code.value as char, length))
    else Some(('\U{FFFD}', length))
  }

  function Letter(c: char): Option<char> {
    match c
    case 'a' => Some('\U{7}')
    case 'b' => Some('\U{8}')
    case 'f' => Some('\U{C}')
    case 'n' => Some('\n')
    case 'r' => Some('\r')
    case 't' => Some('\t')
    case 'v' => Some('\U{B}')
    case 's' => Some(' ')
    case '\\' => Some('\\')
    case '"' => Some('"')
    case '\'' => Some('\'')
    case _ => None
  }

  function NumberLength(c: char): nat {
    if c == 'u' then 5 else if c == 'U' then 9 else 3
  }

  /** The number after `x`, `u` or `U`, or an octal number. */
  function Number(s: string): (r: Option<nat>)
    requires s != ""
    ensures r.Some? ==> NumberLength(s[0]) <= |s|
  {
    if s[0] == 'x' || s[0] == 'u' || s[0] == 'U' then HexRun(s[1..], NumberLength(s[0]) - 1, 0) else OctalRun(s, 3, 0)
  }

  /** The character an escape stands for and how many characters follow its backslash; `None` is no escape. */
  function Unescape(s: string): (r: Option<(char, nat)>)
    ensures r.Some? ==> 1 <= r.value.1 <= |s|
  {
    if s == "" then None
    else if Letter(s[0]).Some? then Some((Letter(s[0]).value, 1))
    else
      Coded(Number(s), if s[0] == 'u' then 0x1_0000 else if s[0] == 'U' then 0x11_0000 else 0x100, NumberLength(s[0]))
  }

  predicate IsBlank(c: char) {
    c == ' ' || c == '\t' || c == '\n' || c == '\r'
  }

  predicate EndsWord(s: string) {
    s == "" || IsBlank(s[0])
  }

  function WordDone(word: Option<string>, rest: Option<seq<string>>): Option<seq<string>> {
    if rest.None? || word.None? then rest else Some([word.value] + rest.value)
  }

  /** The words of a command; `None` where a quotation does not end or a lone semicolon starts a second command. What is
      no escape is kept as it stands. */
  function Words(s: string, mode: Mode, word: Option<string>): Option<seq<string>>
    decreases |s|
  {
    if s == "" then
      if mode == Plain then WordDone(word, Some([])) else None
    else
      var c, rest := s[0], s[1..];
      if c == '\\' then
        if rest == "" then
          if mode == Plain then WordDone(Grow(word, "\\"), Some([])) else None
        else if mode == Plain && word.None? && rest[0] == ';' && EndsWord(rest[1..]) then
          WordDone(Some(";"), Words(rest[1..], Plain, None))
        else
          match Unescape(rest)
          case Some((d, n)) => Words(rest[n..], mode, Grow(word, [d]))
          case None => Words(rest[1..], mode, Grow(word, [c, rest[0]]))
      else
        match mode
        case Single => if c == '\'' then Words(rest, Plain, word) else Words(rest, Single, Grow(word, [c]))
        case Double => if c == '"' then Words(rest, Plain, word) else Words(rest, Double, Grow(word, [c]))
        case Plain =>
          if IsBlank(c) then WordDone(word, Words(rest, Plain, None))
          else if c == ';' && word.None? && EndsWord(rest) then None
          else if c == '\'' then Words(rest, Single, Grow(word, ""))
          else if c == '"' then Words(rest, Double, Grow(word, ""))
          else Words(rest, Plain, Grow(word, [c]))
  }

  // ----- specifiers and variables -----

  /** What the words are completed from: the specifiers of the unit and the machine, the variables of the unit's
      environment, and the words a variable falls into when it stands alone. */
  datatype Host = Host(specifiers: map<char, string>, variables: map<string, string>, lists: map<string, seq<string>>)

  function Specified(host: Host, w: string): string
    decreases |w|
  {
    if w == "" then ""
    else if w[0] == '%' && |w| > 1 && w[1] == '%' then "%" + Specified(host, w[2..])
    else if w[0] == '%' && |w| > 1 && w[1] in host.specifiers then
      host.specifiers[w[1]] + Specified(host, w[2..])
    else [w[0]] + Specified(host, w[1..])
  }

  function VariableValue(host: Host, name: string): string {
    if name in host.variables then host.variables[name] else ""
  }

  function Substituted(host: Host, w: string): string
    decreases |w|
  {
    if w == "" then ""
    else if w[0] != '$' || |w| == 1 then [w[0]] + Substituted(host, w[1..])
    else if w[1] == '$' then "$" + Substituted(host, w[2..])
    else if w[1] == '{' then
      var end := 2 + IndexOf(w[2..], '}');
      if end == |w| then w else VariableValue(host, w[2..end]) + Substituted(host, w[end + 1..])
    else ['$'] + Substituted(host, w[1..])
  }

  /** `$NAME` as a word of its own. */
  predicate IsVariable(w: string) {
    w != "" && w[0] == '$' && (|w| == 1 || (w[1] != '{' && w[1] != '$'))
  }

  function Expanded(host: Host, w: string): seq<string> {
    if IsVariable(w) then if w[1..] in host.lists then host.lists[w[1..]] else []
    else [Substituted(host, w)]
  }

  function SpecifiedAll(host: Host, words: seq<string>): seq<string> {
    if words == [] then [] else [Specified(host, words[0])] + SpecifiedAll(host, words[1..])
  }

  function ExpandedAll(host: Host, words: seq<string>): seq<string> {
    if words == [] then [] else Expanded(host, words[0]) + ExpandedAll(host, words[1..])
  }

  function Completed(host: Host, words: seq<string>): seq<string> {
    ExpandedAll(host, SpecifiedAll(host, words))
  }

  /** The arguments a program is started with. */
  function Arguments(host: Host, command: string): Option<seq<string>> {
    match Words(command, Plain, None)
    case None => None
    case Some(words) => Some(Completed(host, words))
  }

  // ----- what systemd leaves alone -----

  predicate OneLine(s: string) {
    '\n' !in s && '\r' !in s
  }

  /** A backslash that starts an escape in front of what follows it; a closing quote follows the last character. */
  predicate HasEscape(a: string) {
    exists i | 0 <= i < |a| :: a[i] == '\\' && Unescape(a[i + 1..] + "'").Some?
  }

  predicate HasSpecifier(host: Host, a: string) {
    exists i | 0 <= i < |a| - 1 :: a[i] == '%' && (a[i + 1] == '%' || a[i + 1] in host.specifiers)
  }

  predicate HasSubstitution(a: string)
    decreases |a|
  {
    if |a| < 2 then false
    else if a[0] != '$' then HasSubstitution(a[1..])
    else if a[1] == '{' then IndexOf(a[2..], '}') < |a| - 2
    else a[1] == '$' || HasSubstitution(a[1..])
  }

  predicate HasVariable(a: string) {
    IsVariable(a) || HasSubstitution(a)
  }

  /** Text without any character that systemd ever treats specially inside an argument. */
  predicate IsPlain(a: string) {
    OneLine(a) && '\\' !in a && '%' !in a && '$' !in a
  }

  /** Nothing in the argument means anything to systemd. */
  predicate Untouched(host: Host, a: string) {
    OneLine(a) && !HasEscape(a) && !HasSpecifier(host, a) && !HasVariable(a)
  }

  // ----- counting characters -----

  function Count(s: string, c: char): nat {
    if s == "" then 0 else (if s[0] == c then 1 else 0) + Count(s[1..], c)
  }

  function CountAll(words: seq<string>, c: char): nat {
    if words == [] then 0 else Count(words[0], c) + CountAll(words[1..], c)
  }

  lemma {:induction false} CountConcat(s: string, t: string, c: char)
    ensures Count(s + t, c) == Count(s, c) + Count(t, c)
    decreases |s|
  {
    if s == "" {
      assert s + t == t;
    } else {
      assert (s + t)[1..] == s[1..] + t;
      CountConcat(s[1..], t, c);
    }
  }

  lemma {:induction false} CountAllConcat(a: seq<string>, b: seq<string>, c: char)
    ensures CountAll(a + b, c) == CountAll(a, c) + CountAll(b, c)
    decreases |a|
  {
    if a == [] {
      assert a + b == b;
    } else {
      assert (a + b)[1..] == a[1..] + b;
      CountAllConcat(a[1..], b, c);
    }
  }

  lemma {:induction false} CountAbsent(s: string, c: char)
    ensures Count(s, c) == 0 <==> c !in s
    decreases |s|
  {
    if s != "" {
      CountAbsent(s[1..], c);
      assert s == [s[0]] + s[1..];
    }
  }

  // ----- the words cannot gain a backslash -----

  function WordCount(word: Option<string>, c: char): nat {
    if word.Some? then Count(word.value, c) else 0
  }

  /** The words read from `s` after `word` hold no more backslashes than were there, and no line break unless a
      backslash was spent on it. */
  ghost predicate Bounded(words: seq<string>, word: Option<string>, s: string) {
    && CountAll(words, '\\') <= WordCount(word, '\\') + Count(s, '\\')
    && (CountAll(words, '\\') == WordCount(word, '\\') + Count(s, '\\') && OneLine(s) && (word.Some? ==> OneLine(word.value))
        ==> forall w | w in words :: OneLine(w))
  }

  lemma BoundedGrow(words: seq<string>, word: Option<string>, text: string, head: string, tail: string)
    requires Bounded(words, Grow(word, text), tail)
    requires Count(text, '\\') <= Count(head, '\\')
    requires OneLine(head) && Count(text, '\\') == Count(head, '\\') ==> OneLine(text)
    ensures Bounded(words, word, head + tail)
  {
    CountConcat(head, tail, '\\');
    if word.Some? {
      CountConcat(word.value, text, '\\');
    }
    if OneLine(head + tail) {
      assert forall c | c in head || c in tail :: c in head + tail;
    }
  }

  lemma BoundedDone(words: seq<string>, word: Option<string>, head: string, tail: string)
    requires Bounded(words, None, tail)
    ensures Bounded(if word.Some? then [word.value] + words else words, word, head + tail)
  {
    CountConcat(head, tail, '\\');
    if OneLine(head + tail) {
      assert forall c | c in tail :: c in head + tail;
    }
  }

  lemma EscapeSpends(rest: string)
    requires Unescape(rest).Some?
    ensures var (d, n) := Unescape(rest).value;
            && Count([d], '\\') <= Count("\\" + rest[..n], '\\')
            && ((d == '\n' || d == '\r') ==> Count([d], '\\') < Count("\\" + rest[..n], '\\'))
  {
    var n := Unescape(rest).value.1;
    CountConcat("\\", rest[..n], '\\');
  }

  lemma {:induction false} WordsAreBounded(s: string, mode: Mode, word: Option<string>)
    requires Words(s, mode, word).Some?
    ensures Bounded(Words(s, mode, word).value, word, s)
    decreases |s|
  {
    if s != "" {
      var c, rest := s[0], s[1..];
      var words := Words(s, mode, word).value;
      assert s == [c] + rest;
      if c == '\\' && rest != "" {
        BackslashIsBounded(s, mode, word);
      } else if c == '\\' {
        BoundedGrow(words, word, "\\", s, "");
      } else if mode == Plain && IsBlank(c) {
        WordsAreBounded(rest, Plain, None);
        BoundedDone(Words(rest, Plain, None).value, word, [c], rest);
      } else if (mode == Plain || mode == Single) && c == '\'' {
        WordsAreBounded(rest, if mode == Plain then Single else Plain, if mode == Plain then Grow(word, "") else word);
        QuoteIsBounded(words, word, c, rest);
      } else if (mode == Plain || mode == Double) && c == '"' {
        WordsAreBounded(rest, if mode == Plain then Double else Plain, if mode == Plain then Grow(word, "") else word);
        QuoteIsBounded(words, word, c, rest);
      } else {
        WordsAreBounded(rest, mode, Grow(word, [c]));
        BoundedGrow(words, word, [c], [c], rest);
      }
    }
  }

  lemma QuoteIsBounded(words: seq<string>, word: Option<string>, c: char, rest: string)
    requires Bounded(words, word, rest) || Bounded(words, Grow(word, ""), rest)
    requires c != '\\'
    ensures Bounded(words, word, [c] + rest)
  {
    CountConcat([c], rest, '\\');
    if word.Some? {
      assert word.value + "" == word.value;
    }
    if OneLine([c] + rest) {
      assert forall d | d in rest :: d in [c] + rest;
    }
  }

  lemma {:induction false} BackslashIsBounded(s: string, mode: Mode, word: Option<string>)
    requires |s| > 1 && s[0] == '\\' && Words(s, mode, word).Some?
    ensures Bounded(Words(s, mode, word).value, word, s)
    decreases |s|, 0
  {
    var rest, words := s[1..], Words(s, mode, word).value;
    if mode == Plain && word.None? && rest[0] == ';' && EndsWord(rest[1..]) {
      WordsAreBounded(rest[1..], Plain, None);
      assert s == "\\;" + rest[1..];
      BoundedSemicolon(Words(rest[1..], Plain, None).value, rest[1..]);
    } else if Unescape(rest).Some? {
      var (d, n) := Unescape(rest).value;
      WordsAreBounded(rest[n..], mode, Grow(word, [d]));
      EscapeSpends(rest);
      assert s == ("\\" + rest[..n]) + rest[n..];
      BoundedGrow(words, word, [d], "\\" + rest[..n], rest[n..]);
    } else {
      WordsAreBounded(rest[1..], mode, Grow(word, ['\\', rest[0]]));
      assert s == ['\\', rest[0]] + rest[1..];
      BoundedGrow(words, word, ['\\', rest[0]], ['\\', rest[0]], rest[1..]);
    }
  }

  lemma BoundedSemicolon(words: seq<string>, tail: string)
    requires Bounded(words, None, tail)
    ensures Bounded([";"] + words, None, "\\;" + tail)
  {
    CountConcat("\\;", tail, '\\');
    assert Count("\\;", '\\') == 1 && Count(";", '\\') == 0;
  }

  // ----- reading a quoted argument -----

  /** What stands between the opening quote of an argument and the end of the line. */
  function Inside(s: string, rest: string): string {
    ReplaceQuotes(s) + "'" + rest
  }

  lemma InsideStep(s: string, rest: string)
    ensures s != "" && s[0] != '\'' ==> Inside(s, rest) == [s[0]] + Inside(s[1..], rest)
    ensures s == "" || s[0] == '\'' ==> |Inside(s, rest)| > 0 && Inside(s, rest)[0] == '\''
  {
    if s != "" && s[0] != '\'' {
      assert [s[0]] + ReplaceQuotes(s[1..]) + "'" + rest == [s[0]] + Inside(s[1..], rest);
    }
  }

  lemma {:induction false} HexRunInside(s: string, rest: string, digits: nat, value: nat)
    ensures HexRun(Inside(s, rest), digits, value) == HexRun(s + "'", digits, value)
    ensures HexRun(s + "'", digits, value).Some? ==> digits <= |s| && '\'' !in s[..digits]
    decreases digits
  {
    if digits > 0 {
      InsideStep(s, rest);
      if s != "" && s[0] != '\'' {
        HexRunInside(s[1..], rest, digits - 1, 16 * value + if HexDigit(s[0]).Some? then HexDigit(s[0]).value else 0);
        assert (s + "'")[1..] == s[1..] + "'";
        assert Inside(s, rest)[1..] == Inside(s[1..], rest);
        if HexRun(s + "'", digits, value).Some? {
          assert s[..digits] == [s[0]] + s[1..][..digits - 1];
        }
      }
    }
  }

  lemma {:induction false} OctalRunInside(s: string, rest: string, digits: nat, value: nat)
    ensures OctalRun(Inside(s, rest), digits, value) == OctalRun(s + "'", digits, value)
    ensures OctalRun(s + "'", digits, value).Some? ==> digits <= |s| && '\'' !in s[..digits]
    decreases digits
  {
    if digits > 0 {
      InsideStep(s, rest);
      if s != "" && s[0] != '\'' && '0' <= s[0] <= '7' {
        OctalRunInside(s[1..], rest, digits - 1, 8 * value + (s[0] as int - '0' as int));
        assert (s + "'")[1..] == s[1..] + "'";
        assert Inside(s, rest)[1..] == Inside(s[1..], rest);
        if OctalRun(s + "'", digits, value).Some? {
          assert s[..digits] == [s[0]] + s[1..][..digits - 1];
        }
      }
    }
  }

  lemma NumberInside(s: string, rest: string)
    requires s != "" && s[0] != '\''
    ensures Number(Inside(s, rest)) == Number(s + "'")
    ensures Number(s + "'").Some? ==> NumberLength(s[0]) <= |s| && '\'' !in s[..NumberLength(s[0])]
  {
    InsideStep(s, rest);
    var n := NumberLength(s[0]);
    assert (s + "'")[1..] == s[1..] + "'" && Inside(s, rest)[1..] == Inside(s[1..], rest);
    if s[0] == 'x' || s[0] == 'u' || s[0] == 'U' {
      HexRunInside(s[1..], rest, n - 1, 0);
      if Number(s + "'").Some? {
        assert s[..n] == [s[0]] + s[1..][..n - 1];
      }
    } else {
      OctalRunInside(s, rest, 3, 0);
    }
  }

  /** An escape is decided by the argument and the quote that follows it. */
  lemma UnescapeInside(s: string, rest: string)
    ensures Unescape(Inside(s, rest)) == Unescape(s + "'")
    ensures Unescape(s + "'").Some? && s != "" && s[0] != '\'' ==>
              Unescape(s + "'").value.1 <= |s| && '\'' !in s[..Unescape(s + "'").value.1]
  {
    InsideStep(s, rest);
    if s != "" && s[0] != '\'' {
      NumberInside(s, rest);
    }
  }

  lemma {:induction false} InsideSkip(s: string, rest: string, n: nat)
    requires n <= |s| && '\'' !in s[..n]
    ensures Inside(s, rest) == s[..n] + Inside(s[n..], rest)
    decreases n
  {
    if n > 0 {
      assert s[0] == s[..n][0];
      InsideStep(s, rest);
      assert s[1..][..n - 1] == s[..n][1..] && s[1..][n - 1..] == s[n..];
      InsideSkip(s[1..], rest, n - 1);
      assert s[..n] == [s[0]] + s[1..][..n - 1];
    }
  }

  function Before(c: char, rest: Option<string>): Option<string> {
    if rest.Some? then Some([c] + rest.value) else None
  }

  /** The argument as systemd sees it, while a backslash costs no backslash; `None` once one is lost. */
  function Reads(s: string): Option<string>
    decreases |s|
  {
    if s == "" then Some("")
    else if s[0] == '\\' && Unescape(s[1..] + "'").Some? then
      var (d, n) := Unescape(s[1..] + "'").value;
      if d == '\\' && s[1..] != "" && s[1] != '\\' && s[1] != '\'' && 1 + n <= |s| then Before('\\', Reads(s[1 + n..])) else None
    else Before(s[0], Reads(s[1..]))
  }

  lemma {:induction false} ReadsFacts(s: string, c: char)
    requires Reads(s).Some?
    ensures Count(Reads(s).value, c) <= Count(s, c)
    decreases |s|
  {
    if s != "" {
      if s[0] == '\\' && Unescape(s[1..] + "'").Some? {
        var n := Unescape(s[1..] + "'").value.1;
        ReadsFacts(s[1 + n..], c);
        CountConcat(s[1..1 + n], s[1 + n..], c);
        assert s[1..] == s[1..1 + n] + s[1 + n..];
      } else {
        ReadsFacts(s[1..], c);
      }
    }
  }

  lemma HasEscapeStep(s: string)
    requires s != ""
    ensures HasEscape(s) <==> (s[0] == '\\' && Unescape(s[1..] + "'").Some?) || HasEscape(s[1..])
  {
    if HasEscape(s[1..]) {
      var i :| 0 <= i < |s[1..]| && s[1..][i] == '\\' && Unescape(s[1..][i + 1..] + "'").Some?;
      assert s[1..][i + 1..] == s[i + 2..] && s[i + 1] == '\\';
    }
    if HasEscape(s) {
      var i :| 0 <= i < |s| && s[i] == '\\' && Unescape(s[i + 1..] + "'").Some?;
      if i > 0 {
        assert s[1..][i - 1] == '\\' && s[1..][i..] == s[i + 1..];
      }
    }
  }

  /** An argument is read as itself exactly if it holds no escape. */
  lemma {:induction false} ReadsExactlyIff(s: string)
    ensures Reads(s) == Some(s) <==> !HasEscape(s)
    ensures Reads(s).Some? ==> |Reads(s).value| <= |s|
    decreases |s|
  {
    if s != "" {
      HasEscapeStep(s);
      if s[0] == '\\' && Unescape(s[1..] + "'").Some? {
        var n := Unescape(s[1..] + "'").value.1;
        if 1 + n <= |s| {
          ReadsExactlyIff(s[1 + n..]);
        }
      } else {
        ReadsExactlyIff(s[1..]);
        assert s == [s[0]] + s[1..];
      }
    }
  }

  lemma QuotedQuoteIsRead(rest: string, word: string)
    ensures Words(QUOTED_QUOTE + rest, Single, Some(word)) == Words(rest, Single, Some(word + "'"))
  {
    var s := QUOTED_QUOTE + rest;
    assert s[1..] == "\"'\"'" + rest;
    assert s[1..][1..] == "'\"'" + rest;
    assert s[1..][1..][1..] == "\"'" + rest;
    assert s[1..][1..][1..][1..] == "'" + rest;
    assert s[1..][1..][1..][1..][1..] == rest;
    assert Words(s, Single, Some(word)) == Words(s[1..], Plain, Some(word));
    assert word + "" == word;
    assert Words(s[1..], Plain, Some(word)) == Words(s[1..][1..], Double, Some(word));
    assert Words(s[1..][1..], Double, Some(word)) == Words(s[1..][1..][1..], Double, Some(word + "'"));
    assert Words(s[1..][1..][1..], Double, Some(word + "'")) == Words(s[1..][1..][1..][1..], Plain, Some(word + "'"));
    assert word + "'" + "" == word + "'";
  }

  lemma InsideQuote(s: string, rest: string)
    requires s != "" && s[0] == '\''
    ensures Inside(s, rest) == QUOTED_QUOTE + Inside(s[1..], rest)
  {
    assert QUOTED_QUOTE + ReplaceQuotes(s[1..]) + "'" + rest == QUOTED_QUOTE + Inside(s[1..], rest);
  }

  /** An escape inside the quotes. */
  lemma EscapeIsRead(s: string, rest: string, word: string)
    requires s != "" && s[0] == '\\' && Unescape(s[1..] + "'").Some?
    ensures var (d, n) := Unescape(s[1..] + "'").value;
            var tail := Inside(s[1..], rest);
            && Unescape(tail) == Some((d, n))
            && Words(Inside(s, rest), Single, Some(word)) == Words(tail[n..], Single, Some(word + [d]))
            && (1 + n <= |s| && s[1] != '\'' ==> tail[n..] == Inside(s[1 + n..], rest))
  {
    var (d, n) := Unescape(s[1..] + "'").value;
    InsideStep(s, rest);
    UnescapeInside(s[1..], rest);
    assert Inside(s, rest)[1..] == Inside(s[1..], rest);
    if 1 + n <= |s| && s[1] != '\'' {
      InsideSkip(s[1..], rest, n);
      assert s[1..][n..] == s[1 + n..];
    }
  }

  /** A backslash inside the quotes that starts no escape. */
  lemma BackslashIsRead(s: string, rest: string, word: string)
    requires s != "" && s[0] == '\\' && Unescape(s[1..] + "'").None?
    ensures |s| > 1 && s[1] != '\'' && s[1] != '\\'
    ensures Words(Inside(s, rest), Single, Some(word)) == Words(Inside(s[2..], rest), Single, Some(word + s[..2]))
  {
    InsideStep(s, rest);
    UnescapeInside(s[1..], rest);
    assert "" + "'" == "'";
    assert |s| > 1 && s[1..][0] == s[1];
    InsideStep(s[1..], rest);
    assert Inside(s, rest)[1..] == Inside(s[1..], rest);
    assert s[1..][1..] == s[2..];
    assert Inside(s[1..], rest)[1..] == Inside(s[2..], rest);
    assert ['\\', s[1]] == s[..2];
  }

  /** Any other character inside the quotes. */
  lemma CharIsRead(s: string, rest: string, word: string)
    requires s != "" && s[0] != '\\'
    ensures Words(Inside(s, rest), Single, Some(word)) == Words(Inside(s[1..], rest), Single, Some(word + [s[0]]))
  {
    if s[0] == '\'' {
      InsideQuote(s, rest);
      QuotedQuoteIsRead(Inside(s[1..], rest), word);
      assert "'" == [s[0]];
    } else {
      InsideStep(s, rest);
      assert Inside(s, rest)[1..] == Inside(s[1..], rest);
    }
  }

  lemma EndIsRead(rest: string, word: string)
    ensures Words(Inside("", rest), Single, Some(word)) == Words(rest, Plain, Some(word))
  {
    assert Inside("", rest) == "'" + rest;
    assert ("'" + rest)[1..] == rest;
  }

  lemma ReadsAhead(s: string)
    requires s != "" && s[0] == '\\' && Unescape(s[1..] + "'").None? && |s| > 1 && s[1] != '\\'
    ensures Reads(s) == Before(s[0], Before(s[1], Reads(s[2..])))
  {
    assert s[1..][0] == s[1] && s[1..][1..] == s[2..];
  }

  lemma {:induction false} InsideIsRead(s: string, rest: string, word: string)
    requires Reads(s).Some?
    ensures Words(Inside(s, rest), Single, Some(word)) == Words(rest, Plain, Some(word + Reads(s).value))
    decreases |s|
  {
    if s == "" {
      EndIsRead(rest, word);
      assert word + "" == word;
    } else if s[0] == '\\' && Unescape(s[1..] + "'").Some? {
      var (d, n) := Unescape(s[1..] + "'").value;
      EscapeIsRead(s, rest, word);
      InsideIsRead(s[1 + n..], rest, word + [d]);
      ConcatAssociates(word, [d], Reads(s[1 + n..]).value);
    } else if s[0] == '\\' {
      BackslashIsRead(s, rest, word);
      ReadsAhead(s);
      InsideIsRead(s[2..], rest, word + s[..2]);
      assert word + Reads(s).value == word + s[..2] + Reads(s[2..]).value;
    } else {
      CharIsRead(s, rest, word);
      InsideIsRead(s[1..], rest, word + [s[0]]);
      ConcatAssociates(word, [s[0]], Reads(s[1..]).value);
    }
  }

  lemma {:induction false} ReplaceKeepsCount(s: string, c: char)
    requires c !in " '\""
    ensures Count(ReplaceQuotes(s), c) == Count(s, c)
    decreases |s|
  {
    if s != "" {
      ReplaceKeepsCount(s[1..], c);
      CountConcat(if s[0] == '\'' then QUOTED_QUOTE else [s[0]], ReplaceQuotes(s[1..]), c);
      assert Count(QUOTED_QUOTE, c) == 0 by {
        CountAbsent(QUOTED_QUOTE, c);
      }
      assert Count([s[0]], c) == if s[0] == c then 1 else 0;
    }
  }

  lemma InsideCount(s: string, rest: string, c: char)
    requires c !in " '\""
    ensures Count(Inside(s, rest), c) == Count(s, c) + Count(rest, c)
  {
    ReplaceKeepsCount(s, c);
    CountConcat(ReplaceQuotes(s) + "'", rest, c);
    CountConcat(ReplaceQuotes(s), "'", c);
    assert Count("'", c) == 0;
  }

  lemma LosingEscape(s: string)
    requires s != "" && s[0] == '\\' && Unescape(s[1..] + "'").Some? && Unescape(s[1..] + "'").value.0 == '\\'
    ensures |s| > 1 && s[1] != '\'' && 1 + Unescape(s[1..] + "'").value.1 <= |s|
  {
    assert "" + "'" == "'";
    UnescapeInside(s[1..], "");
  }

  /** An escape that gives no backslash, or spends two for one, loses one. */
  lemma EscapeLoses(s: string, rest: string, word: string)
    requires s != "" && s[0] == '\\' && Unescape(s[1..] + "'").Some?
    requires Unescape(s[1..] + "'").value.0 == '\\' ==> |s| > 1 && s[1] == '\\'
    requires Words(Inside(s, rest), Single, Some(word)).Some?
    ensures CountAll(Words(Inside(s, rest), Single, Some(word)).value, '\\')
            < Count(word, '\\') + Count(s, '\\') + Count(rest, '\\')
  {
    var (d, n) := Unescape(s[1..] + "'").value;
    EscapeIsRead(s, rest, word);
    WordsAreBounded(Inside(s[1..], rest)[n..], Single, Some(word + [d]));
    LossOfOne(Words(Inside(s, rest), Single, Some(word)).value, s, rest, word, d, n);
  }

  lemma LossOfOne(words: seq<string>, s: string, rest: string, word: string, d: char, n: nat)
    requires s != "" && s[0] == '\\' && 1 <= n <= |Inside(s[1..], rest)|
    requires d == '\\' ==> |s| > 1 && s[1] == '\\'
    requires CountAll(words, '\\') <= Count(word + [d], '\\') + Count(Inside(s[1..], rest)[n..], '\\')
    ensures CountAll(words, '\\') < Count(word, '\\') + Count(s, '\\') + Count(rest, '\\')
  {
    CountConcat(word, [d], '\\');
    TailCount(s[1..], rest, n);
    assert Count([d], '\\') == if d == '\\' then 1 else 0;
  }

  lemma TailCount(s: string, rest: string, n: nat)
    requires 1 <= n <= |Inside(s, rest)|
    ensures Count(Inside(s, rest)[n..], '\\') <= Count(s, '\\') + Count(rest, '\\')
    ensures s != "" && s[0] == '\\' ==> Count(Inside(s, rest)[n..], '\\') < Count(s, '\\') + Count(rest, '\\')
  {
    var tail := Inside(s, rest);
    InsideCount(s, rest, '\\');
    InsideStep(s, rest);
    assert tail == tail[..n] + tail[n..];
    CountConcat(tail[..n], tail[n..], '\\');
    assert tail[..n][0] == tail[0];
  }

  /** Once a backslash is lost, it stays lost, whatever the rest of the line is taken for. */
  lemma {:induction false} InsideLoses(s: string, rest: string, word: string)
    requires Reads(s).None? && Words(Inside(s, rest), Single, Some(word)).Some?
    ensures CountAll(Words(Inside(s, rest), Single, Some(word)).value, '\\')
            < Count(word, '\\') + Count(s, '\\') + Count(rest, '\\')
    decreases |s|
  {
    if s[0] == '\\' && Unescape(s[1..] + "'").Some? {
      var (d, n) := Unescape(s[1..] + "'").value;
      if d == '\\' {
        LosingEscape(s);
      }
      if d == '\\' && s[1] != '\\' {
        EscapeIsRead(s, rest, word);
        InsideLoses(s[1 + n..], rest, word + [d]);
        CountSteps(word, s, 1 + n, d);
      } else {
        EscapeLoses(s, rest, word);
      }
    } else if s[0] == '\\' {
      BackslashIsRead(s, rest, word);
      ReadsAhead(s);
      InsideLoses(s[2..], rest, word + s[..2]);
      CountConcat(word, s[..2], '\\');
      CountConcat(s[..2], s[2..], '\\');
      assert s == s[..2] + s[2..];
    } else {
      CharIsRead(s, rest, word);
      InsideLoses(s[1..], rest, word + [s[0]]);
      CountConcat(word, [s[0]], '\\');
      assert Count([s[0]], '\\') == 0;
    }
  }

  lemma CountSteps(word: string, s: string, n: nat, d: char)
    requires 1 <= n <= |s| && s[0] == '\\'
    ensures Count(word + [d], '\\') + Count(s[n..], '\\') <= Count(word, '\\') + Count(s, '\\')
  {
    CountConcat(word, [d], '\\');
    CountConcat(s[..n], s[n..], '\\');
    assert s == s[..n] + s[n..] && s[..n][0] == '\\';
  }

  // ----- reading a printed list of arguments -----

  lemma {:induction false} SafeIsRead(s: string, rest: string, word: Option<string>)
    requires AllSafe(s) && (s != "" || word.Some?)
    ensures Words(s + rest, Plain, word) == Words(rest, Plain, Grow(word, s))
    decreases |s|
  {
    if s == "" {
      assert s + rest == rest;
      assert word.value + s == word.value;
    } else {
      SafeIsOrdinary(s[0]);
      assert !IsBlank(s[0]) && s[0] != ';';
      assert (s + rest)[1..] == s[1..] + rest;
      SafeIsRead(s[1..], rest, Grow(word, [s[0]]));
      assert s == [s[0]] + s[1..];
      if word.Some? {
        ConcatAssociates(word.value, [s[0]], s[1..]);
      }
    }
  }

  lemma SafeReads(s: string)
    requires AllSafe(s)
    ensures '\\' !in s && Reads(s) == Some(s) && Count(s, '\\') == 0
  {
    if '\\' in s {
      var i :| 0 <= i < |s| && s[i] == '\\';
      SafeIsOrdinary(s[i]);
    }
    PlainReads(s);
    CountAbsent(s, '\\');
  }

  lemma PlainReads(s: string)
    requires '\\' !in s
    ensures Reads(s) == Some(s)
  {
    ReadsExactlyIff(s);
  }

  lemma QuotedStarts(s: string, rest: string)
    requires s != "" && !AllSafe(s)
    ensures Words(Quote(s) + rest, Plain, None) == Words(Inside(s, rest), Single, Some(""))
  {
    var all := Quote(s) + rest;
    assert all == "'" + Inside(s, rest);
    assert all[1..] == Inside(s, rest);
  }

  lemma QuoteIsRead(s: string, rest: string)
    requires Reads(s).Some?
    ensures Words(Quote(s) + rest, Plain, None) == Words(rest, Plain, Some(Reads(s).value))
  {
    if s == "" {
      var all := "''" + rest;
      assert all[1..] == "'" + rest && all[1..][1..] == rest;
    } else if AllSafe(s) {
      SafeReads(s);
      SafeIsRead(s, rest, None);
    } else {
      QuotedStarts(s, rest);
      InsideIsRead(s, rest, "");
      assert "" + Reads(s).value == Reads(s).value;
    }
  }

  lemma QuoteLoses(s: string, rest: string)
    requires Reads(s).None? && Words(Quote(s) + rest, Plain, None).Some?
    ensures CountAll(Words(Quote(s) + rest, Plain, None).value, '\\') < Count(s, '\\') + Count(rest, '\\')
  {
    if AllSafe(s) {
      SafeReads(s);
    } else {
      QuotedStarts(s, rest);
      InsideLoses(s, rest, "");
    }
  }

  function ReadAll(args: seq<string>): Option<seq<string>> {
    if args == [] then Some([])
    else
      match (Reads(args[0]), ReadAll(args[1..]))
      case (Some(a), Some(rest)) => Some([a] + rest)
      case _ => None
  }

  lemma QuoteCount(s: string, c: char)
    requires c !in " '\""
    ensures Count(Quote(s), c) == Count(s, c)
  {
    if s == "" {
      assert Count("''", c) == 0;
    } else if !AllSafe(s) {
      InsideCount(s, "", c);
      assert Quote(s) == "'" + Inside(s, "");
      CountConcat("'", Inside(s, ""), c);
      assert Count("'", c) == 0;
    }
  }

  /** Quoting and joining add nothing but quotes and blanks. */
  lemma {:induction false} JoinedCount(args: seq<string>, c: char)
    requires c !in " '\""
    ensures Count(ShlexJoin(args), c) == CountAll(args, c)
    decreases |args|
  {
    if |args| == 1 {
      assert ShlexJoin(args) == Quote(args[0]);
      QuoteCount(args[0], c);
      assert CountAll(args[1..], c) == 0;
    } else if args != [] {
      JoinedParts(args);
      JoinedCount(args[1..], c);
      QuoteCount(args[0], c);
      CountConcat(Quote(args[0]) + " ", ShlexJoin(args[1..]), c);
      CountConcat(Quote(args[0]), " ", c);
      assert Count(" ", c) == 0;
    }
  }

  lemma OneLineCount(s: string)
    ensures OneLine(s) <==> Count(s, '\n') == 0 && Count(s, '\r') == 0
  {
    CountAbsent(s, '\n');
    CountAbsent(s, '\r');
  }

  lemma OneLineAll(words: seq<string>)
    ensures (forall w | w in words :: OneLine(w)) <==> CountAll(words, '\n') == 0 && CountAll(words, '\r') == 0
  {
    AbsentFromAll(words, '\n');
    AbsentFromAll(words, '\r');
  }

  lemma JoinedOneLine(args: seq<string>)
    requires forall a | a in args :: OneLine(a)
    ensures OneLine(ShlexJoin(args))
  {
    JoinedCount(args, '\n');
    JoinedCount(args, '\r');
    OneLineAll(args);
    OneLineCount(ShlexJoin(args));
  }

  lemma {:induction false} JoinedEnds(args: seq<string>)
    requires args != []
    ensures var j := ShlexJoin(args); j != "" && j[|j| - 1] != '\\'
    decreases |args|
  {
    if |args| == 1 {
      assert ShlexJoin(args) == Quote(args[0]);
      if args[0] != "" && AllSafe(args[0]) {
        SafeIsOrdinary(args[0][|args[0]| - 1]);
      }
    } else {
      JoinedParts(args);
      JoinedEnds(args[1..]);
    }
  }

  lemma SpaceEndsWord(rest: string, word: string)
    ensures Words(" " + rest, Plain, Some(word)) == WordDone(Some(word), Words(rest, Plain, None))
  {
    assert (" " + rest)[1..] == rest;
  }

  /** Reading a printed list gives what each argument reads as, or else loses a backslash. */
  lemma {:induction false} JoinedIsRead(args: seq<string>)
    requires args != []
    ensures ReadAll(args).Some? ==> Words(ShlexJoin(args), Plain, None) == ReadAll(args)
    ensures ReadAll(args).None? && Words(ShlexJoin(args), Plain, None).Some? ==>
              CountAll(Words(ShlexJoin(args), Plain, None).value, '\\') < CountAll(args, '\\')
    decreases |args|
  {
    if |args| == 1 {
      assert ShlexJoin(args) == Quote(args[0]) == Quote(args[0]) + "";
      assert args[1..] == [] && CountAll(args[1..], '\\') == 0;
      if Reads(args[0]).Some? {
        QuoteIsRead(args[0], "");
        assert ReadAll(args[1..]) == Some([]);
      } else if Words(ShlexJoin(args), Plain, None).Some? {
        QuoteLoses(args[0], "");
      }
    } else {
      var tail := ShlexJoin(args[1..]);
      JoinedParts(args);
      assert ShlexJoin(args) == Quote(args[0]) + (" " + tail);
      if Reads(args[0]).Some? {
        QuoteIsRead(args[0], " " + tail);
        SpaceEndsWord(tail, Reads(args[0]).value);
        JoinedIsRead(args[1..]);
        ReadsFacts(args[0], '\\');
        var words := Words(tail, Plain, None);
        if words.Some? {
          assert ([Reads(args[0]).value] + words.value)[1..] == words.value;
        }
      } else if Words(ShlexJoin(args), Plain, None).Some? {
        QuoteLoses(args[0], " " + tail);
        JoinedCount(args[1..], '\\');
        CountConcat(" ", tail, '\\');
        assert Count(" ", '\\') == 0;
      }
    }
  }

  lemma {:induction false} ReadAllFacts(args: seq<string>, c: char)
    requires ReadAll(args).Some?
    ensures |ReadAll(args).value| == |args| && CountAll(ReadAll(args).value, c) <= CountAll(args, c)
    decreases |args|
  {
    if args != [] {
      ReadsFacts(args[0], c);
      ReadAllFacts(args[1..], c);
    }
  }

  lemma {:induction false} ReadAllExactlyIff(args: seq<string>)
    ensures ReadAll(args) == Some(args) <==> forall a | a in args :: !HasEscape(a)
    decreases |args|
  {
    if args != [] {
      ReadsExactlyIff(args[0]);
      ReadAllExactlyIff(args[1..]);
      assert args == [args[0]] + args[1..];
    }
  }

  // ----- completing the words -----

  /** No specifier and no variable stands for text with a `c`. */
  ghost predicate Without(host: Host, c: char) {
    && (forall k | k in host.specifiers :: c !in host.specifiers[k])
    && (forall k | k in host.variables :: c !in host.variables[k])
    && (forall k, w | k in host.lists && w in host.lists[k] :: c !in w)
  }

  /** Specifiers and variables stand for text that means nothing to systemd, backslashes aside. */
  ghost predicate Tame(host: Host) {
    Without(host, '%') && Without(host, '$') && Without(host, '\n') && Without(host, '\r')
  }

  lemma HasSpecifierStep(host: Host, w: string)
    requires w != ""
    ensures HasSpecifier(host, w)
            <==> (|w| > 1 && w[0] == '%' && (w[1] == '%' || w[1] in host.specifiers)) || HasSpecifier(host, w[1..])
  {
    if HasSpecifier(host, w[1..]) {
      var i :| 0 <= i < |w[1..]| - 1 && w[1..][i] == '%' && (w[1..][i + 1] == '%' || w[1..][i + 1] in host.specifiers);
      assert w[i + 1] == '%' && w[i + 2] == w[1..][i + 1];
    }
    if HasSpecifier(host, w) {
      var i :| 0 <= i < |w| - 1 && w[i] == '%' && (w[i + 1] == '%' || w[i + 1] in host.specifiers);
      if i > 0 {
        assert w[1..][i - 1] == '%' && w[1..][i] == w[i + 1];
      }
    }
  }

  lemma {:induction false} SpecifiedUntouched(host: Host, w: string)
    requires !HasSpecifier(host, w)
    ensures Specified(host, w) == w
    decreases |w|
  {
    if w != "" {
      HasSpecifierStep(host, w);
      SpecifiedUntouched(host, w[1..]);
      assert w == [w[0]] + w[1..];
    }
  }

  lemma {:induction false} SpecifiedCount(host: Host, w: string, c: char)
    requires Without(host, c)
    ensures Count(Specified(host, w), c) <= Count(w, c)
    ensures c == '%' && HasSpecifier(host, w) ==> Count(Specified(host, w), c) < Count(w, c)
    decreases |w|
  {
    if w != "" {
      HasSpecifierStep(host, w);
      if w[0] == '%' && |w| > 1 && w[1] == '%' {
        SpecifiedCount(host, w[2..], c);
        assert w[1..][1..] == w[2..];
      } else if w[0] == '%' && |w| > 1 && w[1] in host.specifiers {
        SpecifiedCount(host, w[2..], c);
        assert w[1..][1..] == w[2..];
        CountAbsent(host.specifiers[w[1]], c);
        CountConcat(host.specifiers[w[1]], Specified(host, w[2..]), c);
      } else {
        SpecifiedCount(host, w[1..], c);
      }
    }
  }

  lemma {:induction false} SpecifiedList(host: Host, words: seq<string>, c: char)
    requires Without(host, c)
    ensures CountAll(SpecifiedAll(host, words), c) <= CountAll(words, c)
    ensures c == '%' && CountAll(SpecifiedAll(host, words), c) == CountAll(words, c) ==>
              SpecifiedAll(host, words) == words && forall w | w in words :: !HasSpecifier(host, w)
    decreases |words|
  {
    if words != [] {
      SpecifiedCount(host, words[0], c);
      SpecifiedList(host, words[1..], c);
      if !HasSpecifier(host, words[0]) {
        SpecifiedUntouched(host, words[0]);
      }
      assert words == [words[0]] + words[1..];
    }
  }

  lemma {:induction false} SubstitutedUntouched(host: Host, w: string)
    requires !HasSubstitution(w)
    ensures Substituted(host, w) == w
    decreases |w|
  {
    if w != "" {
      assert w == [w[0]] + w[1..];
      if |w| == 1 || w[0] != '$' || (w[1] != '$' && w[1] != '{') {
        SubstitutedUntouched(host, w[1..]);
      }
    }
  }

  lemma {:induction false} SubstitutedCount(host: Host, w: string, c: char)
    requires Without(host, c)
    ensures Count(Substituted(host, w), c) <= Count(w, c)
    ensures c == '$' && HasSubstitution(w) ==> Count(Substituted(host, w), c) < Count(w, c)
    decreases |w|
  {
    if w != "" {
      if |w| == 1 || w[0] != '$' || (w[1] != '$' && w[1] != '{') {
        SubstitutedCount(host, w[1..], c);
      } else if w[1] == '$' {
        SubstitutedCount(host, w[2..], c);
        assert w[1..][1..] == w[2..];
      } else {
        var end := 2 + IndexOf(w[2..], '}');
        if end < |w| {
          SubstitutedCount(host, w[end + 1..], c);
          var value := VariableValue(host, w[2..end]);
          CountAbsent(value, c);
          CountConcat(value, Substituted(host, w[end + 1..]), c);
          assert w[1..] == w[1..end + 1] + w[end + 1..];
          CountConcat(w[1..end + 1], w[end + 1..], c);
        }
      }
    }
  }

  lemma {:induction false} AbsentFromAll(words: seq<string>, c: char)
    ensures CountAll(words, c) == 0 <==> forall w | w in words :: c !in w
    decreases |words|
  {
    if words != [] {
      CountAbsent(words[0], c);
      AbsentFromAll(words[1..], c);
      assert words == [words[0]] + words[1..];
    }
  }

  lemma ExpandedCount(host: Host, w: string, c: char)
    requires Without(host, c)
    ensures CountAll(Expanded(host, w), c) <= Count(w, c)
    ensures c == '$' && CountAll(Expanded(host, w), c) == Count(w, c) ==> Expanded(host, w) == [w] && !HasVariable(w)
  {
    if IsVariable(w) {
      AbsentFromAll(Expanded(host, w), c);
      assert c == '$' ==> Count(w, c) > 0;
    } else {
      SubstitutedCount(host, w, c);
      assert Expanded(host, w)[1..] == [];
      if !HasSubstitution(w) {
        SubstitutedUntouched(host, w);
      }
    }
  }

  lemma {:induction false} ExpandedList(host: Host, words: seq<string>, c: char)
    requires Without(host, c)
    ensures CountAll(ExpandedAll(host, words), c) <= CountAll(words, c)
    ensures c == '$' && CountAll(ExpandedAll(host, words), c) == CountAll(words, c) ==>
              ExpandedAll(host, words) == words && forall w | w in words :: !HasVariable(w)
    decreases |words|
  {
    if words != [] {
      ExpandedCount(host, words[0], c);
      ExpandedList(host, words[1..], c);
      CountAllConcat(Expanded(host, words[0]), ExpandedAll(host, words[1..]), c);
      assert words == [words[0]] + words[1..];
    }
  }

  /** Completing words adds no character that no specifier and no variable holds. */
  lemma CompletedCount(host: Host, words: seq<string>, c: char)
    requires Without(host, c)
    ensures CountAll(Completed(host, words), c) <= CountAll(words, c)
  {
    SpecifiedList(host, words, c);
    ExpandedList(host, SpecifiedAll(host, words), c);
  }

  /** Words that keep all their percent and dollar signs when they are completed are left as they are. */
  lemma CompletedUnchanged(host: Host, words: seq<string>)
    requires Tame(host)
    requires CountAll(Completed(host, words), '%') >= CountAll(words, '%')
    requires CountAll(Completed(host, words), '$') >= CountAll(words, '$')
    ensures Completed(host, words) == words && forall w | w in words :: !HasSpecifier(host, w) && !HasVariable(w)
  {
    var specified := SpecifiedAll(host, words);
    SpecifiedList(host, words, '%');
    ExpandedList(host, specified, '%');
    ExpandedList(host, specified, '$');
  }

  lemma PlainIsUntouched(host: Host, a: string)
    requires IsPlain(a)
    ensures Untouched(host, a)
  {
    PlainHasNoSubstitution(a);
    assert a != "" ==> a[0] in a;
  }

  lemma {:induction false} PlainHasNoSubstitution(a: string)
    requires '$' !in a
    ensures !HasSubstitution(a)
    decreases |a|
  {
    if |a| >= 2 {
      assert a[0] in a && forall c | c in a[1..] :: c in a;
      PlainHasNoSubstitution(a[1..]);
    }
  }

  lemma {:induction false} CompletedUntouched(host: Host, words: seq<string>)
    requires forall w | w in words :: !HasSpecifier(host, w) && !HasVariable(w)
    ensures Completed(host, words) == words
    decreases |words|
  {
    if words != [] {
      assert words[0] in words;
      SpecifiedUntouched(host, words[0]);
      SubstitutedUntouched(host, words[0]);
      assert SpecifiedAll(host, words)[1..] == SpecifiedAll(host, words[1..]);
      CompletedUntouched(host, words[1..]);
      assert words == [words[0]] + words[1..];
    }
  }

  lemma {:induction false} CompletedConcat(host: Host, a: seq<string>, b: seq<string>)
    ensures Completed(host, a + b) == Completed(host, a) + Completed(host, b)
    decreases |a|
  {
    if a == [] {
      assert a + b == b && SpecifiedAll(host, a) == [];
    } else {
      assert (a + b)[1..] == a[1..] + b;
      CompletedConcat(host, a[1..], b);
      assert SpecifiedAll(host, a)[1..] == SpecifiedAll(host, a[1..]);
      assert SpecifiedAll(host, a + b)[1..] == SpecifiedAll(host, a[1..] + b);
      ConcatAssociates(Expanded(host, Specified(host, a[0])), Completed(host, a[1..]), Completed(host, b));
    }
  }

  /** A printed list of arguments arrives as it was if and only if none of them means anything to systemd. */
  lemma ArgumentsArriveIff(host: Host, args: seq<string>)
    requires args != [] && Tame(host) && (Without(host, '\\') || CountAll(args, '\\') == 0)
    requires forall a | a in args :: OneLine(a)
    ensures Arguments(host, ShlexJoin(args)) == Some(args) <==> forall a | a in args :: Untouched(host, a)
  {
    JoinedIsRead(args);
    ReadAllExactlyIff(args);
    if forall a | a in args :: Untouched(host, a) {
      CompletedUntouched(host, args);
    }
    if Arguments(host, ShlexJoin(args)) == Some(args) {
      var words := Words(ShlexJoin(args), Plain, None).value;
      ArrivedWords(host, args, words);
      ReadAllFacts(args, '%');
      ReadAllFacts(args, '$');
      CompletedUnchanged(host, words);
    }
  }

  lemma ArrivedWords(host: Host, args: seq<string>, words: seq<string>)
    requires args != [] && (Without(host, '\\') || CountAll(args, '\\') == 0)
    requires Words(ShlexJoin(args), Plain, None) == Some(words)
    requires CountAll(Completed(host, words), '\\') >= CountAll(args, '\\')
    ensures ReadAll(args) == Some(words)
  {
    JoinedIsRead(args);
    if Without(host, '\\') {
      CompletedCount(host, words, '\\');
    }
  }
}
