/** The `Exec` key of desktop entries (`field.rs`): unescaping and tokenizing against the quoting rules of the Desktop Entry
    Specification, section "The Exec key". */
module ExecField {
  import opened Wrappers
  import opened VarNames
  import opened Strings

  // ----- value escapes -----

  function EscapedValue(c: char): char {
    match c
    case 's' => ' '
    case 'n' => '\n'
    case 't' => '\t'
    case 'r' => '\r'
    case other => other
  }

  /** The unescaped text from a state on; a lone backslash at the end is dropped. */
  function ExpandFrom(s: string, escaped: bool): string {
    if s == "" then ""
    else if escaped then [EscapedValue(s[0])] + ExpandFrom(s[1..], false)
    else if s[0] == '\\' then ExpandFrom(s[1..], true)
    else [s[0]] + ExpandFrom(s[1..], false)
  }

  /** `expand_str` */
  method ExpandStr(value: string) returns (out: string)
    ensures out == ExpandFrom(value, false)
  {
    if '\\' !in value {
      PlainExpands(value);
      return value;
    }
    out := "";
    var escaped := false;
    for i := 0 to |value|
      invariant out + ExpandFrom(value[i..], escaped) == ExpandFrom(value, false)
    {
      var ch := value[i];
      assert value[i..][1..] == value[i + 1..];
      if escaped {
        ConcatAssociates(out, [EscapedValue(ch)], ExpandFrom(value[i + 1..], false));
        out := out + [match ch case 's' => ' ' case 'n' => '\n' case 't' => '\t' case 'r' => '\r' case other => other];
        escaped := false;
      } else if ch == '\\' {
        escaped := true;
      } else {
        ConcatAssociates(out, [ch], ExpandFrom(value[i + 1..], false));
        out := out + [ch];
      }
    }
    assert value[|value|..] == "" && out + "" == out;
  }

  lemma {:induction false} PlainExpands(s: string)
    requires '\\' !in s
    ensures ExpandFrom(s, false) == s
  {
    if s != "" {
      assert s[0] in s && forall c | c in s[1..] :: c in s;
      PlainExpands(s[1..]);
    }
  }

  /** An escape in the text: the letters of a blank, newline, tab and carriage return stand for these, every other character
      for itself. */
  lemma {:induction false} EscapeInText(head: string, c: char, tail: string)
    requires '\\' !in head
    ensures ExpandFrom(head + ['\\', c] + tail, false)
            == head
               + [if c == 's' then ' ' else if c == 'n' then '\n' else if c == 't' then '\t' else if c == 'r' then '\r' else c]
               + ExpandFrom(tail, false)
    decreases |head|
  {
    var s := head + ['\\', c] + tail;
    if head == "" {
      assert s[1..][0] == c && s[1..][1..] == tail;
    } else {
      assert head[0] in head && forall x | x in head[1..] :: x in head;
      assert s[1..] == head[1..] + ['\\', c] + tail;
      EscapeInText(head[1..], c, tail);
    }
  }

  /** A backslash at the very end has nothing to escape and is dropped. */
  lemma {:induction false} LoneBackslash(head: string)
    requires '\\' !in head
    ensures ExpandFrom(head + ['\\'], false) == head
    decreases |head|
  {
    var s := head + ['\\'];
    if head == "" {
      assert s[1..] == "";
    } else {
      assert head[0] in head && forall x | x in head[1..] :: x in head;
      assert s[1..] == head[1..] + ['\\'];
      LoneBackslash(head[1..]);
    }
  }

  function WrittenChar(c: char, blanks: bool): string {
    match c
    case '\\' => "\\\\"
    case '\n' => "\\n"
    case '\t' => "\\t"
    case '\r' => "\\r"
    case ' ' => if blanks then "\\s" else " "
    case other => [other]
  }

  /** How a value is written: backslash, newline, tab and carriage return escaped, blanks optionally. */
  function WrittenValue(s: string, blanks: bool): string {
    if s == "" then "" else WrittenChar(s[0], blanks) + WrittenValue(s[1..], blanks)
  }

  lemma WrittenCharExpands(c: char, blanks: bool, tail: string)
    ensures ExpandFrom(WrittenChar(c, blanks) + tail, false) == [c] + ExpandFrom(tail, false)
  {
    var w := WrittenChar(c, blanks);
    if |w| == 1 {
      assert (w + tail)[1..] == tail;
    } else {
      assert w == ['\\', w[1]];
      EscapeInText("", w[1], tail);
      assert "" + w + tail == w + tail;
    }
  }

  /** Unescaping undoes the escaping of any text. */
  lemma {:induction false} ExpandRoundTrip(s: string, blanks: bool)
    ensures ExpandFrom(WrittenValue(s, blanks), false) == s
  {
    if s != "" {
      ExpandRoundTrip(s[1..], blanks);
      WrittenCharExpands(s[0], blanks, WrittenValue(s[1..], blanks));
    }
  }

  // ----- tokenizing -----

  /** Unicode White_Space */
  predicate IsWhitespace(c: char) {
    var v := c as int;
    || 9 <= v <= 13 || v == 0x20 || v == 0x85 || v == 0xA0 || v == 0x1680 || 0x2000 <= v <= 0x200A
    || v == 0x2028 || v == 0x2029 || v == 0x202F || v == 0x205F || v == 0x3000
  }

  predicate IsReserved(c: char) {
    || c == '\t' || c == '\n' || c == '\'' || c == '\\' || c == '>' || c == '<' || c == '~' || c == '|' || c == '&'
    || c == ';' || c == '$' || c == '*' || c == '?' || c == '#' || c == '(' || c == ')' || c == '`'
  }

  function TrimStart(s: string): string {
    if s != "" && IsWhitespace(s[0]) then TrimStart(s[1..]) else s
  }

  function TrimEnd(s: string): string
    decreases |s|
  {
    if s != "" && IsWhitespace(s[|s| - 1]) then TrimEnd(s[..|s| - 1]) else s
  }

  function Trim(s: string): string {
    TrimEnd(TrimStart(s))
  }

  /** Trimming takes the whitespace around a text away and nothing else. */
  lemma TrimPadded(before: string, text: string, after: string)
    requires forall c | c in before || c in after :: IsWhitespace(c)
    requires text != "" ==> !IsWhitespace(text[0]) && !IsWhitespace(text[|text| - 1])
    ensures Trim(before + text + after) == text
  {
    if text == "" {
      assert before + text + after == before + after;
      AllBlank(before + after);
    } else {
      TrimStartPadded(before, text + after);
      TrimEndPadded(text, after);
      assert before + text + after == before + (text + after);
    }
  }

  lemma {:induction false} AllBlank(s: string)
    requires forall c | c in s :: IsWhitespace(c)
    ensures TrimStart(s) == ""
    decreases |s|
  {
    if s != "" {
      assert s[0] in s && forall c | c in s[1..] :: c in s;
      AllBlank(s[1..]);
    }
  }

  lemma {:induction false} TrimStartPadded(before: string, text: string)
    requires (forall c | c in before :: IsWhitespace(c)) && text != "" && !IsWhitespace(text[0])
    ensures TrimStart(before + text) == text
    decreases |before|
  {
    if before == "" {
      assert before + text == text;
    } else {
      assert before[0] in before && forall c | c in before[1..] :: c in before;
      assert (before + text)[1..] == before[1..] + text;
      TrimStartPadded(before[1..], text);
    }
  }

  lemma {:induction false} TrimEndPadded(text: string, after: string)
    requires (forall c | c in after :: IsWhitespace(c)) && text != "" && !IsWhitespace(text[|text| - 1])
    ensures TrimEnd(text + after) == text
    decreases |after|
  {
    if after == "" {
      assert text + after == text;
    } else {
      var init := after[..|after| - 1];
      assert after[|after| - 1] in after && forall c | c in init :: c in after;
      assert (text + after)[..|text + after| - 1] == text + init;
      TrimEndPadded(text, init);
    }
  }

  datatype TokState = TokState(arg: string, quoted: bool, inSpace: bool, escaped: bool)

  function Completed(arg: string, rest: Option<seq<string>>): Option<seq<string>> {
    if rest.Some? then Some([arg] + rest.value) else None
  }

  /** The tokens still to come; `None` is a rejected string. */
  function TokensFrom(s: string, st: TokState): Option<seq<string>>
    decreases |s|
  {
    if s == "" then Some([st.arg])
    else
      var c, rest := s[0], s[1..];
      if st.inSpace && IsWhitespace(c) then TokensFrom(rest, st)
      else if st.quoted then
        if st.escaped then TokensFrom(rest, TokState(st.arg + [c], true, false, false))
        else if c == '"' then TokensFrom(rest, TokState(st.arg, false, false, false))
        else if c == '\\' then TokensFrom(rest, TokState(st.arg, true, false, true))
        else if c == '`' || c == '$' then None
        else TokensFrom(rest, TokState(st.arg + [c], true, false, false))
      else if c == '"' then TokensFrom(rest, TokState(st.arg, true, false, st.escaped))
      else if IsWhitespace(c) then Completed(st.arg, TokensFrom(rest, TokState("", false, true, st.escaped)))
      else if IsReserved(c) then None
      else TokensFrom(rest, TokState(st.arg + [c], false, false, st.escaped))
  }

  const START := TokState("", false, false, false)

  function AllTokens(done: seq<string>, rest: Option<seq<string>>): Option<seq<string>> {
    if rest.Some? then Some(done + rest.value) else None
  }

  /** `tokenize_exec` */
  method TokenizeExec(value: string) returns (r: Option<seq<string>>)
    ensures r == TokensFrom(Trim(value), START)
  {
    var text := Trim(value);
    var cmd: seq<string> := [];
    var arg := "";
    var quoted, inSpace, escaped := false, false, false;
    ghost var goal := TokensFrom(text, START);
    assert goal.Some? ==> [] + goal.value == goal.value;
    for i := 0 to |text|
      invariant AllTokens(cmd, TokensFrom(text[i..], TokState(arg, quoted, inSpace, escaped))) == goal
    {
      var ch := text[i];
      assert text[i..][1..] == text[i + 1..];
      if inSpace && IsWhitespace(ch) {
        continue;
      }
      inSpace := false;
      if quoted {
        if escaped {
          arg := arg + [ch];
          escaped := false;
        } else if ch == '"' {
          quoted := false;
        } else if ch == '\\' {
          escaped := true;
        } else if ch == '`' || ch == '$' {
          return None;
        } else {
          arg := arg + [ch];
        }
        continue;
      }
      if ch == '"' {
        quoted := true;
      } else if IsWhitespace(ch) {
        inSpace := true;
        ghost var more := TokensFrom(text[i + 1..], TokState("", false, true, escaped));
        if more.Some? {
          ConcatAssociates(cmd, [arg], more.value);
        }
        cmd := cmd + [arg];
        arg := "";
      } else if IsReserved(ch) {
        return None;
      } else {
        arg := arg + [ch];
      }
    }
    assert text[|text|..] == "";
    return Some(cmd + [arg]);
  }

  predicate NeedsBackslash(c: char) {
    c == '"' || c == '`' || c == '$' || c == '\\'
  }

  function QuotedChar(c: char): string {
    if NeedsBackslash(c) then ['\\', c] else [c]
  }

  function InQuotes(s: string): string {
    if s == "" then "" else QuotedChar(s[0]) + InQuotes(s[1..])
  }

  function QuotedArg(s: string): string {
    "\"" + InQuotes(s) + "\""
  }

  function QuotedLine(args: seq<string>): string {
    Join(seq(|args|, i requires 0 <= i < |args| => QuotedArg(args[i])), " ")
  }

  lemma QuotedCharIsRead(c: char, tail: string, arg: string)
    ensures TokensFrom(QuotedChar(c) + tail, TokState(arg, true, false, false))
            == TokensFrom(tail, TokState(arg + [c], true, false, false))
  {
    var all := QuotedChar(c) + tail;
    if NeedsBackslash(c) {
      assert all[1..] == [c] + tail && all[1..][1..] == tail;
    } else {
      assert all[1..] == tail;
    }
  }

  lemma {:induction false} QuotesAreRead(s: string, rest: string, arg: string)
    ensures TokensFrom(InQuotes(s) + "\"" + rest, TokState(arg, true, false, false))
            == TokensFrom(rest, TokState(arg + s, false, false, false))
    decreases |s|
  {
    if s == "" {
      assert (InQuotes(s) + "\"" + rest)[1..] == rest;
      assert arg + s == arg;
    } else {
      var tail := InQuotes(s[1..]) + "\"" + rest;
      assert arg + s == arg + [s[0]] + s[1..];
      QuotesAreRead(s[1..], rest, arg + [s[0]]);
      QuotedCharIsRead(s[0], tail, arg);
      assert InQuotes(s) + "\"" + rest == QuotedChar(s[0]) + tail;
    }
  }

  lemma {:induction false} LineEnds(args: seq<string>)
    requires args != []
    ensures var l := QuotedLine(args); |l| >= 2 && l[0] == '"' && l[|l| - 1] == '"'
    decreases |args|
  {
    var quoted := seq(|args|, i requires 0 <= i < |args| => QuotedArg(args[i]));
    if |args| > 1 {
      assert quoted[1..] == seq(|args| - 1, i requires 0 <= i < |args| - 1 => QuotedArg(args[1..][i]));
      LineEnds(args[1..]);
    }
  }

  // ----- spelled words -----

  predicate IsBare(c: char) {
    !IsWhitespace(c) && !IsReserved(c) && c != '"'
  }

  /** A spelling of `arg`: bare characters, with or without a quoted part behind them. */
  ghost predicate Spells(text: string, arg: string) {
    || (text == arg && arg != "" && forall c | c in arg :: IsBare(c))
    || (exists bare, rest :: (forall c | c in bare :: IsBare(c)) && text == bare + QuotedArg(rest) && arg == bare + rest)
  }

  lemma {:induction false} BareIsRead(bare: string, rest: string, arg: string, inSpace: bool)
    requires forall c | c in bare :: IsBare(c)
    ensures TokensFrom(bare + rest, TokState(arg, false, inSpace, false))
            == TokensFrom(rest, TokState(arg + bare, false, inSpace && bare == "", false))
    decreases |bare|
  {
    if bare == "" {
      assert bare + rest == rest && arg + bare == arg;
    } else {
      assert bare[0] in bare && forall c | c in bare[1..] :: c in bare;
      assert (bare + rest)[1..] == bare[1..] + rest;
      assert arg + bare == arg + [bare[0]] + bare[1..];
      BareIsRead(bare[1..], rest, arg + [bare[0]], false);
    }
  }

  lemma QuotedPartIsRead(s: string, rest: string, arg: string, inSpace: bool)
    ensures TokensFrom(QuotedArg(s) + rest, TokState(arg, false, inSpace, false))
            == TokensFrom(rest, TokState(arg + s, false, false, false))
  {
    var all := QuotedArg(s) + rest;
    assert all[1..] == InQuotes(s) + "\"" + rest;
    QuotesAreRead(s, rest, arg);
  }

  lemma SpelledIsRead(text: string, arg: string, rest: string, inSpace: bool)
    requires Spells(text, arg)
    ensures TokensFrom(text + rest, TokState("", false, inSpace, false)) == TokensFrom(rest, TokState(arg, false, false, false))
  {
    if text == arg && arg != "" && forall c | c in arg :: IsBare(c) {
      BareIsRead(text, rest, "", inSpace);
      assert "" + text == arg;
    } else {
      var bare, quoted :| (forall c | c in bare :: IsBare(c)) && text == bare + QuotedArg(quoted) && arg == bare + quoted;
      assert text + rest == bare + (QuotedArg(quoted) + rest);
      BareIsRead(bare, QuotedArg(quoted) + rest, "", inSpace);
      assert "" + bare == bare;
      QuotedPartIsRead(quoted, rest, bare, inSpace && bare == "");
    }
  }

  predicate IsGap(gap: string) {
    gap != "" && forall c | c in gap :: IsWhitespace(c)
  }

  lemma {:induction false} SpaceIsSkipped(gap: string, rest: string)
    requires forall c | c in gap :: IsWhitespace(c)
    ensures TokensFrom(gap + rest, TokState("", false, true, false)) == TokensFrom(rest, TokState("", false, true, false))
    decreases |gap|
  {
    if gap == "" {
      assert gap + rest == rest;
    } else {
      assert gap[0] in gap && forall c | c in gap[1..] :: c in gap;
      assert (gap + rest)[1..] == gap[1..] + rest;
      SpaceIsSkipped(gap[1..], rest);
    }
  }

  /** Words with any whitespace between them are read as the arguments they spell, bare, quoted or both. */
  lemma {:induction false} SpelledLineIsRead(texts: seq<string>, args: seq<string>, gap: string, inSpace: bool)
    requires |texts| == |args| > 0 && IsGap(gap) && forall i | 0 <= i < |texts| :: Spells(texts[i], args[i])
    ensures TokensFrom(Join(texts, gap), TokState("", false, inSpace, false)) == Some(args)
    decreases |texts|
  {
    if |texts| == 1 {
      SpelledIsRead(texts[0], args[0], "", inSpace);
      assert texts[0] + "" == texts[0] && args == [args[0]];
    } else {
      var more := Join(texts[1..], gap);
      assert Join(texts, gap) == texts[0] + (gap + more);
      SpelledIsRead(texts[0], args[0], gap + more, inSpace);
      assert gap[0] in gap && forall c | c in gap[1..] :: c in gap;
      assert (gap + more)[1..] == gap[1..] + more;
      SpaceIsSkipped(gap[1..], more);
      SpelledLineIsRead(texts[1..], args[1..], gap, true);
      assert args == [args[0]] + args[1..];
    }
  }

  /** Tokenizing a line of quoted arguments gives the arguments back, whatever they contain. */
  lemma TokenizeRoundTrip(args: seq<string>)
    requires args != []
    ensures TokensFrom(Trim(QuotedLine(args)), START) == Some(args)
  {
    LineEnds(args);
    assert Trim(QuotedLine(args)) == QuotedLine(args);
    var texts := seq(|args|, i requires 0 <= i < |args| => QuotedArg(args[i]));
    forall i | 0 <= i < |args|
      ensures Spells(texts[i], args[i])
    {
      assert texts[i] == "" + QuotedArg(args[i]) && args[i] == "" + args[i];
    }
    SpelledLineIsRead(texts, args, " ", false);
  }

  /** A reserved character outside quotes is refused, whatever follows. */
  lemma ReservedIsRefused(bare: string, c: char, rest: string)
    requires (forall b | b in bare :: IsBare(b)) && IsReserved(c) && !IsWhitespace(c)
    ensures TokensFrom(bare + [c] + rest, START) == None
  {
    BareIsRead(bare, [c] + rest, "", false);
    assert bare + [c] + rest == bare + ([c] + rest);
  }

  /** So is a dollar sign or a backtick without a backslash inside quotes. */
  lemma {:induction false} DollarIsRefused(s: string, c: char, rest: string, arg: string)
    requires c == '$' || c == '`'
    ensures TokensFrom(InQuotes(s) + [c] + rest, TokState(arg, true, false, false)) == None
    decreases |s|
  {
    if s == "" {
      assert (InQuotes(s) + [c] + rest)[0] == c;
    } else {
      var tail := InQuotes(s[1..]) + [c] + rest;
      QuotedCharIsRead(s[0], tail, arg);
      assert InQuotes(s) + [c] + rest == QuotedChar(s[0]) + tail;
      DollarIsRefused(s[1..], c, rest, arg + [s[0]]);
    }
  }
}
