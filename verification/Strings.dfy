/** The string primitives the parsers of this project share. */
module Strings {
  import opened Wrappers

  lemma ConcatAssociates<T>(a: seq<T>, b: seq<T>, c: seq<T>)
    ensures a + (b + c) == (a + b) + c
  {
  }

  /** Position of the first `c`, or the length of `s`. */
  function IndexOf(s: string, c: char): (i: nat)
    ensures i <= |s|
    ensures i < |s| ==> s[i] == c
    ensures c !in s[..i]
  {
    if s == "" || s[0] == c then 0
    else
      var i := 1 + IndexOf(s[1..], c);
      assert s[..i] == [s[0]] + s[1..][..i - 1];
      i
  }

  lemma {:induction false} IndexOfAppend(head: string, c: char, rest: string)
    requires c !in head
    ensures IndexOf(head + [c] + rest, c) == |head|
    ensures (head + [c] + rest)[..|head|] == head
    ensures (head + [c] + rest)[|head| + 1..] == rest
  {
    if head != "" {
      assert head[0] in head;
      assert forall x | x in head[1..] :: x in head;
      IndexOfAppend(head[1..], c, rest);
      assert (head + [c] + rest)[1..] == head[1..] + [c] + rest;
    }
  }

  lemma {:induction false} IndexOfInFront(head: string, c: char, tail: string)
    requires c in head
    ensures IndexOf(head + tail, c) == IndexOf(head, c) < |head|
  {
    if head[0] != c {
      assert head == [head[0]] + head[1..];
      assert (head + tail)[1..] == head[1..] + tail;
      IndexOfInFront(head[1..], c, tail);
    }
  }

  lemma IndexOfAbsent(s: string, c: char)
    requires c !in s
    ensures IndexOf(s, c) == |s|
  {
  }

  function SplitOnce(s: string, c: char): Option<(string, string)> {
    var i := IndexOf(s, c);
    if i == |s| then None else Some((s[..i], s[i + 1..]))
  }

  lemma SplitOnceAppend(head: string, c: char, rest: string)
    requires c !in head
    ensures SplitOnce(head + [c] + rest, c) == Some((head, rest))
  {
    IndexOfAppend(head, c, rest);
  }

  /** The pieces between occurrences of `c`; always at least one. */
  function Split(s: string, c: char): (r: seq<string>)
    ensures |r| > 0
    decreases |s|
  {
    var i := IndexOf(s, c);
    if i == |s| then [s] else [s[..i]] + Split(s[i + 1..], c)
  }

  function Join(parts: seq<string>, separator: string): string
    decreases |parts|
  {
    if parts == [] then ""
    else if |parts| == 1 then parts[0]
    else parts[0] + separator + Join(parts[1..], separator)
  }

  /** Splitting what was joined with a separator that no piece contains gives the pieces back. */
  lemma {:induction false} SplitJoin(parts: seq<string>, c: char)
    requires |parts| > 0
    requires forall p | p in parts :: c !in p
    ensures Split(Join(parts, [c]), c) == parts
    decreases |parts|
  {
    assert parts[0] in parts;
    if |parts| == 1 {
      IndexOfAbsent(parts[0], c);
    } else {
      var rest := Join(parts[1..], [c]);
      IndexOfAppend(parts[0], c, rest);
      SplitJoin(parts[1..], c);
    }
  }

  lemma {:induction false} JoinSplit(s: string, c: char)
    ensures Join(Split(s, c), [c]) == s
    decreases |s|
  {
    var i := IndexOf(s, c);
    if i < |s| {
      JoinSplit(s[i + 1..], c);
      assert s == s[..i] + [c] + s[i + 1..];
      assert Split(s, c)[1..] == Split(s[i + 1..], c);
    }
  }

  function DropCarriageReturn(line: string): string {
    if line != "" && line[|line| - 1] == '\r' then line[..|line| - 1] else line
  }

  /** Lines without their `\n` or `\r\n` ending; a final line needs none. */
  function Lines(s: string): seq<string>
    decreases |s|
  {
    if s == "" then []
    else
      var i := IndexOf(s, '\n');
      if i == |s| then [s] else [DropCarriageReturn(s[..i])] + Lines(s[i + 1..])
  }

  /** A line that survives being written with a newline and read back. */
  predicate LineSafe(line: string) {
    '\n' !in line && (line != "" ==> line[|line| - 1] != '\r')
  }

  lemma LinesAppend(line: string, rest: string)
    requires LineSafe(line)
    ensures Lines(line + "\n" + rest) == [line] + Lines(rest)
  {
    assert "\n" == ['\n'];
    IndexOfAppend(line, '\n', rest);
  }


  /** Complete lines in front do not disturb the lines that follow. */
  lemma {:induction false} LinesConcat(head: string, tail: string)
    requires head == "" || head[|head| - 1] == '\n'
    ensures Lines(head + tail) == Lines(head) + Lines(tail)
    decreases |head|
  {
    if head == "" {
      assert head + tail == tail;
      assert [] + Lines(tail) == Lines(tail);
    } else {
      assert head[|head| - 1] in head;
      IndexOfInFront(head, '\n', tail);
      var i := IndexOf(head, '\n');
      assert (head + tail)[..i] == head[..i] && (head + tail)[i + 1..] == head[i + 1..] + tail;
      LinesConcat(head[i + 1..], tail);
      ConcatAssociates([DropCarriageReturn(head[..i])], Lines(head[i + 1..]), Lines(tail));
    }
  }

  predicate HasPrefix(s: string, p: string) {
    p <= s
  }

  predicate HasSuffix(s: string, t: string) {
    |t| <= |s| && s[|s| - |t|..] == t
  }

  function StripPrefix(s: string, p: string): Option<string> {
    if HasPrefix(s, p) then Some(s[|p|..]) else None
  }

  function StripSuffix(s: string, t: string): Option<string> {
    if HasSuffix(s, t) then Some(s[..|s| - |t|]) else None
  }

  // ----- numbers -----

  function DecimalDigit(c: char): Option<nat> {
    if '0' <= c <= '9' then Some(c as int - '0' as int) else None
  }

  function HexDigit(c: char): Option<nat> {
    if '0' <= c <= '9' then Some(c as int - '0' as int)
    else if 'a' <= c <= 'f' then Some(10 + c as int - 'a' as int)
    else if 'A' <= c <= 'F' then Some(10 + c as int - 'A' as int)
    else None
  }

  function HexChar(d: nat): (c: char)
    requires d < 16
    ensures HexDigit(c) == Some(d)
    ensures c != ' ' && c != '+' && c != '#' && c != '\n' && c != '\r'
  {
    if d < 10 then '0' + d as char else 'a' + (d - 10) as char
  }
}
