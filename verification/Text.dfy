/** Rust's `trim` and `lines`, on sequences of characters. */
module Text {
  /** The Unicode White_Space property, which `char::is_whitespace` tests. */
  predicate IsWhitespace(c: char) {
    var u := c as int;
    || 0x09 <= u <= 0x0D || u == 0x20 || u == 0x85 || u == 0xA0 || u == 0x1680
    || 0x2000 <= u <= 0x200A || u == 0x2028 || u == 0x2029 || u == 0x202F || u == 0x205F || u == 0x3000
  }

  /** The characters that property lists. */
  lemma WhitespaceIs(c: char)
    ensures IsWhitespace(c) <==> (c as int) in {
      0x09, 0x0A, 0x0B, 0x0C, 0x0D, 0x20, 0x85, 0xA0, 0x1680,
      0x2000, 0x2001, 0x2002, 0x2003, 0x2004, 0x2005, 0x2006, 0x2007, 0x2008, 0x2009, 0x200A,
      0x2028, 0x2029, 0x202F, 0x205F, 0x3000 }
  {
  }

  function TrimStart(s: string): string {
    if s != "" && IsWhitespace(s[0]) then TrimStart(s[1..]) else s
  }

  function TrimEnd(s: string): string {
    if s != "" && IsWhitespace(s[|s| - 1]) then TrimEnd(s[..|s| - 1]) else s
  }

  function Trim(s: string): string { TrimEnd(TrimStart(s)) }

  /** No whitespace at either end. */
  predicate Trimmed(s: string) {
    s != "" ==> !IsWhitespace(s[0]) && !IsWhitespace(s[|s| - 1])
  }

  lemma {:induction false} TrimStartKeeps(s: string)
    ensures TrimStart(s) != "" ==> !IsWhitespace(TrimStart(s)[0])
    ensures exists n :: 0 <= n <= |s| && TrimStart(s) == s[n..]
    decreases s
  {
    if s != "" && IsWhitespace(s[0]) {
      TrimStartKeeps(s[1..]);
      var n :| 0 <= n <= |s[1..]| && TrimStart(s[1..]) == s[1..][n..];
      assert s[1..][n..] == s[n + 1..];
    } else {
      assert s == s[0..];
    }
  }

  lemma {:induction false} TrimEndKeeps(s: string)
    ensures TrimEnd(s) != "" ==> !IsWhitespace(TrimEnd(s)[|TrimEnd(s)| - 1])
    ensures TrimEnd(s) <= s
    decreases s
  {
    if s != "" && IsWhitespace(s[|s| - 1]) { TrimEndKeeps(s[..|s| - 1]); }
  }

  /** Trimming yields a trimmed piece of the input and leaves a trimmed input alone. */
  lemma TrimTrims(s: string)
    ensures Trimmed(Trim(s))
    ensures Trimmed(s) ==> Trim(s) == s
    ensures forall c :: c in Trim(s) ==> c in s
  {
    TrimStartKeeps(s);
    TrimEndKeeps(TrimStart(s));
  }

  predicate Blank(s: string) { forall c :: c in s ==> IsWhitespace(c) }

  lemma {:induction false} TrimStartSkips(blank: string, s: string)
    requires Blank(blank)
    ensures TrimStart(blank + s) == TrimStart(s)
    decreases blank
  {
    if blank == "" {
      assert blank + s == s;
    } else {
      assert (blank + s)[1..] == blank[1..] + s;
      TrimStartSkips(blank[1..], s);
    }
  }

  lemma {:induction false} TrimEndSkips(s: string, blank: string)
    requires Blank(blank)
    ensures TrimEnd(s + blank) == TrimEnd(s)
    decreases blank
  {
    if blank == "" {
      assert s + blank == s;
    } else {
      var shorter := blank[..|blank| - 1];
      assert (s + blank)[..|s + blank| - 1] == s + shorter;
      assert (s + blank)[|s + blank| - 1] == blank[|blank| - 1];
      TrimEndSkips(s, shorter);
    }
  }

  /** Trimming removes exactly the blanks around a trimmed text. */
  lemma TrimStrips(before: string, s: string, after: string)
    requires Blank(before) && Blank(after) && Trimmed(s)
    ensures Trim(before + s + after) == s
  {
    assert before + s + after == before + (s + after);
    TrimStartSkips(before, s + after);
    if s == "" {
      TrimStartSkips(after, "");
      assert s + after == after + "";
    } else {
      assert (s + after)[0] == s[0];
      TrimEndSkips(s, after);
    }
  }

  // ------------------------------------------------------------------------- lines

  function UntilNewline(s: string): string {
    if s == "" || s[0] == '\n' then "" else [s[0]] + UntilNewline(s[1..])
  }

  lemma {:induction false} UntilNewlineStops(s: string)
    ensures UntilNewline(s) <= s
    ensures |UntilNewline(s)| < |s| ==> s[|UntilNewline(s)|] == '\n'
    ensures '\n' !in UntilNewline(s)
    decreases s
  {
    if s != "" && s[0] != '\n' { UntilNewlineStops(s[1..]); }
  }

  function WithoutReturn(line: string): string {
    if line != "" && line[|line| - 1] == '\r' then line[..|line| - 1] else line
  }

  /** `str::lines`: a terminated line loses its `\n` or `\r\n`, a final unterminated line
      is kept as it is. */
  function Lines(s: string): seq<string>
    decreases |s|
  {
    if s == "" then []
    else
      var first := UntilNewline(s);
      UntilNewlineStops(s);
      if |first| == |s| then [s] else [WithoutReturn(first)] + Lines(s[|first| + 1..])
  }

  /** A line that printing and reading back leaves alone. */
  predicate Plain(line: string) {
    '\n' !in line && (line != "" ==> line[|line| - 1] != '\r')
  }

  function PrintLines(lines: seq<string>): string {
    if lines == [] then "" else lines[0] + "\n" + PrintLines(lines[1..])
  }

  lemma {:induction false} PrintLinesSnoc(lines: seq<string>, last: string)
    ensures PrintLines(lines + [last]) == PrintLines(lines) + last + "\n"
    decreases lines
  {
    if lines != [] {
      assert (lines + [last])[1..] == lines[1..] + [last];
      PrintLinesSnoc(lines[1..], last);
    }
  }

  lemma {:induction false} UntilNewlineOf(line: string, rest: string)
    requires '\n' !in line
    ensures UntilNewline(line + "\n" + rest) == line
    ensures UntilNewline(line) == line
    decreases line
  {
    if line != "" {
      assert (line + "\n" + rest)[1..] == line[1..] + "\n" + rest;
      UntilNewlineOf(line[1..], rest);
    }
  }

  lemma LinesOfHead(head: string, rest: string)
    requires Plain(head)
    ensures Lines(head + "\n" + rest) == [head] + Lines(rest)
  {
    var text := head + "\n" + rest;
    UntilNewlineOf(head, rest);
    assert text[|head| + 1..] == rest;
    assert text != "" && |head| < |text|;
  }

  /** Printed lines are read back. */
  lemma {:induction false} LinesRoundTrip(lines: seq<string>)
    requires forall i :: 0 <= i < |lines| ==> Plain(lines[i])
    ensures Lines(PrintLines(lines)) == lines
    decreases lines
  {
    if lines != [] {
      LinesRoundTrip(lines[1..]);
      LinesOfHead(lines[0], PrintLines(lines[1..]));
    }
  }

  /** The same when the last line, not empty, is left unterminated. */
  lemma {:induction false} UnterminatedRoundTrip(lines: seq<string>, last: string)
    requires forall i :: 0 <= i < |lines| ==> Plain(lines[i])
    requires Plain(last) && last != ""
    ensures Lines(PrintLines(lines) + last) == lines + [last]
    decreases lines
  {
    if lines == [] {
      UntilNewlineOf(last, "");
      assert PrintLines(lines) + last == last;
    } else {
      UnterminatedRoundTrip(lines[1..], last);
      assert PrintLines(lines) + last == lines[0] + "\n" + (PrintLines(lines[1..]) + last);
      LinesOfHead(lines[0], PrintLines(lines[1..]) + last);
    }
  }

  /** A line with its terminator: a bare newline, or one with a carriage return. */
  datatype Ended = Ended(line: string, crlf: bool) {
    predicate Valid() { '\n' !in line && (crlf || Plain(line)) }

    function Print(): string { line + if crlf then "\r\n" else "\n" }
  }

  function PrintEnded(lines: seq<Ended>): string {
    if lines == [] then "" else lines[0].Print() + PrintEnded(lines[1..])
  }

  function LineTexts(lines: seq<Ended>): seq<string> { seq(|lines|, i requires 0 <= i < |lines| => lines[i].line) }

  lemma EndedHead(head: Ended, rest: string)
    requires head.Valid()
    ensures Lines(head.Print() + rest) == [head.line] + Lines(rest)
  {
    var first := head.line + if head.crlf then "\r" else "";
    var text := first + "\n" + rest;
    assert head.Print() + rest == text;
    UntilNewlineOf(first, rest);
    assert text[|first| + 1..] == rest;
    assert text != "" && |first| < |text|;
    assert WithoutReturn(first) == head.line by {
      if head.crlf { assert first[..|head.line|] == head.line; } else { assert first == head.line; }
    }
  }

  /** Either terminator is taken off, and nothing else; a last line without one is kept whole,
      carriage return included. */
  lemma {:induction false} EndedRoundTrip(lines: seq<Ended>, last: string)
    requires (forall ended :: ended in lines ==> ended.Valid()) && '\n' !in last
    ensures Lines(PrintEnded(lines) + last) == LineTexts(lines) + if last == "" then [] else [last]
    decreases lines
  {
    if lines == [] {
      UntilNewlineOf(last, "");
      assert PrintEnded(lines) + last == last;
    } else {
      hide Lines, Ended.Print;
      EndedRoundTrip(lines[1..], last);
      EndedHead(lines[0], PrintEnded(lines[1..]) + last);
      assert PrintEnded(lines) + last == lines[0].Print() + (PrintEnded(lines[1..]) + last);
      assert LineTexts(lines) == [lines[0].line] + LineTexts(lines[1..]);
    }
  }

  /** Every text is such lines and a last one. */
  lemma {:induction false} EveryTextIsLines(s: string) returns (lines: seq<Ended>, last: string)
    ensures (forall ended :: ended in lines ==> ended.Valid()) && '\n' !in last && s == PrintEnded(lines) + last
    decreases |s|
  {
    var first := UntilNewline(s);
    UntilNewlineStops(s);
    if |first| == |s| { return [], s; }
    var more;
    more, last := EveryTextIsLines(s[|first| + 1..]);
    var ended := if WithoutReturn(first) == first then Ended(first, false) else Ended(WithoutReturn(first), true);
    assert ended.Print() == first + "\n";
    assert s == first + "\n" + s[|first| + 1..];
    lines := [ended] + more;
    assert lines[1..] == more;
    assert PrintEnded(lines) + last == ended.Print() + (PrintEnded(more) + last);
  }

  lemma {:induction false} LinesHaveNoNewline(s: string)
    ensures forall i :: 0 <= i < |Lines(s)| ==> '\n' !in Lines(s)[i]
    decreases |s|
  {
    if s != "" {
      UntilNewlineStops(s);
      if |UntilNewline(s)| < |s| { LinesHaveNoNewline(s[|UntilNewline(s)| + 1..]); }
    }
  }
}
