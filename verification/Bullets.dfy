/** The bullet points of a journal section, and the `- ` list the importer prints. */
module Bullets {
  import opened Wrappers
  import opened Text

  predicate StartsWith(s: string, prefix: string) { prefix <= s }

  predicate ContainsDot(s: string) { exists i :: 0 <= i < |s| - 1 && s[i] == '.' && s[i + 1] == ' ' }

  /** What follows the first `. `. */
  function AfterDot(s: string): string
    requires ContainsDot(s)
  {
    if |s| >= 2 && s[0] == '.' && s[1] == ' ' then s[2..]
    else
      AfterDotTail(s);
      AfterDot(s[1..])
  }

  lemma AfterDotTail(s: string)
    requires ContainsDot(s) && !(s[0] == '.' && s[1] == ' ')
    ensures s != "" && ContainsDot(s[1..])
  {
    var i :| 0 <= i < |s| - 1 && s[i] == '.' && s[i + 1] == ' ';
    assert s[1..][i - 1] == '.' && s[1..][i] == ' ';
  }

  predicate IsDash(t: string) { StartsWith(t, "- ") || StartsWith(t, "* ") }

  /** The marker whose slice falls inside a three-byte character. */
  predicate IsRound(t: string) { StartsWith(t, "\U{2022} ") }

  predicate IsNumbered(t: string) { |t| > 2 && '0' <= t[0] <= '9' && ContainsDot(t) }

  datatype Scan = Scan(points: seq<string>, current: string) {
    function Saved(): seq<string> {
      if current != "" then points + [Trim(current)] else points
    }
  }

  /** One line of `extract_bullet_points`; `None` is the panic of the round marker. */
  function OnLine(scan: Scan, line: string): Option<Scan> {
    var t := Trim(line);
    if IsDash(t) then Some(Scan(scan.Saved(), t[2..]))
    else if IsRound(t) then None
    else if IsNumbered(t) then Some(Scan(scan.Saved(), AfterDot(t)))
    else if t != "" && scan.current != "" then Some(scan.(current := scan.current + " " + t))
    else if t != "" then Some(scan.(points := scan.points + [t]))
    else Some(scan)
  }

  function OnLines(scan: Scan, lines: seq<string>): Option<Scan>
    decreases |lines|
  {
    if lines == [] then Some(scan)
    else match OnLine(scan, lines[0])
      case None => None
      case Some(next) => OnLines(next, lines[1..])
  }

  function PointsOf(lines: seq<string>): Option<seq<string>> {
    var end := OnLines(Scan([], ""), lines);
    if end.Some? then Some(end.value.Saved()) else None
  }

  function Extract(content: string): Option<seq<string>> { PointsOf(Lines(content)) }

  lemma {:induction false} OnLinesSnoc(scan: Scan, lines: seq<string>, line: string)
    ensures OnLines(scan, lines + [line]) ==
            match OnLines(scan, lines) case None => None case Some(next) => OnLine(next, line)
    decreases lines
  {
    if lines == [] {
      assert lines + [line] == [line];
    } else if OnLine(scan, lines[0]).Some? {
      assert (lines + [line])[1..] == lines[1..] + [line];
      OnLinesSnoc(OnLine(scan, lines[0]).value, lines[1..], line);
    }
  }

  /** `extract_bullet_points` as the loop it is. */
  method ExtractBulletPoints(content: string) returns (r: Option<seq<string>>)
    ensures r == Extract(content)
  {
    var lines := Lines(content);
    var points, current := [], "";
    for i := 0 to |lines|
      invariant OnLines(Scan([], ""), lines[..i]) == Some(Scan(points, current))
    {
      var trimmed := Trim(lines[i]);
      assert lines[..i + 1] == lines[..i] + [lines[i]];
      OnLinesSnoc(Scan([], ""), lines[..i], lines[i]);
      if IsDash(trimmed) || IsRound(trimmed) || IsNumbered(trimmed) {
        if current != "" {
          points := points + [Trim(current)];
        }
        if IsDash(trimmed) {
          current := trimmed[2..];
        } else if IsRound(trimmed) {
          PanicStays(Scan([], ""), lines, i + 1);
          return None;
        } else {
          current := AfterDot(trimmed);
        }
      } else if trimmed != "" && current != "" {
        current := current + " " + trimmed;
      } else if trimmed != "" {
        points := points + [trimmed];
      }
    }
    assert lines[..|lines|] == lines;
    if current != "" {
      points := points + [Trim(current)];
    }
    return Some(points);
  }

  lemma {:induction false} PanicStays(scan: Scan, lines: seq<string>, i: nat)
    requires i <= |lines| && OnLines(scan, lines[..i]).None?
    ensures OnLines(scan, lines).None?
    decreases lines
  {
    if i > 0 && OnLine(scan, lines[0]).Some? {
      assert lines[..i][0] == lines[0] && lines[..i][1..] == lines[1..][..i - 1];
      PanicStays(OnLine(scan, lines[0]).value, lines[1..], i - 1);
    }
  }

  // ------------------------------------------------------------------------ theorems

  predicate HasRoundLine(lines: seq<string>) {
    exists i :: 0 <= i < |lines| && IsRound(Trim(lines[i]))
  }

  lemma {:induction false} PanicIffLine(scan: Scan, lines: seq<string>)
    ensures OnLines(scan, lines).None? <==> HasRoundLine(lines)
    decreases lines
  {
    if lines != [] {
      var t := Trim(lines[0]);
      assert IsRound(t) ==> t[0] == "\U{2022} "[0];
      assert IsDash(t) ==> t[0] == '-' || t[0] == '*';
      if OnLine(scan, lines[0]).Some? {
        PanicIffLine(OnLine(scan, lines[0]).value, lines[1..]);
        if HasRoundLine(lines) {
          var i :| 0 <= i < |lines| && IsRound(Trim(lines[i]));
          assert lines[1..][i - 1] == lines[i];
        }
      }
    }
  }

  /** Extraction panics exactly when some line starts with the round marker. */
  lemma ExtractPanicsIff(content: string)
    ensures Extract(content).None? <==> HasRoundLine(Lines(content))
  {
    PanicIffLine(Scan([], ""), Lines(content));
  }

  predicate GoodPoint(p: string) { p != "" && Trimmed(p) && '\n' !in p }

  predicate GoodPoints(points: seq<string>) { forall i :: 0 <= i < |points| ==> GoodPoint(points[i]) }

  predicate GoodScan(scan: Scan) {
    && GoodPoints(scan.points)
    && '\n' !in scan.current
    && (scan.current != "" ==> !IsWhitespace(scan.current[|scan.current| - 1]))
  }

  lemma {:induction false} TrimStartNotEmpty(s: string)
    requires s != "" && !IsWhitespace(s[|s| - 1])
    ensures TrimStart(s) != "" && TrimStart(s)[|TrimStart(s)| - 1] == s[|s| - 1]
    decreases s
  {
    if IsWhitespace(s[0]) { TrimStartNotEmpty(s[1..]); }
  }

  lemma SavedIsGood(scan: Scan)
    requires GoodScan(scan)
    ensures GoodPoints(scan.Saved())
  {
    if scan.current != "" {
      TrimStartNotEmpty(scan.current);
      TrimTrims(scan.current);
    }
  }

  lemma {:induction false} AfterDotEnds(s: string)
    requires ContainsDot(s) && !IsWhitespace(s[|s| - 1])
    ensures AfterDot(s) != "" && AfterDot(s)[|AfterDot(s)| - 1] == s[|s| - 1]
    ensures forall c :: c in AfterDot(s) ==> c in s
    decreases s
  {
    if !(s[0] == '.' && s[1] == ' ') {
      AfterDotTail(s);
      AfterDotEnds(s[1..]);
    }
  }

  lemma GoodDash(scan: Scan, t: string)
    requires GoodScan(scan) && Trimmed(t) && '\n' !in t && IsDash(t)
    ensures GoodScan(Scan(scan.Saved(), t[2..]))
  {
    hide TrimStart, TrimEnd;
    SavedIsGood(scan);
    assert t[1] == ' ' && IsWhitespace(' ');
  }

  lemma GoodNumbered(scan: Scan, t: string)
    requires GoodScan(scan) && Trimmed(t) && '\n' !in t && IsNumbered(t)
    ensures GoodScan(Scan(scan.Saved(), AfterDot(t)))
  {
    hide TrimStart, TrimEnd;
    SavedIsGood(scan);
    AfterDotEnds(t);
  }

  lemma GoodText(scan: Scan, t: string)
    requires GoodScan(scan) && Trimmed(t) && '\n' !in t && t != ""
    ensures GoodScan(scan.(points := scan.points + [t]))
    ensures GoodScan(scan.(current := scan.current + " " + t))
  {
  }

  lemma GoodLine(scan: Scan, line: string)
    requires GoodScan(scan) && '\n' !in line && OnLine(scan, line).Some?
    ensures GoodScan(OnLine(scan, line).value)
  {
    hide GoodScan, Trim, Trimmed, IsDash, IsNumbered, AfterDot;
    var t := Trim(line);
    TrimTrims(line);
    if IsDash(t) {
      GoodDash(scan, t);
    } else if IsNumbered(t) {
      GoodNumbered(scan, t);
    } else if t != "" {
      GoodText(scan, t);
    }
  }

  lemma {:induction false} GoodLines(scan: Scan, lines: seq<string>)
    requires GoodScan(scan) && OnLines(scan, lines).Some?
    requires forall i :: 0 <= i < |lines| ==> '\n' !in lines[i]
    ensures GoodScan(OnLines(scan, lines).value)
    decreases lines
  {
    if lines != [] {
      GoodLine(scan, lines[0]);
      GoodLines(OnLine(scan, lines[0]).value, lines[1..]);
    }
  }

  /** Every extracted point is non-empty, trimmed and on one line. */
  lemma ExtractedPointsAreGood(content: string)
    requires Extract(content).Some?
    ensures GoodPoints(Extract(content).value)
  {
    LinesHaveNoNewline(content);
    GoodLines(Scan([], ""), Lines(content));
    SavedIsGood(OnLines(Scan([], ""), Lines(content)).value);
  }

  /** The list `journal_to_memory_entries` builds before it trims the entry. */
  function PrintBullets(points: seq<string>): string {
    if points == [] then "" else "- " + points[0] + "\n" + PrintBullets(points[1..])
  }

  function BulletLines(points: seq<string>): seq<string> {
    seq(|points|, i requires 0 <= i < |points| => "- " + points[i])
  }

  lemma {:induction false} PrintBulletsIsLines(points: seq<string>)
    ensures PrintBullets(points) == PrintLines(BulletLines(points))
    decreases points
  {
    if points != [] {
      assert BulletLines(points)[1..] == BulletLines(points[1..]);
      PrintBulletsIsLines(points[1..]);
    }
  }

  lemma BulletLinePlain(p: string)
    requires GoodPoint(p)
    ensures Plain("- " + p)
  {
    assert IsWhitespace('\r');
  }

  lemma OnLinesCons(scan: Scan, head: string, rest: seq<string>)
    requires OnLine(scan, head).Some?
    ensures OnLines(scan, [head] + rest) == OnLines(OnLine(scan, head).value, rest)
  {
    assert ([head] + rest)[1..] == rest;
  }

  lemma ReadBullet(scan: Scan, p: string)
    requires GoodPoint(p)
    ensures OnLine(scan, "- " + p) == Some(Scan(scan.Saved(), p))
    ensures Scan(scan.Saved(), p).Saved() == scan.Saved() + [p]
  {
    var line := "- " + p;
    TrimTrims(line);
    TrimTrims(p);
    assert Trimmed(line) && line[2..] == p;
  }

  lemma {:induction false} ReadBullets(scan: Scan, points: seq<string>)
    requires GoodPoints(points) && (scan.current == "" || GoodPoint(scan.current))
    ensures OnLines(scan, BulletLines(points)).Some?
    ensures OnLines(scan, BulletLines(points)).value.Saved() == scan.Saved() + points
    decreases points
  {
    if points != [] {
      var p := points[0];
      var next := Scan(scan.Saved(), p);
      assert BulletLines(points) == ["- " + p] + BulletLines(points[1..]);
      hide BulletLines, OnLine, OnLines, Scan.Saved;
      ReadBullet(scan, p);
      OnLinesCons(scan, "- " + p, BulletLines(points[1..]));
      ReadBullets(next, points[1..]);
      assert scan.Saved() + [p] + points[1..] == scan.Saved() + points;
    }
  }

  lemma BulletTextTrims(front: seq<string>, p: string)
    requires GoodPoint(p)
    ensures var text := PrintLines(BulletLines(front)) + ("- " + p); Trim(text + "\n") == text
  {
    var text := PrintLines(BulletLines(front)) + ("- " + p);
    assert text[0] == '-' by {
      if front != [] { assert PrintLines(BulletLines(front))[0] == '-'; }
    }
    assert text[|text| - 1] == p[|p| - 1];
    assert TrimStart(text + "\n") == text + "\n";
    assert (text + "\n")[..|text|] == text;
    assert TrimEnd(text + "\n") == TrimEnd(text) == text;
  }

  lemma BulletLinesOf(front: seq<string>, p: string)
    requires GoodPoints(front) && GoodPoint(p)
    ensures Lines(Trim(PrintBullets(front + [p]))) == BulletLines(front) + ["- " + p]
  {
    hide Lines, Trim, PrintBullets;
    var all, line := BulletLines(front), "- " + p;
    PrintBulletsIsLines(front + [p]);
    assert BulletLines(front + [p]) == all + [line];
    PrintLinesSnoc(all, line);
    BulletTextTrims(front, p);
    BulletLinePlain(p);
    forall i | 0 <= i < |all| ensures Plain(all[i]) { BulletLinePlain(front[i]); }
    UnterminatedRoundTrip(all, line);
  }

  lemma BulletLinesSnoc(front: seq<string>, p: string)
    ensures BulletLines(front + [p]) == BulletLines(front) + ["- " + p]
  {
  }

  /** What the importer prints for good points is read back as the same list. */
  lemma PrintedBulletsReadBack(points: seq<string>)
    requires GoodPoints(points)
    ensures Extract(Trim(PrintBullets(points))) == Some(points)
  {
    ReadBullets(Scan([], ""), points);
    assert Scan([], "").Saved() + points == points;
    if points == [] {
      assert Lines("") == [];
    } else {
      hide Lines, Trim, TrimStart, TrimEnd, PrintBullets, OnLines, BulletLines, GoodPoint;
      var front, p := points[..|points| - 1], points[|points| - 1];
      assert points == front + [p];
      BulletLinesOf(front, p);
      BulletLinesSnoc(front, p);
    }
  }

  /** extract . print . extract = extract. */
  lemma ExtractPrintExtract(content: string)
    requires Extract(content).Some?
    ensures Extract(Trim(PrintBullets(Extract(content).value))) == Extract(content)
  {
    ExtractedPointsAreGood(content);
    PrintedBulletsReadBack(Extract(content).value);
  }

  // ---------------------------------------------------------------- every list is read

  /** The number, letters and all, before the first dot and blank of a numbered item. */
  predicate IsLabel(number: string) { number != "" && '0' <= number[0] <= '9' && !ContainsDot(number) }

  datatype Mark = Dash | Star | Number(number: string) {
    function Print(): string { match this case Dash => "- " case Star => "* " case Number(number) => number + ". " }
  }

  /** A row that opens an item: one of the marks and a text. */
  ghost predicate Opens(row: string) {
    || (exists rest: string :: row == "- " + rest)
    || (exists rest: string :: row == "* " + rest)
    || (exists rest: string :: row == "\U{2022} " + rest)
    || (exists number: string, rest: string :: IsLabel(number) && row == number + (". " + rest))
  }

  ghost predicate Loose(row: string) { GoodPoint(row) && !Opens(row) }

  /** An item and the rows that continue it. */
  datatype Item = Item(mark: Mark, gap: string, text: string, more: seq<string>) {
    ghost predicate Valid() {
      && (mark.Number? ==> IsLabel(mark.number))
      && Blank(gap) && '\n' !in gap && GoodPoint(text)
      && forall row :: row in more ==> Loose(row)
    }

    function Rows(): seq<string> { [mark.Print() + (gap + text)] + more }

    function Point(): string { text + Continued(more) }
  }

  function Continued(rows: seq<string>): string {
    if rows == [] then "" else " " + rows[0] + Continued(rows[1..])
  }

  function ItemRows(items: seq<Item>): seq<string> {
    if items == [] then [] else items[0].Rows() + ItemRows(items[1..])
  }

  function ItemPoints(items: seq<Item>): seq<string> {
    if items == [] then [] else [items[0].Point()] + ItemPoints(items[1..])
  }

  /** The rows of a section: loose ones first, then items. */
  datatype Section = Section(loose: seq<string>, items: seq<Item>) {
    ghost predicate Valid() {
      (forall row :: row in loose ==> Loose(row)) && forall item :: item in items ==> item.Valid()
    }

    function Rows(): seq<string> { loose + ItemRows(items) }

    function Points(): seq<string> { loose + ItemPoints(items) }
  }

  /** The lines that are not blank, trimmed. */
  function Rows(lines: seq<string>): seq<string> {
    if lines == [] then []
    else (if Trim(lines[0]) == "" then [] else [Trim(lines[0])]) + Rows(lines[1..])
  }

  // The scan sees the rows alone.

  lemma {:induction false} RowsSuffice(scan: Scan, lines: seq<string>)
    ensures OnLines(scan, lines) == OnLines(scan, Rows(lines))
    decreases lines
  {
    if lines == [] { return; }
    hide OnLine, Trim, Trimmed;
    var row, rest := Trim(lines[0]), Rows(lines[1..]);
    TrimTrims(lines[0]);
    TrimTrims(row);
    SameRow(scan, lines[0], row);
    if row == "" {
      assert [] + rest == rest;
    } else {
      assert ([row] + rest)[1..] == rest;
    }
    if OnLine(scan, lines[0]).Some? { RowsSuffice(OnLine(scan, lines[0]).value, lines[1..]); }
  }

  lemma SameRow(scan: Scan, line: string, row: string)
    requires row == Trim(line) == Trim(row)
    ensures OnLine(scan, line) == OnLine(scan, row)
    ensures row == "" ==> OnLine(scan, line) == Some(scan)
  {
  }

  lemma {:induction false} OnLinesConcat(scan: Scan, a: seq<string>, b: seq<string>)
    requires OnLines(scan, a).Some?
    ensures OnLines(scan, a + b) == OnLines(OnLines(scan, a).value, b)
    decreases a
  {
    if a == [] {
      assert a + b == b;
    } else {
      assert (a + b)[1..] == a[1..] + b;
      OnLinesConcat(OnLine(scan, a[0]).value, a[1..], b);
    }
  }

  // Which rows open an item.

  lemma {:induction false} DotAt(number: string, rest: string)
    requires !ContainsDot(number)
    ensures ContainsDot(number + (". " + rest)) && AfterDot(number + (". " + rest)) == rest
    decreases number
  {
    var s := number + (". " + rest);
    assert s[|number|] == '.' && s[|number| + 1] == ' ';
    if number == "" {
      assert s[2..] == rest;
    } else {
      assert s[1..] == number[1..] + (". " + rest);
      assert number[0] == '.' && s[1] == ' ' ==> |number| > 1;
      forall i | 0 <= i < |number[1..]| - 1 ensures !(number[1..][i] == '.' && number[1..][i + 1] == ' ') {
        assert number[1..][i] == number[i + 1] && number[1..][i + 1] == number[i + 2];
      }
      DotAt(number[1..], rest);
    }
  }

  lemma DotFreeCons(c: char, tail: string)
    requires !ContainsDot(tail) && !(c == '.' && tail != "" && tail[0] == ' ')
    ensures !ContainsDot([c] + tail)
  {
    var s := [c] + tail;
    forall i | 0 <= i < |s| - 1 ensures !(s[i] == '.' && s[i + 1] == ' ') {
      assert s[i + 1] == tail[i];
      assert i > 0 ==> s[i] == tail[i - 1];
    }
  }

  lemma PutBack(c: char, tail: string, rest: string)
    ensures [c] + (tail + rest) == [c] + tail + rest
  {
  }

  lemma {:induction false} DotSplits(s: string) returns (number: string)
    requires ContainsDot(s)
    ensures !ContainsDot(number) && s == number + (". " + AfterDot(s))
    decreases s
  {
    if s[0] == '.' && s[1] == ' ' { return ""; }
    AfterDotTail(s);
    var tail := DotSplits(s[1..]);
    hide ContainsDot;
    assert tail != "" ==> tail[0] == s[1];
    assert tail == "" ==> s[1] == '.';
    DotFreeCons(s[0], tail);
    number := [s[0]] + tail;
    assert s == [s[0]] + s[1..];
    assert AfterDot(s) == AfterDot(s[1..]);
    hide AfterDot;
    PutBack(s[0], tail, ". " + AfterDot(s));
  }

  lemma NumberSplits(row: string) returns (number: string)
    requires IsNumbered(row)
    ensures IsLabel(number) && row == number + (". " + AfterDot(row))
  {
    number := DotSplits(row);
    assert row[0] == (number + (". " + AfterDot(row)))[0];
  }

  lemma NumberedIff(row: string)
    ensures IsNumbered(row) <==> exists number: string, rest: string :: IsLabel(number) && row == number + (". " + rest)
  {
    if IsNumbered(row) { var number := NumberSplits(row); }
    if exists number: string, rest: string :: IsLabel(number) && row == number + (". " + rest) {
      var number: string, rest: string :| IsLabel(number) && row == number + (". " + rest);
      DotAt(number, rest);
    }
  }

  lemma OpensIff(row: string)
    ensures Opens(row) <==> IsDash(row) || IsRound(row) || IsNumbered(row)
  {
    hide IsNumbered, IsLabel;
    NumberedIff(row);
    PrefixIff(row, "- ");
    PrefixIff(row, "* ");
    PrefixIff(row, "\U{2022} ");
  }

  lemma PrefixIff(row: string, prefix: string)
    ensures StartsWith(row, prefix) <==> exists rest: string :: row == prefix + rest
  {
    if StartsWith(row, prefix) { assert row == prefix + row[|prefix|..]; }
  }

  // Loose rows and items, one at a time.

  lemma LooseRow(scan: Scan, row: string)
    requires Loose(row)
    ensures OnLine(scan, row) == Some(if scan.current == "" then scan.(points := scan.points + [row])
                                      else scan.(current := scan.current + (" " + row)))
  {
    hide IsDash, IsRound, IsNumbered, TrimStart, TrimEnd;
    OpensIff(row);
    TrimTrims(row);
    assert scan.current + " " + row == scan.current + (" " + row);
  }

  lemma {:induction false} LooseRows(scan: Scan, rows: seq<string>)
    requires (forall row :: row in rows ==> Loose(row)) && scan.current == ""
    ensures OnLines(scan, rows) == Some(scan.(points := scan.points + rows))
    decreases rows
  {
    if rows == [] {
      assert scan.points + rows == scan.points;
      return;
    }
    hide OnLine, Loose;
    LooseRow(scan, rows[0]);
    LooseRows(scan.(points := scan.points + [rows[0]]), rows[1..]);
    assert scan.points + [rows[0]] + rows[1..] == scan.points + rows;
  }

  lemma {:induction false} MoreRows(scan: Scan, rows: seq<string>)
    requires (forall row :: row in rows ==> Loose(row)) && scan.current != ""
    ensures OnLines(scan, rows) == Some(scan.(current := scan.current + Continued(rows)))
    decreases rows
  {
    if rows == [] {
      assert scan.current + "" == scan.current;
      return;
    }
    hide OnLine, Loose, Continued;
    LooseRow(scan, rows[0]);
    ContinuedCons(scan.current, rows);
    MoreRows(scan.(current := scan.current + (" " + rows[0])), rows[1..]);
  }

  lemma OpeningTrimmed(mark: Mark, gap: string, text: string)
    requires (mark.Number? ==> IsLabel(mark.number)) && GoodPoint(text)
    ensures Trimmed(mark.Print() + (gap + text))
  {
    var row := mark.Print() + (gap + text);
    assert row[|row| - 1] == text[|text| - 1];
    assert row[0] == mark.Print()[0];
  }

  lemma OpeningRow(scan: Scan, item: Item)
    requires item.Valid()
    ensures OnLine(scan, item.mark.Print() + (item.gap + item.text)) == Some(Scan(scan.Saved(), item.gap + item.text))
  {
    var body := item.gap + item.text;
    var row := item.mark.Print() + body;
    OpeningTrimmed(item.mark, item.gap, item.text);
    TrimTrims(row);
    hide Trim, Trimmed, GoodPoint, Loose;
    match item.mark
    case Dash => assert row[2..] == body;
    case Star => assert row[2..] == body;
    case Number(number) =>
      MarkThenBody(number, body);
      hide Mark.Print, Scan.Saved;
      NumberedRow(number, body);
  }

  lemma NumberedRow(number: string, body: string)
    requires IsLabel(number)
    ensures var row := number + (". " + body);
            !IsDash(row) && !IsRound(row) && IsNumbered(row) && AfterDot(row) == body
  {
    DotAt(number, body);
    assert (number + (". " + body))[0] == number[0];
  }

  lemma LongerIsGood(text: string, row: string)
    requires GoodPoint(text) && GoodPoint(row)
    ensures GoodPoint(text + (" " + row))
  {
    var longer := text + (" " + row);
    assert longer[|longer| - 1] == row[|row| - 1];
  }

  lemma ContinuedCons(text: string, rows: seq<string>)
    requires rows != []
    ensures text + Continued(rows) == text + (" " + rows[0]) + Continued(rows[1..])
  {
  }

  lemma {:induction false} ContinuedEnds(text: string, rows: seq<string>)
    requires GoodPoint(text) && forall row :: row in rows ==> GoodPoint(row)
    ensures GoodPoint(text + Continued(rows))
    decreases rows
  {
    if rows == [] {
      assert text + "" == text;
      return;
    }
    hide GoodPoint;
    assert rows[0] in rows;
    LongerIsGood(text, rows[0]);
    ContinuedEnds(text + (" " + rows[0]), rows[1..]);
    ContinuedCons(text, rows);
  }

  lemma ItemRead(scan: Scan, item: Item)
    requires item.Valid()
    ensures OnLines(scan, item.Rows()).Some?
    ensures OnLines(scan, item.Rows()).value.Saved() == scan.Saved() + [item.Point()]
  {
    hide OnLine, Loose, Mark.Print, GoodPoint, Blank, Trim;
    var body := item.gap + item.text;
    var started := Scan(scan.Saved(), body);
    OpeningRow(scan, item);
    OnLinesCons(scan, item.mark.Print() + body, item.more);
    assert body != "" by { assert GoodPoint(item.text); NotEmpty(item.text); }
    MoreRows(started, item.more);
    forall row | row in item.more ensures GoodPoint(row) { LooseIsGood(row); }
    ContinuedEnds(item.text, item.more);
    SavedPoint(item.gap, item.Point());
    assert body + Continued(item.more) == item.gap + item.Point();
  }

  lemma NotEmpty(p: string)
    requires GoodPoint(p)
    ensures p != ""
  {
  }

  lemma LooseIsGood(row: string)
    requires Loose(row)
    ensures GoodPoint(row)
  {
  }

  lemma SavedPoint(gap: string, point: string)
    requires Blank(gap) && GoodPoint(point)
    ensures Trim(gap + point) == point && gap + point != ""
  {
    TrimStrips(gap, point, "");
    assert gap + point + "" == gap + point;
  }

  lemma ItemsUnfold(items: seq<Item>, before: seq<string>)
    requires items != []
    ensures ItemRows(items) == items[0].Rows() + ItemRows(items[1..])
    ensures before + ItemPoints(items) == before + [items[0].Point()] + ItemPoints(items[1..])
    ensures items[0] in items && forall item :: item in items[1..] ==> item in items
  {
    hide Item.Rows, Item.Point;
  }

  lemma {:induction false} ItemsRead(scan: Scan, items: seq<Item>)
    requires forall item :: item in items ==> item.Valid()
    ensures OnLines(scan, ItemRows(items)).Some?
    ensures OnLines(scan, ItemRows(items)).value.Saved() == scan.Saved() + ItemPoints(items)
    decreases items
  {
    if items == [] {
      assert scan.Saved() + [] == scan.Saved();
      return;
    }
    hide OnLines, Item.Rows, Item.Point, Item.Valid, Scan.Saved, ItemRows, ItemPoints;
    ItemsUnfold(items, scan.Saved());
    ItemRead(scan, items[0]);
    OnLinesConcat(scan, items[0].Rows(), ItemRows(items[1..]));
    ItemsRead(OnLines(scan, items[0].Rows()).value, items[1..]);
  }

  /** Dashes, stars and numbers, continued over any lines, with blanks and blank lines anywhere:
      the loose rows before the first item are a point each, and then each item is one. */
  lemma SectionIsRead(content: string, section: Section)
    requires section.Valid() && Rows(Lines(content)) == section.Rows()
    ensures Extract(content) == Some(section.Points())
  {
    hide OnLines, Rows, Lines, ItemRows, ItemPoints, Item.Valid, Loose;
    var start := Scan([], "");
    RowsSuffice(start, Lines(content));
    LooseRows(start, section.loose);
    OnLinesConcat(start, section.loose, ItemRows(section.items));
    var scan := Scan([] + section.loose, "");
    ItemsRead(scan, section.items);
    assert scan.Saved() == section.loose;
  }

  // Every content without a round marker is such a section.

  predicate GoodRow(row: string) { GoodPoint(row) && !IsRound(row) }

  lemma {:induction false} RowsAreGood(lines: seq<string>)
    requires forall i :: 0 <= i < |lines| ==> '\n' !in lines[i]
    requires !HasRoundLine(lines)
    ensures forall row :: row in Rows(lines) ==> GoodRow(row)
    decreases lines
  {
    if lines == [] { return; }
    hide IsRound, Trim, Trimmed;
    TrimTrims(lines[0]);
    forall i | 0 <= i < |lines[1..]| ensures !IsRound(Trim(lines[1..][i])) { assert lines[1..][i] == lines[i + 1]; }
    RowsAreGood(lines[1..]);
    assert Trim(lines[0]) != "" ==> GoodRow(Trim(lines[0]));
  }

  lemma {:induction false} SplitBlank(s: string) returns (gap: string, text: string)
    requires s != "" && !IsWhitespace(s[|s| - 1])
    ensures s == gap + text && Blank(gap) && text != "" && Trimmed(text)
    decreases s
  {
    if IsWhitespace(s[0]) {
      gap, text := SplitBlank(s[1..]);
      gap := [s[0]] + gap;
      assert s == [s[0]] + s[1..];
    } else {
      gap, text := "", s;
    }
  }

  lemma OpeningSplits(row: string) returns (mark: Mark, body: string)
    requires GoodRow(row) && Opens(row)
    ensures mark.Number? ==> IsLabel(mark.number)
    ensures row == mark.Print() + body && body != "" && body[|body| - 1] == row[|row| - 1]
  {
    OpensIff(row);
    hide Opens, IsLabel, TrimStart, TrimEnd;
    if IsDash(row) {
      mark, body := if StartsWith(row, "- ") then Dash else Star, row[2..];
      assert row[1] == ' ' && IsWhitespace(' ');
    } else {
      var number := NumberSplits(row);
      mark, body := Number(number), AfterDot(row);
      AfterDotEnds(row);
      MarkThenBody(number, body);
    }
  }

  lemma MarkThenBody(number: string, body: string)
    ensures number + (". " + body) == Number(number).Print() + body
  {
  }

  lemma OpeningIsItem(row: string, more: seq<string>) returns (item: Item)
    requires GoodRow(row) && Opens(row)
    requires forall other :: other in more ==> Loose(other)
    ensures item.Valid() && item.Rows() == [row] + more
  {
    hide Opens, IsLabel, Loose, Mark.Print;
    var mark, body := OpeningSplits(row);
    assert forall c :: c in body ==> c in row;
    var gap, text := SplitBlank(body);
    assert forall c :: c in gap || c in text ==> c in body;
    item := Item(mark, gap, text, more);
  }

  lemma {:induction false} RowsMakeSection(rows: seq<string>) returns (section: Section)
    requires forall row :: row in rows ==> GoodRow(row)
    ensures section.Valid() && section.Rows() == rows
    decreases rows
  {
    if rows == [] { return Section([], []); }
    hide Loose, Item.Valid, Item.Rows, GoodRow, Opens;
    var rest := RowsMakeSection(rows[1..]);
    if Opens(rows[0]) {
      var item := OpeningIsItem(rows[0], rest.loose);
      section := Section([], [item] + rest.items);
      assert section.items[1..] == rest.items;
    } else {
      assert Loose(rows[0]) by { GoodRowLoose(rows[0]); }
      section := Section([rows[0]] + rest.loose, rest.items);
    }
    assert rows == [rows[0]] + rows[1..];
  }

  lemma GoodRowLoose(row: string)
    requires GoodRow(row) && !Opens(row)
    ensures Loose(row)
  {
  }

  /** So the theorem is about every content on which extraction does not panic. */
  lemma EveryContentIsSection(content: string) returns (section: Section)
    requires !HasRoundLine(Lines(content))
    ensures section.Valid() && Rows(Lines(content)) == section.Rows()
  {
    LinesHaveNoNewline(content);
    RowsAreGood(Lines(content));
    section := RowsMakeSection(Rows(Lines(content)));
  }
}
