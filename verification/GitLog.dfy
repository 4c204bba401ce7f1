/** The two parsers of `git log` output, and the printed form they undo. */
module GitLog {
  import opened Wrappers
  import opened Text

  predicate IsHexDigit(c: char) { '0' <= c <= '9' || 'a' <= c <= 'f' || 'A' <= c <= 'F' }

  predicate IsHash(line: string) {
    |line| == 40 && forall i :: 0 <= i < |line| ==> IsHexDigit(line[i])
  }

  /** Forty hexadecimal digits. */
  predicate FortyHex(line: string) { |line| == 40 && forall c :: c in line ==> c in "0123456789abcdefABCDEF" }

  lemma HexDigitIff(c: char)
    ensures IsHexDigit(c) <==> c in "0123456789abcdefABCDEF"
  {
    var digits := "0123456789abcdefABCDEF";
    if '0' <= c <= '9' { assert digits[c as int - '0' as int] == c; }
    if 'a' <= c <= 'f' { assert digits[10 + c as int - 'a' as int] == c; }
    if 'A' <= c <= 'F' { assert digits[16 + c as int - 'A' as int] == c; }
  }

  lemma HashIff(line: string)
    ensures IsHash(line) <==> FortyHex(line)
  {
    hide IsHexDigit;
    forall c ensures IsHexDigit(c) <==> c in "0123456789abcdefABCDEF" { HexDigitIff(c); }
    assert forall i :: 0 <= i < |line| ==> line[i] in line;
  }

  // ------------------------------------------------------------- parse_name_only_log

  datatype Scan = Scan(groups: seq<seq<string>>, current: seq<string>, inCommit: bool) {
    function Close(): seq<seq<string>> { if inCommit then groups + [current] else groups }

    function OnLine(line: string): Scan {
      if IsHash(line) then Scan(Close(), if inCommit then [] else current, true)
      else if line != "" then this.(current := current + [line])
      else this
    }

    function OnLines(lines: seq<string>): Scan
      decreases lines
    {
      if lines == [] then this else OnLine(lines[0]).OnLines(lines[1..])
    }
  }

  const Fresh := Scan([], [], false)

  function GroupsOf(lines: seq<string>): seq<seq<string>> { Fresh.OnLines(lines).Close() }

  lemma {:induction false} OnLinesConcat(scan: Scan, a: seq<string>, b: seq<string>)
    ensures scan.OnLines(a + b) == scan.OnLines(a).OnLines(b)
    decreases a
  {
    if a == [] {
      assert a + b == b;
    } else {
      assert (a + b)[1..] == a[1..] + b;
      OnLinesConcat(scan.OnLine(a[0]), a[1..], b);
    }
  }

  method ParseNameOnlyLog(stdout: string) returns (groups: seq<seq<string>>)
    ensures groups == GroupsOf(Lines(stdout))
  {
    var lines := Lines(stdout);
    var current, inCommit := [], false;
    groups := [];
    for i := 0 to |lines|
      invariant Fresh.OnLines(lines[..i]) == Scan(groups, current, inCommit)
    {
      assert lines[..i + 1] == lines[..i] + [lines[i]];
      OnLinesConcat(Fresh, lines[..i], [lines[i]]);
      if IsHash(lines[i]) {
        if inCommit {
          groups := groups + [current];
          current := [];
        }
        inCommit := true;
        continue;
      }
      if lines[i] != "" {
        current := current + [lines[i]];
      }
    }
    assert lines[..|lines|] == lines;
    if inCommit {
      groups := groups + [current];
    }
  }

  datatype Commit = Commit(hash: string, files: seq<string>)

  /** The lines `git log --name-only --pretty=format:%H` prints, without blank ones. */
  function CommitLines(commits: seq<Commit>): seq<string> {
    if commits == [] then [] else [commits[0].hash] + commits[0].files + CommitLines(commits[1..])
  }

  function FilesOf(commits: seq<Commit>): seq<seq<string>> {
    seq(|commits|, i requires 0 <= i < |commits| => commits[i].files)
  }

  function NonBlank(lines: seq<string>): seq<string> {
    if lines == [] then []
    else if lines[0] != "" then [lines[0]] + NonBlank(lines[1..])
    else NonBlank(lines[1..])
  }

  predicate WellPrinted(commits: seq<Commit>) {
    forall i :: 0 <= i < |commits| ==>
      FortyHex(commits[i].hash) && forall j :: 0 <= j < |commits[i].files| ==> commits[i].files[j] != ""
  }

  predicate NoHashNames(files: seq<string>) { forall j :: 0 <= j < |files| ==> !FortyHex(files[j]) }

  predicate NoHashFiles(commits: seq<Commit>) {
    forall i :: 0 <= i < |commits| ==> NoHashNames(commits[i].files)
  }

  lemma {:induction false} BlanksAreIgnored(scan: Scan, lines: seq<string>)
    ensures scan.OnLines(lines) == scan.OnLines(NonBlank(lines))
    decreases lines
  {
    if lines != [] {
      BlanksAreIgnored(scan.OnLine(lines[0]), lines[1..]);
      if lines[0] != "" { assert NonBlank(lines)[1..] == NonBlank(lines[1..]); }
    }
  }

  lemma {:induction false} FilesCollect(scan: Scan, files: seq<string>)
    requires NoHashNames(files) && forall j :: 0 <= j < |files| ==> files[j] != ""
    ensures scan.OnLines(files) == scan.(current := scan.current + files)
    decreases files
  {
    if files == [] {
      assert scan.current + files == scan.current;
    } else {
      HashIff(files[0]);
      FilesCollect(scan.OnLine(files[0]), files[1..]);
      assert scan.current + [files[0]] + files[1..] == scan.current + files;
    }
  }

  lemma {:induction false} CommitsCollect(scan: Scan, commits: seq<Commit>)
    requires WellPrinted(commits) && NoHashFiles(commits) && (scan.inCommit || scan.current == [])
    ensures scan.OnLines(CommitLines(commits)).Close() == scan.Close() + FilesOf(commits)
    decreases commits
  {
    if commits != [] {
      var c, rest := commits[0], commits[1..];
      HashIff(c.hash);
      var begun := scan.OnLine(c.hash);
      assert CommitLines(commits) == [c.hash] + (c.files + CommitLines(rest));
      assert NoHashNames(c.files);
      OnLinesConcat(begun, c.files, CommitLines(rest));
      FilesCollect(begun, c.files);
      assert begun.current + c.files == c.files;
      CommitsCollect(begun.(current := c.files), rest);
      assert FilesOf(commits) == [c.files] + FilesOf(rest);
    }
  }

  function Hashes(lines: seq<string>): nat {
    if lines == [] then 0 else (if IsHash(lines[0]) then 1 else 0) + Hashes(lines[1..])
  }

  lemma {:induction false} GroupPerHash(scan: Scan, lines: seq<string>)
    ensures |scan.OnLines(lines).Close()| == |scan.Close()| + Hashes(lines)
    decreases lines
  {
    if lines != [] { GroupPerHash(scan.OnLine(lines[0]), lines[1..]); }
  }

  lemma {:induction false} HashesConcat(a: seq<string>, b: seq<string>)
    ensures Hashes(a + b) == Hashes(a) + Hashes(b)
    decreases a
  {
    if a == [] {
      assert a + b == b;
    } else {
      assert (a + b)[1..] == a[1..] + b;
      HashesConcat(a[1..], b);
    }
  }

  lemma {:induction false} HashNamesCount(files: seq<string>)
    ensures Hashes(files) == 0 <==> NoHashNames(files)
    decreases files
  {
    if files != [] {
      HashNamesCount(files[1..]);
      HashIff(files[0]);
      if NoHashNames(files) { assert NoHashNames(files[1..]); }
      if NoHashNames(files[1..]) && !FortyHex(files[0]) {
        assert forall j :: 0 < j < |files| ==> files[j] == files[1..][j - 1];
      }
    }
  }

  lemma {:induction false} HashesOfCommits(commits: seq<Commit>)
    requires WellPrinted(commits)
    ensures Hashes(CommitLines(commits)) >= |commits|
    ensures Hashes(CommitLines(commits)) == |commits| <==> NoHashFiles(commits)
    decreases commits
  {
    if commits != [] {
      var c, rest := commits[0], commits[1..];
      HashesOfCommits(rest);
      HashIff(c.hash);
      HashesConcat([c.hash], c.files + CommitLines(rest));
      HashesConcat(c.files, CommitLines(rest));
      HashNamesCount(c.files);
      assert CommitLines(commits) == [c.hash] + (c.files + CommitLines(rest));
      if NoHashFiles(rest) && NoHashNames(c.files) {
        assert forall i :: 0 < i < |commits| ==> commits[i] == rest[i - 1];
      }
      if NoHashFiles(commits) { assert NoHashNames(commits[0].files); }
    }
  }

  /** Whatever blank lines surround them, the printed commits are read back as their file
      groups, empty ones included, exactly when no file is named like a commit hash. */
  lemma GroupsRoundTrip(lines: seq<string>, commits: seq<Commit>)
    requires WellPrinted(commits) && NonBlank(lines) == CommitLines(commits)
    ensures GroupsOf(lines) == FilesOf(commits) <==> NoHashFiles(commits)
  {
    BlanksAreIgnored(Fresh, lines);
    if NoHashFiles(commits) {
      CommitsCollect(Fresh, commits);
      assert [] + FilesOf(commits) == FilesOf(commits);
    } else {
      GroupPerHash(Fresh, CommitLines(commits));
      HashesOfCommits(commits);
    }
  }

  /** The same on the text, with or without a final newline. */
  lemma NameOnlyLogRoundTrip(lines: seq<string>, last: string, commits: seq<Commit>)
    requires forall i :: 0 <= i < |lines| ==> Plain(lines[i])
    requires Plain(last) && last != ""
    requires WellPrinted(commits) && NonBlank(lines + [last]) == CommitLines(commits)
    ensures GroupsOf(Lines(PrintLines(lines + [last]))) == FilesOf(commits) <==> NoHashFiles(commits)
    ensures GroupsOf(Lines(PrintLines(lines) + last)) == FilesOf(commits) <==> NoHashFiles(commits)
  {
    GroupsRoundTrip(lines + [last], commits);
    LinesRoundTrip(lines + [last]);
    UnterminatedRoundTrip(lines, last);
  }

  // ----------------------------------------------------------------- decimal numbers

  const I64_MIN: int := -0x8000_0000_0000_0000
  const I64_MAX: int := 0x7FFF_FFFF_FFFF_FFFF

  predicate IsDigits(s: string) { forall i :: 0 <= i < |s| ==> '0' <= s[i] <= '9' }

  function DigitsValue(s: string): nat
    requires IsDigits(s)
  {
    if s == "" then 0 else DigitsValue(s[..|s| - 1]) * 10 + (s[|s| - 1] as int - '0' as int)
  }

  /** `str::parse::<i64>`. */
  function ParseI64(s: string): Option<int> {
    var signed := s != "" && (s[0] == '-' || s[0] == '+');
    var digits := if signed then s[1..] else s;
    if digits == "" || !IsDigits(digits) then None
    else
      var magnitude: int := DigitsValue(digits);
      var value := if signed && s[0] == '-' then -magnitude else magnitude;
      if I64_MIN <= value <= I64_MAX then Some(value) else None
  }

  function Decimal(n: nat): string {
    if n < 10 then [(n + '0' as int) as char] else Decimal(n / 10) + [(n % 10 + '0' as int) as char]
  }

  function PrintI64(t: int): string { if t < 0 then "-" + Decimal(-t) else Decimal(t) }

  lemma {:induction false} DecimalRoundTrip(n: nat)
    ensures Decimal(n) != "" && IsDigits(Decimal(n)) && DigitsValue(Decimal(n)) == n
    decreases n
  {
    if n < 10 {
      assert Decimal(n)[..0] == "";
    } else {
      DecimalRoundTrip(n / 10);
      var s := Decimal(n);
      assert s[..|s| - 1] == Decimal(n / 10);
    }
  }

  lemma I64RoundTrip(t: int)
    requires I64_MIN <= t <= I64_MAX
    ensures ParseI64(PrintI64(t)) == Some(t)
  {
    hide Decimal, DigitsValue, IsDigits;
    var digits := Decimal(if t < 0 then -t else t);
    DecimalRoundTrip(if t < 0 then -t else t);
    DigitsAreUnsigned(digits);
    if t < 0 { assert ("-" + digits)[1..] == digits; }
  }

  predicate Zeros(s: string) { forall c :: c in s ==> c == '0' }

  /** A sign, any zeros in front, and the decimal digits of `t`. */
  predicate Spells(s: string, t: int, sign: string, zeros: string) {
    && (sign == "-" || sign == "+" || sign == "") && (sign == "-" ==> t <= 0) && (sign != "-" ==> t >= 0)
    && Zeros(zeros)
    && s == sign + (zeros + Decimal(if t < 0 then -t else t))
  }

  /** The texts that stand for `t`, within 64 bits. */
  ghost predicate Numeral(s: string, t: int) {
    && -9223372036854775808 <= t <= 9223372036854775807
    && exists sign: string, zeros: string :: Spells(s, t, sign, zeros)
  }

  lemma {:induction false} ZerosAddNothing(zeros: string, digits: string)
    requires Zeros(zeros) && IsDigits(digits)
    ensures IsDigits(zeros + digits) && DigitsValue(zeros + digits) == DigitsValue(digits)
    decreases |zeros| + |digits|
  {
    var s := zeros + digits;
    forall i | 0 <= i < |s| ensures '0' <= s[i] <= '9' {
      if i < |zeros| { assert zeros[i] in zeros; } else { assert s[i] == digits[i - |zeros|]; }
    }
    if digits != "" {
      assert s[..|s| - 1] == zeros + digits[..|digits| - 1];
      ZerosAddNothing(zeros, digits[..|digits| - 1]);
    } else if zeros != "" {
      assert s == zeros && s[..|s| - 1] == zeros[..|zeros| - 1] + "";
      assert zeros[|zeros| - 1] in zeros;
      var fewer := zeros[..|zeros| - 1];
      assert forall c :: c in fewer ==> c in zeros;
      ZerosAddNothing(fewer, "");
    }
  }

  lemma DecimalStep(v: nat, d: nat)
    requires d < 10
    ensures Decimal(10 * v + d) == (if v == 0 then "" else Decimal(v)) + [(d + '0' as int) as char]
    ensures Decimal(0) == "0"
  {
    assert (10 * v + d) / 10 == v && (10 * v + d) % 10 == d;
  }

  lemma Regroup(a: string, b: string, c: string)
    ensures a + (b + c) == a + b + c && a + ("" + c) == a + c
  {
  }

  lemma {:induction false} DigitsAreDecimal(s: string) returns (zeros: string)
    requires s != "" && IsDigits(s)
    ensures Zeros(zeros) && s == zeros + Decimal(DigitsValue(s))
    decreases s
  {
    var init, d := s[..|s| - 1], s[|s| - 1] as int - '0' as int;
    var v := DigitsValue(init);
    var digit := [(d + '0' as int) as char];
    assert s == init + digit && DigitsValue(s) == 10 * v + d;
    DecimalStep(v, d);
    hide Decimal, DigitsValue, IsDigits;
    if init == "" { return ""; }
    zeros := DigitsAreDecimal(init);
    Regroup(zeros, Decimal(v), digit);
    if v == 0 { zeros := zeros + "0"; }
  }

  /** A text is read as a number exactly when it is one of its numerals. */
  lemma ParseI64Iff(s: string, t: int)
    ensures ParseI64(s) == Some(t) <==> Numeral(s, t)
  {
    if ParseI64(s) == Some(t) {
      ReadIsNumeral(s, t);
    }
    if Numeral(s, t) {
      var sign: string, zeros: string :| Spells(s, t, sign, zeros);
      NumeralIsRead(s, t, sign, zeros);
    }
  }

  lemma ReadIsNumeral(s: string, t: int)
    requires ParseI64(s) == Some(t)
    ensures Numeral(s, t)
  {
    hide Decimal, DigitsValue, IsDigits;
    var signed := s != "" && (s[0] == '-' || s[0] == '+');
    var sign, digits := if signed then s[..1] else "", if signed then s[1..] else s;
    var zeros := DigitsAreDecimal(digits);
    assert s == sign + digits;
    assert Spells(s, t, sign, zeros);
  }

  lemma SignedIsRead(sign: string, digits: string)
    requires (sign == "-" || sign == "+" || sign == "") && digits != "" && IsDigits(digits)
    ensures var magnitude: int := DigitsValue(digits);
            var value := if sign == "-" then -magnitude else magnitude;
            I64_MIN <= value <= I64_MAX ==> ParseI64(sign + digits) == Some(value)
  {
    DigitsAreUnsigned(digits);
    hide DigitsValue, IsDigits;
    var s := sign + digits;
    if sign == "" { assert s == digits; } else { assert s[0] == sign[0] && s[1..] == digits; }
  }

  lemma NumeralIsRead(s: string, t: int, sign: string, zeros: string)
    requires I64_MIN <= t <= I64_MAX && Spells(s, t, sign, zeros)
    ensures ParseI64(s) == Some(t)
  {
    hide Decimal, DigitsValue, IsDigits, ParseI64, Zeros;
    var magnitude := Decimal(if t < 0 then -t else t);
    DecimalRoundTrip(if t < 0 then -t else t);
    ZerosAddNothing(zeros, magnitude);
    SignedIsRead(sign, zeros + magnitude);
  }

  lemma DigitsAreUnsigned(s: string)
    requires s != "" && IsDigits(s)
    ensures s[0] != '-' && s[0] != '+'
  {
  }

  lemma I64Prints(t: int)
    ensures Trim(PrintI64(t)) == PrintI64(t)
  {
    DecimalRoundTrip(if t < 0 then -t else t);
    hide Decimal, DigitsValue, Trim;
    var s := PrintI64(t);
    assert '0' <= s[|s| - 1] <= '9' && ('0' <= s[0] <= '9' || s[0] == '-');
    TrimTrims(s);
  }

  // ------------------------------------------------------------- paths_changed_since

  datatype Changes = Changes(newest: map<string, int>, time: int) {
    function OnLine(line: string): Changes {
      if line != "" && line[0] == '\0' then
        var parsed := ParseI64(Trim(line[1..]));
        this.(time := if parsed.Some? then parsed.value else 0)
      else if line == "" then this
      else if line in newest then
        this.(newest := newest[line := if newest[line] >= time then newest[line] else time])
      else this.(newest := newest[line := time])
    }

    function OnLines(lines: seq<string>): Changes
      decreases lines
    {
      if lines == [] then this else OnLine(lines[0]).OnLines(lines[1..])
    }
  }

  function ChangesOf(lines: seq<string>): map<string, int> { Changes(map[], 0).OnLines(lines).newest }

  lemma {:induction false} ChangesConcat(c: Changes, a: seq<string>, b: seq<string>)
    ensures c.OnLines(a + b) == c.OnLines(a).OnLines(b)
    decreases a
  {
    if a == [] {
      assert a + b == b;
    } else {
      assert (a + b)[1..] == a[1..] + b;
      ChangesConcat(c.OnLine(a[0]), a[1..], b);
    }
  }

  method PathsChangedSince(stdout: string) returns (changed: map<string, int>)
    ensures changed == ChangesOf(Lines(stdout))
  {
    var lines := Lines(stdout);
    changed := map[];
    var commitTime := 0;
    for i := 0 to |lines|
      invariant Changes(map[], 0).OnLines(lines[..i]) == Changes(changed, commitTime)
    {
      var line := lines[i];
      assert lines[..i + 1] == lines[..i] + [line];
      ChangesConcat(Changes(map[], 0), lines[..i], [line]);
      if line != "" && line[0] == '\0' {
        var parsed := ParseI64(Trim(line[1..]));
        commitTime := if parsed.Some? then parsed.value else 0;
        continue;
      }
      if line == "" {
        continue;
      }
      if line in changed {
        if changed[line] < commitTime {
          changed := changed[line := commitTime];
        }
      } else {
        changed := changed[line := commitTime];
      }
    }
    assert lines[..|lines|] == lines;
  }

  datatype Timed = Timed(time: int, files: seq<string>)

  function TimedLines(commits: seq<Timed>): seq<string> {
    if commits == [] then []
    else ["\0" + PrintI64(commits[0].time)] + commits[0].files + TimedLines(commits[1..])
  }

  predicate Printable(c: Timed) {
    && I64_MIN <= c.time <= I64_MAX
    && forall j :: 0 <= j < |c.files| ==> c.files[j] != "" && c.files[j][0] != '\0'
  }

  ghost predicate Lists(commits: seq<Timed>, path: string, time: int) {
    exists i :: 0 <= i < |commits| && commits[i].time == time && path in commits[i].files
  }

  /** `newest` maps exactly the listed paths, each to the maximum time of a commit listing it. */
  ghost predicate IsNewest(newest: map<string, int>, commits: seq<Timed>) {
    && (forall path :: path in newest ==> Lists(commits, path, newest[path]))
    && (forall path, time :: Lists(commits, path, time) ==> path in newest && time <= newest[path])
  }

  lemma ListsSnoc(done: seq<Timed>, c: Timed, path: string, time: int)
    ensures Lists(done + [c], path, time) <==> Lists(done, path, time) || (c.time == time && path in c.files)
  {
    var more := done + [c];
    assert more[|done|] == c;
    if Lists(done, path, time) {
      var i :| 0 <= i < |done| && done[i].time == time && path in done[i].files;
      assert more[i] == done[i];
    }
  }

  lemma {:induction false} BlanksChangeNothing(c: Changes, lines: seq<string>)
    ensures c.OnLines(lines) == c.OnLines(NonBlank(lines))
    decreases lines
  {
    if lines != [] {
      BlanksChangeNothing(c.OnLine(lines[0]), lines[1..]);
      if lines[0] != "" { assert NonBlank(lines)[1..] == NonBlank(lines[1..]); }
    }
  }

  /** Reading the files of one commit, `seen` of which were read before. */
  lemma {:induction false} FilesUpdate(c: Changes, done: seq<Timed>, seen: seq<string>, files: seq<string>)
    requires IsNewest(c.newest, done + [Timed(c.time, seen)])
    requires Printable(Timed(c.time, files))
    ensures c.OnLines(files).time == c.time
    ensures IsNewest(c.OnLines(files).newest, done + [Timed(c.time, seen + files)])
    decreases files
  {
    hide Trim, ParseI64, PrintI64, Lists;
    if files == [] {
      assert seen + files == seen;
    } else {
      var f := files[0];
      var next := c.OnLine(f);
      forall path, time
        ensures Lists(done + [Timed(c.time, seen + [f])], path, time) <==>
                Lists(done + [Timed(c.time, seen)], path, time) || (time == c.time && path == f)
      {
        ListsSnoc(done, Timed(c.time, seen + [f]), path, time);
        ListsSnoc(done, Timed(c.time, seen), path, time);
      }
      assert forall j :: 0 <= j < |files[1..]| ==> files[1..][j] == files[j + 1];
      FilesUpdate(next, done, seen + [f], files[1..]);
      assert seen + [f] + files[1..] == seen + files;
    }
  }

  lemma HeaderSetsTime(c: Changes, t: int)
    requires I64_MIN <= t <= I64_MAX
    ensures c.OnLine("\0" + PrintI64(t)) == c.(time := t)
  {
    I64RoundTrip(t);
    I64Prints(t);
    hide PrintI64, ParseI64, Trim;
    assert ("\0" + PrintI64(t))[1..] == PrintI64(t);
  }

  /** A header sets the time to the number in it, blanks aside, and to 0 if it holds none. */
  lemma HeaderTime(c: Changes, before: string, text: string, after: string)
    requires Blank(before) && Blank(after) && Trimmed(text)
    ensures var next := c.OnLine("\0" + (before + text + after));
            && next.newest == c.newest
            && (forall t :: Numeral(text, t) ==> next.time == t)
            && ((forall t :: !Numeral(text, t)) ==> next.time == 0)
  {
    var header := "\0" + (before + text + after);
    assert header[1..] == before + text + after;
    TrimStrips(before, text, after);
    hide ParseI64, Trim, Numeral;
    forall t ensures ParseI64(text) == Some(t) <==> Numeral(text, t) { ParseI64Iff(text, t); }
    var parsed := ParseI64(text);
    assert parsed.Some? ==> Numeral(text, parsed.value);
  }

  lemma OnLinesHead(c: Changes, head: string, rest: seq<string>)
    ensures c.OnLines([head] + rest) == c.OnLine(head).OnLines(rest)
  {
    assert ([head] + rest)[1..] == rest;
  }

  lemma TimedLinesHead(commits: seq<Timed>)
    requires commits != []
    ensures TimedLines(commits) == ["\0" + PrintI64(commits[0].time)] + (commits[0].files + TimedLines(commits[1..]))
  {
    hide PrintI64;
  }

  lemma CommitUnfolds(c: Changes, commits: seq<Timed>)
    requires commits != [] && Printable(commits[0])
    ensures c.OnLines(TimedLines(commits)) ==
            c.(time := commits[0].time).OnLines(commits[0].files).OnLines(TimedLines(commits[1..]))
  {
    HeaderSetsTime(c, commits[0].time);
    hide PrintI64, TimedLines, Changes.OnLine, Changes.OnLines;
    var k, rest := commits[0], TimedLines(commits[1..]);
    TimedLinesHead(commits);
    OnLinesHead(c, "\0" + PrintI64(k.time), k.files + rest);
    ChangesConcat(c.(time := k.time), k.files, rest);
  }

  lemma CommitUpdates(c: Changes, done: seq<Timed>, k: Timed)
    requires IsNewest(c.newest, done) && Printable(k)
    ensures IsNewest(c.(time := k.time).OnLines(k.files).newest, done + [k])
  {
    hide Changes.OnLines, Lists;
    forall path, time ensures Lists(done + [Timed(k.time, [])], path, time) <==> Lists(done, path, time) {
      ListsSnoc(done, Timed(k.time, []), path, time);
    }
    FilesUpdate(c.(time := k.time), done, [], k.files);
    assert [] + k.files == k.files && Timed(k.time, k.files) == k;
  }

  lemma {:induction false} CommitsUpdate(c: Changes, done: seq<Timed>, commits: seq<Timed>)
    requires IsNewest(c.newest, done)
    requires forall i :: 0 <= i < |commits| ==> Printable(commits[i])
    ensures IsNewest(c.OnLines(TimedLines(commits)).newest, done + commits)
    decreases commits
  {
    if commits == [] {
      assert done + commits == done && TimedLines(commits) == [] && c.OnLines([]) == c;
      return;
    }
    hide Changes.OnLines, Changes.OnLine, TimedLines, IsNewest, Printable;
    var k, rest := commits[0], commits[1..];
    assert Printable(k) && forall i :: 0 <= i < |rest| ==> rest[i] == commits[i + 1];
    CommitUnfolds(c, commits);
    CommitUpdates(c, done, k);
    CommitsUpdate(c.(time := k.time).OnLines(k.files), done + [k], rest);
    assert done + [k] + rest == done + commits;
  }

  /** Whatever blank lines surround them, the printed commits yield exactly the listed
      paths, each with the newest commit time that lists it. */
  lemma ChangesAreNewest(lines: seq<string>, commits: seq<Timed>)
    requires forall i :: 0 <= i < |commits| ==> Printable(commits[i])
    requires NonBlank(lines) == TimedLines(commits)
    ensures IsNewest(ChangesOf(lines), commits)
  {
    BlanksChangeNothing(Changes(map[], 0), lines);
    CommitsUpdate(Changes(map[], 0), [], commits);
    assert [] + commits == commits;
  }

  /** The same on the text, with or without a final newline. */
  lemma ChangedPathsAreNewest(lines: seq<string>, last: string, commits: seq<Timed>)
    requires forall i :: 0 <= i < |lines| ==> Plain(lines[i])
    requires Plain(last) && last != ""
    requires forall i :: 0 <= i < |commits| ==> Printable(commits[i])
    requires NonBlank(lines + [last]) == TimedLines(commits)
    ensures IsNewest(ChangesOf(Lines(PrintLines(lines + [last]))), commits)
    ensures IsNewest(ChangesOf(Lines(PrintLines(lines) + last)), commits)
  {
    hide NonBlank, TimedLines, Lines, PrintLines, IsNewest;
    LinesRoundTrip(lines + [last]);
    UnterminatedRoundTrip(lines, last);
    ChangesAreNewest(lines + [last], commits);
  }

  /** The order in which git walks the commits does not matter. */
  lemma CommitOrderIsIrrelevant(lines: seq<string>, commits: seq<Timed>, lines': seq<string>, commits': seq<Timed>)
    requires forall c :: c in commits <==> c in commits'
    requires forall c :: c in commits ==> Printable(c)
    requires NonBlank(lines) == TimedLines(commits) && NonBlank(lines') == TimedLines(commits')
    ensures ChangesOf(lines) == ChangesOf(lines')
  {
    ChangesAreNewest(lines, commits);
    ChangesAreNewest(lines', commits');
    forall path, time ensures Lists(commits, path, time) <==> Lists(commits', path, time) {
      if Lists(commits, path, time) {
        var i :| 0 <= i < |commits| && commits[i].time == time && path in commits[i].files;
        assert commits[i] in commits';
      }
      if Lists(commits', path, time) {
        var i :| 0 <= i < |commits'| && commits'[i].time == time && path in commits'[i].files;
        assert commits'[i] in commits;
      }
    }
  }
}
