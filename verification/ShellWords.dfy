/** The shell reading of `hook_logic.rs`: pipeline splitting, tokenizing and unwrapping. */
module ShellWords {
  import opened Wrappers
  import opened Text

  predicate IsQuote(c: char) { c == '\'' || c == '"' }

  // ------------------------------------------------------------------------ tokenizing

  /** The tokens still to come, with `cur` pending, inside `quote` if there is one. */
  function Tokens(s: string, cur: string, quote: Option<char>, started: bool): seq<string>
    decreases |s|
  {
    if s == "" then
      if started then [cur] else []
    else
      var c, rest := s[0], s[1..];
      if quote.Some? then
        if c == quote.value then Tokens(rest, cur, None, started) else Tokens(rest, cur + [c], quote, started)
      else if IsQuote(c) then
        Tokens(rest, cur, Some(c), true)
      else if IsWhitespace(c) then
        if started then [cur] + Tokens(rest, "", None, false) else Tokens(rest, cur, None, false)
      else
        Tokens(rest, cur + [c], None, true)
  }

  function Tokenize(s: string): seq<string> { Tokens(s, "", None, false) }

  method TokenizeShell(s: string) returns (out: seq<string>)
    ensures out == Tokenize(s)
  {
    out := [];
    var cur, quote, started := "", None, false;
    for i := 0 to |s|
      invariant Tokenize(s) == out + Tokens(s[i..], cur, quote, started)
    {
      var c := s[i];
      assert s[i..][1..] == s[i + 1..];
      match quote {
        case Some(q) =>
          if c == q { quote := None; } else { cur := cur + [c]; }
        case None =>
          if IsQuote(c) {
            quote, started := Some(c), true;
          } else if IsWhitespace(c) {
            if started { out, cur, started := out + [cur], "", false; }
          } else {
            cur, started := cur + [c], true;
          }
      }
    }
    if started { out := out + [cur]; }
  }

  // ------------------------------------------------------------------------- splitting

  datatype Segment = Segment(text: string, source: bool)

  /** The segments still to come, with `cur` pending. */
  function Segments(s: string, cur: string, source: bool, quote: Option<char>): seq<Segment>
    decreases |s|
  {
    if s == "" then [Segment(cur, source)]
    else
      var c, rest := s[0], s[1..];
      if quote.Some? then Segments(rest, cur + [c], source, if c == quote.value then None else quote)
      else if IsQuote(c) then Segments(rest, cur + [c], source, Some(c))
      else if c == ';' then [Segment(cur, source)] + Segments(rest, "", true, None)
      else if (c == '&' || c == '|') && |s| > 1 && s[1] == c then [Segment(cur, source)] + Segments(s[2..], "", true, None)
      else if c == '|' then [Segment(cur, source)] + Segments(rest, "", false, None)
      else Segments(rest, cur + [c], source, None)
  }

  lemma SegmentsRegroup(segments: seq<Segment>, segment: Segment, more: seq<Segment>)
    ensures segments + ([segment] + more) == segments + [segment] + more
  {
  }

  lemma NoMoreSegments(cur: string, source: bool, quote: Option<char>)
    ensures Segments("", cur, source, quote) == [Segment(cur, source)]
  {
  }

  /** One character, or one doubled operator, of the splitting. */
  lemma SegmentsStep(command: string, i: nat, cur: string, source: bool, quote: Option<char>)
    requires i < |command|
    ensures var c, rest := command[i], command[i + 1..];
            var doubled := i + 1 < |command| && command[i + 1] == c;
            Segments(command[i..], cur, source, quote) ==
            if quote.Some? then Segments(rest, cur + [c], source, if c == quote.value then None else quote)
            else if IsQuote(c) then Segments(rest, cur + [c], source, Some(c))
            else if c == ';' then [Segment(cur, source)] + Segments(rest, "", true, None)
            else if (c == '&' || c == '|') && doubled then [Segment(cur, source)] + Segments(command[i + 2..], "", true, None)
            else if c == '|' then [Segment(cur, source)] + Segments(rest, "", false, None)
            else Segments(rest, cur + [c], source, None)
  {
    var s := command[i..];
    assert s[1..] == command[i + 1..];
    assert i + 1 < |command| ==> s[2..] == command[i + 2..] && s[1] == command[i + 1];
  }

  function SourcesOf(segments: seq<Segment>): seq<string> {
    if segments == [] then []
    else (if segments[0].source then [segments[0].text] else []) + SourcesOf(segments[1..])
  }

  function Sources(command: string): seq<string> { SourcesOf(Segments(command, "", true, None)) }

  method PipelineSources(command: string) returns (sources: seq<string>)
    ensures sources == Sources(command)
  {
    var segments: seq<Segment> := [];
    var cur, curIsSource, quote, i := "", true, None, 0;
    hide Segments, SourcesOf;
    assert command[0..] == command;
    while i < |command|
      invariant 0 <= i <= |command|
      invariant Segments(command, "", true, None) == segments + Segments(command[i..], cur, curIsSource, quote)
    {
      var c := command[i];
      SegmentsStep(command, i, cur, curIsSource, quote);
      if quote.Some? {
        cur := cur + [c];
        if c == quote.value { quote := None; }
        i := i + 1;
        continue;
      }
      if IsQuote(c) {
        quote := Some(c);
        cur := cur + [c];
        i := i + 1;
        continue;
      }
      var next := if i + 1 < |command| then Some(command[i + 1]) else None;
      if c == ';' {
        SegmentsRegroup(segments, Segment(cur, curIsSource), Segments(command[i + 1..], "", true, None));
        segments, cur, curIsSource, i := segments + [Segment(cur, curIsSource)], "", true, i + 1;
      } else if (c == '&' && next == Some('&')) || (c == '|' && next == Some('|')) {
        SegmentsRegroup(segments, Segment(cur, curIsSource), Segments(command[i + 2..], "", true, None));
        segments, cur, curIsSource, i := segments + [Segment(cur, curIsSource)], "", true, i + 2;
      } else if c == '|' {
        SegmentsRegroup(segments, Segment(cur, curIsSource), Segments(command[i + 1..], "", false, None));
        segments, cur, curIsSource, i := segments + [Segment(cur, curIsSource)], "", false, i + 1;
      } else {
        cur, i := cur + [c], i + 1;
      }
    }
    NoMoreSegments(cur, curIsSource, quote);
    assert command[i..] == "";
    segments := segments + [Segment(cur, curIsSource)];
    sources := SourcesOf(segments);
  }

  /** Each source command trimmed and tokenized, as both classifiers do. */
  function SourceTokens(segments: seq<Segment>): seq<seq<string>> {
    var sources := SourcesOf(segments);
    seq(|sources|, i requires 0 <= i < |sources| => Tokenize(Trim(sources[i])))
  }

  function Parse(command: string): seq<seq<string>> { SourceTokens(Segments(command, "", true, None)) }

  // -------------------------------------------------------------------------- printing

  predicate IsOperator(c: char) { c == ';' || c == '&' || c == '|' }

  /** Each ampersand has something else after it, as in `2>&1`. */
  predicate LoneAmpersands(s: string) {
    forall i :: 0 <= i < |s| && s[i] == '&' ==> i + 1 < |s| && s[i + 1] != '&'
  }

  predicate Unmarked(s: string) { forall c :: c in s ==> !IsWhitespace(c) && !IsQuote(c) && c != ';' && c != '|' }

  /** Nothing the shell reading treats specially. */
  predicate Bare(s: string) { Unmarked(s) && LoneAmpersands(s) }

  /** A piece of a word as it is written: as it is, or in quotes that it does not hold. */
  datatype Chunk = Raw(text: string) | Single(text: string) | Double(text: string) {
    predicate Valid() {
      match this
      case Raw(text) => text != "" && Bare(text)
      case Single(text) => '\'' !in text
      case Double(text) => '"' !in text
    }

    function Print(): string {
      match this
      case Raw(text) => text
      case Single(text) => "'" + text + "'"
      case Double(text) => "\"" + text + "\""
    }
  }

  /** One word, quoted in any of the ways the shell reading knows. */
  type Spelling = w: seq<Chunk> | w != [] && forall c :: c in w ==> c.Valid() witness [Single("")]

  /** One or more blanks. */
  type Gap = g: string | g != "" && Blank(g) witness " "

  datatype Spaced = Spaced(gap: Gap, word: Spelling)

  /** One stage of a pipeline: its words with any blanks between them. */
  datatype Stage = NoWords | Words(first: Spelling, more: seq<Spaced>)

  type Statement = s: seq<Stage> | s != [] witness [NoWords]

  function TextOf(word: seq<Chunk>): string { if word == [] then "" else word[0].text + TextOf(word[1..]) }

  function TextsOf(words: seq<Spaced>): seq<string> {
    if words == [] then [] else [TextOf(words[0].word)] + TextsOf(words[1..])
  }

  /** What the words of a stage stand for. */
  function TokensOf(stage: Stage): seq<string> {
    match stage
    case NoWords => []
    case Words(first, more) => [TextOf(first)] + TextsOf(more)
  }

  datatype Operator = Semicolon | AndAnd | OrOr {
    function Text(): string {
      match this
      case Semicolon => ";"
      case AndAnd => "&&"
      case OrOr => "||"
    }
  }

  /** An operator between two statements, with any blanks around it. */
  datatype Joint = Joint(before: string, op: Operator, after: string) {
    predicate Valid() { Blank(before) && Blank(after) }

    function Print(): string { before + op.Text() + after }
  }

  function PrintWord(word: seq<Chunk>): string {
    if word == [] then "" else word[0].Print() + PrintWord(word[1..])
  }

  function PrintWords(words: seq<Spaced>): string {
    if words == [] then "" else words[0].gap + PrintWord(words[0].word) + PrintWords(words[1..])
  }

  function PrintStage(stage: Stage): string {
    match stage
    case NoWords => ""
    case Words(first, more) => PrintWord(first) + PrintWords(more)
  }

  function PrintFilters(filters: seq<Stage>): string {
    if filters == [] then "" else " | " + PrintStage(filters[0]) + PrintFilters(filters[1..])
  }

  function PrintStatement(stages: Statement): string { PrintStage(stages[0]) + PrintFilters(stages[1..]) }

  function PrintRest(statements: seq<Statement>, joints: seq<Joint>): string
    requires |statements| == |joints|
  {
    if statements == [] then ""
    else
      joints[0].Print() + PrintStatement(statements[0]) + PrintRest(statements[1..], joints[1..])
  }

  function PrintCommand(first: Statement, rest: seq<Statement>, joints: seq<Joint>): string
    requires |rest| == |joints|
  {
    PrintStatement(first) + PrintRest(rest, joints)
  }

  function FirstStages(statements: seq<Statement>): seq<seq<string>> {
    seq(|statements|, i requires 0 <= i < |statements| => TokensOf(statements[i][0]))
  }

  // ----------------------------------------------------------- tokenizing undoes quoting

  lemma {:induction false} RawIsRead(text: string, rest: string, cur: string, started: bool)
    requires Unmarked(text) && (text != "" || started)
    ensures Tokens(text + rest, cur, None, started) == Tokens(rest, cur + text, None, true)
    decreases text
  {
    if text == "" {
      assert text + rest == rest && cur + text == cur;
    } else {
      assert text[0] in text && (text + rest)[1..] == text[1..] + rest;
      assert cur + [text[0]] + text[1..] == cur + text;
      RawIsRead(text[1..], rest, cur + [text[0]], true);
    }
  }

  lemma {:induction false} InsideIsRead(text: string, mark: char, rest: string, cur: string)
    requires mark !in text
    ensures Tokens(text + ([mark] + rest), cur, Some(mark), true) == Tokens(rest, cur + text, None, true)
    decreases text
  {
    var s := text + ([mark] + rest);
    if text == "" {
      assert s[1..] == rest && cur + text == cur;
    } else {
      assert s[1..] == text[1..] + ([mark] + rest);
      assert cur + [text[0]] + text[1..] == cur + text;
      InsideIsRead(text[1..], mark, rest, cur + [text[0]]);
    }
  }

  lemma ChunkIsRead(chunk: Chunk, rest: string, cur: string, started: bool)
    requires chunk.Valid()
    ensures Tokens(chunk.Print() + rest, cur, None, started) == Tokens(rest, cur + chunk.text, None, true)
  {
    match chunk
    case Raw(text) => RawIsRead(text, rest, cur, started);
    case Single(text) => QuotesAreRead(text, '\'', rest, cur, started);
    case Double(text) => QuotesAreRead(text, '"', rest, cur, started);
  }

  lemma QuotesAreRead(text: string, mark: char, rest: string, cur: string, started: bool)
    requires IsQuote(mark) && mark !in text
    ensures Tokens([mark] + text + [mark] + rest, cur, None, started) == Tokens(rest, cur + text, None, true)
  {
    var s := [mark] + text + [mark] + rest;
    assert s[1..] == text + ([mark] + rest);
    InsideIsRead(text, mark, rest, cur);
  }

  lemma PrintUnfolds(word: seq<Chunk>, rest: string)
    requires word != []
    ensures PrintWord(word) + rest == word[0].Print() + (PrintWord(word[1..]) + rest)
  {
  }

  lemma TextUnfolds(word: seq<Chunk>, cur: string)
    requires word != []
    ensures cur + TextOf(word) == cur + word[0].text + TextOf(word[1..])
  {
  }

  lemma {:induction false} WordIsRead(word: seq<Chunk>, rest: string, cur: string, started: bool)
    requires (forall c :: c in word ==> c.Valid()) && (word != [] || started)
    ensures Tokens(PrintWord(word) + rest, cur, None, started) == Tokens(rest, cur + TextOf(word), None, true)
    decreases word
  {
    if word == [] {
      assert PrintWord(word) + rest == rest && cur + TextOf(word) == cur;
      return;
    }
    hide Tokens, PrintWord, TextOf;
    assert word[0] in word;
    PrintUnfolds(word, rest);
    TextUnfolds(word, cur);
    ChunkIsRead(word[0], PrintWord(word[1..]) + rest, cur, started);
    WordIsRead(word[1..], rest, cur + word[0].text, true);
  }

  lemma FirstWordIsRead(word: Spelling, rest: string)
    ensures Tokens(PrintWord(word) + rest, "", None, false) == Tokens(rest, TextOf(word), None, true)
  {
    hide Tokens, PrintWord;
    WordIsRead(word, rest, "", false);
    assert "" + TextOf(word) == TextOf(word);
  }

  lemma {:induction false} BlanksAreSkipped(blank: string, rest: string)
    requires Blank(blank)
    ensures Tokens(blank + rest, "", None, false) == Tokens(rest, "", None, false)
    decreases blank
  {
    if blank == "" {
      assert blank + rest == rest;
    } else {
      assert blank[0] in blank && (blank + rest)[1..] == blank[1..] + rest;
      BlanksAreSkipped(blank[1..], rest);
    }
  }

  /** Any run of blanks ends one token and starts none. */
  lemma GapEndsToken(gap: Gap, rest: string, cur: string)
    ensures Tokens(gap + rest, cur, None, true) == [cur] + Tokens(rest, "", None, false)
  {
    assert gap[0] in gap && (gap + rest)[1..] == gap[1..] + rest;
    BlanksAreSkipped(gap[1..], rest);
  }

  lemma WordsUnfold(words: seq<Spaced>)
    requires words != []
    ensures PrintWords(words) == words[0].gap + (PrintWord(words[0].word) + PrintWords(words[1..]))
    ensures TextsOf(words) == [TextOf(words[0].word)] + TextsOf(words[1..])
  {
    hide PrintWord, TextOf;
  }

  lemma {:induction false} WordsAreRead(words: seq<Spaced>, cur: string)
    ensures Tokens(PrintWords(words), cur, None, true) == [cur] + TextsOf(words)
    decreases words
  {
    if words == [] { return; }
    hide Tokens, PrintWord, PrintWords, TextOf, TextsOf;
    WordsUnfold(words);
    GapEndsToken(words[0].gap, PrintWord(words[0].word) + PrintWords(words[1..]), cur);
    FirstWordIsRead(words[0].word, PrintWords(words[1..]));
    WordsAreRead(words[1..], TextOf(words[0].word));
  }

  lemma StageIsRead(stage: Stage)
    ensures Tokenize(PrintStage(stage)) == TokensOf(stage)
  {
    match stage
    case NoWords =>
    case Words(first, more) =>
      FirstWordIsRead(first, PrintWords(more));
      WordsAreRead(more, TextOf(first));
  }

  /** Not empty, and no blank at either end. */
  predicate Solid(s: string) { s != "" && Trimmed(s) }

  lemma {:induction false} WordIsSolid(word: seq<Chunk>)
    requires word != [] && forall c :: c in word ==> c.Valid()
    ensures Solid(PrintWord(word))
    decreases word
  {
    var chunk := word[0];
    assert chunk in word;
    assert Solid(chunk.Print()) by {
      if chunk.Raw? { assert chunk.text[0] in chunk.text && chunk.text[|chunk.text| - 1] in chunk.text; }
    }
    if |word| > 1 { WordIsSolid(word[1..]); }
  }

  lemma SolidJoin(a: string, gap: string, b: string)
    requires Solid(a) && Solid(b)
    ensures Solid(a + gap + b)
  {
  }

  lemma PrintWordsCons(before: string, words: seq<Spaced>)
    requires words != []
    ensures before + PrintWords(words) == before + words[0].gap + PrintWord(words[0].word) + PrintWords(words[1..])
  {
    hide PrintWord;
  }

  lemma {:induction false} WordsAreSolid(s: string, words: seq<Spaced>)
    requires Solid(s)
    ensures Solid(s + PrintWords(words))
    decreases words
  {
    if words == [] {
      assert s + PrintWords(words) == s;
      return;
    }
    hide Solid, PrintWord, PrintWords;
    PrintWordsCons(s, words);
    var word := words[0];
    WordIsSolid(word.word);
    SolidJoin(s, word.gap, PrintWord(word.word));
    WordsAreSolid(s + word.gap + PrintWord(word.word), words[1..]);
  }

  lemma StageIsTrimmed(stage: Stage)
    ensures Trimmed(PrintStage(stage))
  {
    match stage
    case NoWords =>
    case Words(first, more) =>
      WordIsSolid(first);
      WordsAreSolid(PrintWord(first), more);
  }

  /** A printed stage survives the blanks around it, the trimming and the tokenizing. */
  lemma PaddedStageIsRead(before: string, stage: Stage, after: string)
    requires Blank(before) && Blank(after)
    ensures Tokenize(Trim(before + PrintStage(stage) + after)) == TokensOf(stage)
  {
    StageIsTrimmed(stage);
    TrimStrips(before, PrintStage(stage), after);
    StageIsRead(stage);
  }

  // ------------------------------------------------------------ splitting undoes joining

  function QuoteStep(c: char, quote: Option<char>): Option<char> {
    if quote.Some? then (if c == quote.value then None else quote)
    else if IsQuote(c) then Some(c) else None
  }

  function QuoteAfter(text: string, quote: Option<char>): Option<char> {
    if text == "" then quote else QuoteAfter(text[1..], QuoteStep(text[0], quote))
  }

  /** The character at the head splits the command, or may with what comes next. */
  predicate Splits(text: string)
    requires text != ""
  {
    IsOperator(text[0]) && (text[0] == '&' ==> |text| == 1 || text[1] == '&')
  }

  /** No operator outside quotes. */
  predicate Quiet(text: string, quote: Option<char>) {
    text == "" || ((quote.Some? || !Splits(text)) && Quiet(text[1..], QuoteStep(text[0], quote)))
  }

  lemma {:induction false} QuietAppend(a: string, b: string, quote: Option<char>)
    ensures QuoteAfter(a + b, quote) == QuoteAfter(b, QuoteAfter(a, quote))
    ensures Quiet(a, quote) && Quiet(b, QuoteAfter(a, quote)) ==> Quiet(a + b, quote)
    decreases a
  {
    if a == "" {
      assert a + b == b;
    } else {
      assert (a + b)[1..] == a[1..] + b;
      QuietAppend(a[1..], b, QuoteStep(a[0], quote));
      assert QuoteAfter(a, quote) == QuoteAfter(a[1..], QuoteStep(a[0], quote));
      assert QuoteAfter(a + b, quote) == QuoteAfter(a[1..] + b, QuoteStep(a[0], quote));
    }
  }

  lemma {:induction false} QuietRaw(text: string)
    requires Bare(text)
    ensures Quiet(text, None) && QuoteAfter(text, None) == None
    decreases text
  {
    if text != "" {
      assert text[0] in text;
      assert forall i :: 0 <= i < |text[1..]| ==> text[1..][i] == text[i + 1];
      QuietRaw(text[1..]);
    }
  }

  lemma {:induction false} QuietInside(text: string, mark: char)
    requires mark !in text
    ensures Quiet(text, Some(mark)) && QuoteAfter(text, Some(mark)) == Some(mark)
    decreases text
  {
    if text != "" { QuietInside(text[1..], mark); }
  }

  lemma QuoteAfterOne(c: char, quote: Option<char>)
    ensures QuoteAfter([c], quote) == QuoteStep(c, quote)
    ensures quote.Some? || !IsOperator(c) ==> Quiet([c], quote)
  {
    var rest := [c][1..];
    assert rest == "";
    assert QuoteAfter(rest, QuoteStep(c, quote)) == QuoteStep(c, quote);
    assert [c][0] == c;
  }

  lemma QuietQuotes(text: string, mark: char)
    requires IsQuote(mark) && mark !in text
    ensures Quiet([mark] + text + [mark], None) && QuoteAfter([mark] + text + [mark], None) == None
  {
    QuietInside(text, mark);
    QuoteAfterOne(mark, None);
    QuoteAfterOne(mark, Some(mark));
    hide Quiet, QuoteAfter;
    QuietAppend([mark], text, None);
    QuietAppend([mark] + text, [mark], None);
  }

  lemma {:induction false} QuietWord(word: seq<Chunk>)
    requires forall c :: c in word ==> c.Valid()
    ensures Quiet(PrintWord(word), None) && QuoteAfter(PrintWord(word), None) == None
    decreases word
  {
    if word == [] { return; }
    var chunk := word[0];
    assert chunk in word;
    match chunk {
      case Raw(text) => QuietRaw(text);
      case Single(text) => QuietQuotes(text, '\'');
      case Double(text) => QuietQuotes(text, '"');
    }
    QuietWord(word[1..]);
    QuietAppend(chunk.Print(), PrintWord(word[1..]), None);
  }

  lemma {:induction false} QuietWords(words: seq<Spaced>)
    ensures Quiet(PrintWords(words), None) && QuoteAfter(PrintWords(words), None) == None
    decreases words
  {
    if words == [] { return; }
    var word := words[0];
    QuietBlank(word.gap);
    QuietWord(word.word);
    QuietWords(words[1..]);
    QuietAppend(word.gap, PrintWord(word.word), None);
    QuietAppend(word.gap + PrintWord(word.word), PrintWords(words[1..]), None);
  }

  lemma QuietStage(stage: Stage)
    ensures Quiet(PrintStage(stage), None) && QuoteAfter(PrintStage(stage), None) == None
  {
    match stage
    case NoWords =>
    case Words(first, more) =>
      QuietWord(first);
      QuietWords(more);
      QuietAppend(PrintWord(first), PrintWords(more), None);
  }

  lemma {:induction false} QuietBlank(blank: string)
    requires Blank(blank)
    ensures Quiet(blank, None) && QuoteAfter(blank, None) == None
    decreases blank
  {
    if blank != "" {
      assert blank[0] in blank;
      QuietBlank(blank[1..]);
    }
  }

  /** Quiet text only grows the pending segment. */
  lemma {:induction false} PassThrough(text: string, rest: string, cur: string, source: bool, quote: Option<char>)
    requires Quiet(text, quote)
    ensures Segments(text + rest, cur, source, quote) == Segments(rest, cur + text, source, QuoteAfter(text, quote))
    decreases text
  {
    if text == "" {
      assert text + rest == rest && cur + text == cur;
    } else {
      assert (text + rest)[1..] == text[1..] + rest;
      assert cur + [text[0]] + text[1..] == cur + text;
      PassThrough(text[1..], rest, cur + [text[0]], source, QuoteStep(text[0], quote));
      assert QuoteAfter(text, quote) == QuoteAfter(text[1..], QuoteStep(text[0], quote));
    }
  }

  /** An unquoted operator ends the segment here. */
  predicate Ends(s: string) {
    s != "" && (s[0] == ';' || s[0] == '|' || (s[0] == '&' && |s| > 1 && s[1] == '&'))
  }

  /** What a filter says never reaches the sources. */
  lemma {:induction false} FilterTextIrrelevant(s: string, cur: string, cur': string, quote: Option<char>)
    ensures SourceTokens(Segments(s, cur, false, quote)) == SourceTokens(Segments(s, cur', false, quote))
    decreases |s|
  {
    if s == "" {
      SegmentThen(Segment(cur, false), []);
      SegmentThen(Segment(cur', false), []);
      assert [Segment(cur, false)] + [] == [Segment(cur, false)] && [Segment(cur', false)] + [] == [Segment(cur', false)];
      return;
    }
    if quote.Some? || !Ends(s) {
      FilterTextIrrelevant(s[1..], cur + [s[0]], cur' + [s[0]], QuoteStep(s[0], quote));
    } else {
      var more := Segments(s[1..], "", s[0] == ';', None);
      if s[0] != ';' && |s| > 1 && s[1] == s[0] { more := Segments(s[2..], "", true, None); }
      SegmentThen(Segment(cur, false), more);
      SegmentThen(Segment(cur', false), more);
    }
  }

  lemma SegmentThen(segment: Segment, more: seq<Segment>)
    ensures SourceTokens([segment] + more) ==
      (if segment.source then [Tokenize(Trim(segment.text))] else []) + SourceTokens(more)
  {
    assert ([segment] + more)[1..] == more;
    var head := if segment.source then [segment.text] else [];
    assert SourcesOf([segment] + more) == head + SourcesOf(more);
  }

  /** A bar ends the pending segment and starts a filter. */
  lemma BarSplits(rest: string, cur: string, source: bool)
    ensures SourceTokens(Segments(" | " + rest, cur, source, None)) ==
      (if source then [Tokenize(Trim(cur + " "))] else []) + SourceTokens(Segments(rest, " ", false, None))
  {
    var s0, s1, s2 := " | " + rest, "| " + rest, " " + rest;
    assert s0[1..] == s1 && s1[1..] == s2 && s2[1..] == rest;
    assert Segments(s0, cur, source, None) == Segments(s1, cur + " ", source, None);
    assert Segments(s1, cur + " ", source, None) == [Segment(cur + " ", source)] + Segments(s2, "", false, None);
    assert "" + " " == " ";
    SegmentThen(Segment(cur + " ", source), Segments(s2, "", false, None));
  }

  lemma {:induction false} FiltersIgnored(filters: seq<Stage>, rest: string, cur: string)
    ensures SourceTokens(Segments(PrintFilters(filters) + rest, cur, false, None)) ==
      SourceTokens(Segments(rest, "", false, None))
    decreases filters
  {
    if filters == [] {
      assert PrintFilters(filters) + rest == rest;
      FilterTextIrrelevant(rest, cur, "", None);
    } else {
      var more := PrintFilters(filters[1..]) + rest;
      assert PrintFilters(filters) + rest == " | " + (PrintStage(filters[0]) + more);
      BarSplits(PrintStage(filters[0]) + more, cur, false);
      QuietStage(filters[0]);
      PassThrough(PrintStage(filters[0]), more, " ", false, None);
      FiltersIgnored(filters[1..], rest, " " + PrintStage(filters[0]));
    }
  }

  lemma OperatorSplits(op: Operator, rest: string, cur: string, source: bool)
    ensures SourceTokens(Segments(op.Text() + rest, cur, source, None)) ==
      (if source then [Tokenize(Trim(cur))] else []) + SourceTokens(Segments(rest, "", true, None))
  {
    var s := op.Text() + rest;
    assert s[|op.Text()|..] == rest;
    assert Segments(s, cur, source, None) == [Segment(cur, source)] + Segments(rest, "", true, None);
    SegmentThen(Segment(cur, source), Segments(rest, "", true, None));
  }

  lemma LoneStageWaits(stage: Stage, tail: string, pad: string)
    ensures SourceTokens(Segments(PrintStatement([stage]) + tail, pad, true, None)) ==
      SourceTokens(Segments(tail, pad + PrintStage(stage), true, None))
  {
    assert PrintStatement([stage]) == PrintStage(stage) by { assert [stage][1..] == []; }
    hide Segments, SourceTokens, PrintStage, PrintFilters, Quiet, QuoteAfter;
    QuietStage(stage);
    PassThrough(PrintStage(stage), tail, pad, true, None);
  }

  lemma RegroupPipeline(stages: Statement, tail: string)
    requires |stages| > 1
    ensures PrintStatement(stages) + tail ==
      PrintStage(stages[0]) + (" | " + (PrintStage(stages[1]) + (PrintFilters(stages[2..]) + tail)))
  {
    hide PrintStage;
    assert stages[1..][1..] == stages[2..];
    FiltersUnfold(stages[1..]);
    hide PrintFilters;
  }

  lemma FiltersUnfold(filters: seq<Stage>)
    requires filters != []
    ensures PrintFilters(filters) == " | " + PrintStage(filters[0]) + PrintFilters(filters[1..])
  {
  }

  lemma PipelineSplits(stages: Statement, tail: string, pad: string)
    requires |stages| > 1
    ensures SourceTokens(Segments(PrintStatement(stages) + tail, pad, true, None)) ==
      [Tokenize(Trim(pad + PrintStage(stages[0]) + " "))] + SourceTokens(Segments(tail, "", false, None))
  {
    var stage, next, more := PrintStage(stages[0]), PrintStage(stages[1]), PrintFilters(stages[2..]);
    hide Segments, SourceTokens, PrintStage, PrintFilters, PrintStatement, Quiet, QuoteAfter, Tokenize, Trim;
    RegroupPipeline(stages, tail);
    QuietStage(stages[0]);
    PassThrough(stage, " | " + (next + (more + tail)), pad, true, None);
    BarSplits(next + (more + tail), pad + stage, true);
    QuietStage(stages[1]);
    PassThrough(next, more + tail, " ", false, None);
    FiltersIgnored(stages[2..], tail, " " + next);
  }

  lemma {:induction false} StatementThenRest(stages: Statement, pad: string, rest: seq<Statement>, joints: seq<Joint>)
    requires |rest| == |joints| && forall j :: j in joints ==> j.Valid()
    requires Blank(pad)
    ensures SourceTokens(Segments(PrintStatement(stages) + PrintRest(rest, joints), pad, true, None)) ==
      [TokensOf(stages[0])] + FirstStages(rest)
    decreases |rest|, 1
  {
    hide Segments, SourceTokens, PrintRest, PrintStage, PrintStatement, Tokenize, Trim, FirstStages;
    if |stages| == 1 {
      var before := if joints == [] then "" else joints[0].before;
      assert joints != [] ==> joints[0] in joints;
      assert stages == [stages[0]];
      LoneStageWaits(stages[0], PrintRest(rest, joints), pad);
      RestSplits(rest, joints, pad + PrintStage(stages[0]), true);
      PaddedStageIsRead(pad, stages[0], before);
    } else {
      PipelineSplits(stages, PrintRest(rest, joints), pad);
      RestSplits(rest, joints, "", false);
      PaddedStageIsRead(pad, stages[0], " ");
    }
  }

  lemma JointSplits(j: Joint, more: string, cur: string, source: bool)
    requires j.Valid()
    ensures SourceTokens(Segments(j.Print() + more, cur, source, None)) ==
      (if source then [Tokenize(Trim(cur + j.before))] else []) + SourceTokens(Segments(more, j.after, true, None))
  {
    hide Segments, SourceTokens, Quiet, QuoteAfter, Tokenize, Trim;
    var after := j.after + more;
    assert j.Print() + more == j.before + (j.op.Text() + after);
    QuietBlank(j.before);
    PassThrough(j.before, j.op.Text() + after, cur, source, None);
    OperatorSplits(j.op, after, cur + j.before, source);
    QuietBlank(j.after);
    PassThrough(j.after, more, "", true, None);
    assert "" + j.after == j.after;
  }

  lemma Reassociate(a: string, b: string, c: string)
    ensures a + (b + c) == a + b + c
  {
  }

  lemma RestUnfolds(rest: seq<Statement>, joints: seq<Joint>)
    requires |rest| == |joints| && rest != []
    ensures PrintRest(rest, joints) ==
      joints[0].Print() + (PrintStatement(rest[0]) + PrintRest(rest[1..], joints[1..]))
    ensures FirstStages(rest) == [TokensOf(rest[0][0])] + FirstStages(rest[1..])
  {
    hide PrintStatement, TokensOf, Joint.Print;
    Reassociate(joints[0].Print(), PrintStatement(rest[0]), PrintRest(rest[1..], joints[1..]));
  }

  lemma {:induction false} RestSplits(rest: seq<Statement>, joints: seq<Joint>, cur: string, source: bool)
    requires |rest| == |joints| && forall j :: j in joints ==> j.Valid()
    ensures SourceTokens(Segments(PrintRest(rest, joints), cur, source, None)) ==
      (if source then [Tokenize(Trim(cur + (if joints == [] then "" else joints[0].before)))] else [])
      + FirstStages(rest)
    decreases |rest|, 0
  {
    if rest == [] {
      assert cur + "" == cur;
      SegmentThen(Segment(cur, source), []);
      assert [Segment(cur, source)] + [] == [Segment(cur, source)];
      return;
    }
    var j, more := joints[0], PrintStatement(rest[0]) + PrintRest(rest[1..], joints[1..]);
    RestUnfolds(rest, joints);
    hide Segments, SourceTokens, PrintRest, PrintStatement, Tokenize, Trim, FirstStages;
    assert j in joints;
    JointSplits(j, more, cur, source);
    StatementThenRest(rest[0], j.after, rest[1..], joints[1..]);
  }

  /** Splitting and tokenizing a printed command gives back exactly the first stage of
      each statement, in order, whatever its tokens hold. */
  lemma ParseUndoesPrint(first: Statement, rest: seq<Statement>, joints: seq<Joint>)
    requires |rest| == |joints| && forall j :: j in joints ==> j.Valid()
    ensures Parse(PrintCommand(first, rest, joints)) == FirstStages([first] + rest)
  {
    hide Segments, SourceTokens, PrintRest, PrintStatement;
    StatementThenRest(first, "", rest, joints);
    assert FirstStages([first] + rest) == [TokensOf(first[0])] + FirstStages(rest);
  }

  // ------------------------------------------------------------------------ open quotes

  lemma {:induction false} OpenInside(text: string, mark: char, cur: string)
    requires mark !in text
    ensures Tokens(text, cur, Some(mark), true) == [cur + text]
    decreases text
  {
    if text == "" {
      assert cur + text == cur;
    } else {
      assert cur + [text[0]] + text[1..] == cur + text;
      OpenInside(text[1..], mark, cur + [text[0]]);
    }
  }

  lemma OpenWord(gap: Gap, mark: char, text: string, cur: string)
    requires IsQuote(mark) && mark !in text
    ensures Tokens(gap + ([mark] + text), cur, None, true) == [cur, text]
  {
    GapEndsToken(gap, [mark] + text, cur);
    OpenInside(text, mark, "");
    assert ([mark] + text)[1..] == text && "" + text == text;
  }

  lemma FourInRow(a: string, b: string, c: string, d: string)
    ensures a + (b + c) + d == a + (b + (c + d))
  {
  }

  lemma {:induction false} WordsThenOpen(words: seq<Spaced>, cur: string, tail: string, last: string)
    requires forall before :: Tokens(tail, before, None, true) == [before, last]
    ensures Tokens(PrintWords(words) + tail, cur, None, true) == [cur] + TextsOf(words) + [last]
    decreases words
  {
    if words == [] {
      assert PrintWords(words) + tail == tail;
      return;
    }
    hide Tokens, PrintWord, PrintWords, TextOf, TextsOf;
    WordsUnfold(words);
    var word, more := PrintWord(words[0].word), PrintWords(words[1..]);
    FourInRow(words[0].gap, word, more, tail);
    GapEndsToken(words[0].gap, word + (more + tail), cur);
    FirstWordIsRead(words[0].word, more + tail);
    WordsThenOpen(words[1..], TextOf(words[0].word), tail, last);
  }

  lemma StageThenOpen(stage: Stage, gap: Gap, mark: char, text: string)
    requires stage.Words? && IsQuote(mark) && mark !in text
    ensures Tokenize(PrintStage(stage) + (gap + ([mark] + text))) == TokensOf(stage) + [text]
  {
    var tail := gap + ([mark] + text);
    forall before ensures Tokens(tail, before, None, true) == [before, text] { OpenWord(gap, mark, text, before); }
    hide Tokens, PrintWord, PrintWords;
    FirstWordIsRead(stage.first, PrintWords(stage.more) + tail);
    Reassociate(PrintWord(stage.first), PrintWords(stage.more), tail);
    WordsThenOpen(stage.more, TextOf(stage.first), tail, text);
  }

  lemma {:induction false} TrimEndAfter(s: string, text: string)
    requires s != "" && !IsWhitespace(s[|s| - 1])
    ensures TrimEnd(s + text) == s + TrimEnd(text)
    decreases text
  {
    if text == "" {
      assert s + text == s;
    } else {
      assert (s + text)[..|s + text| - 1] == s + text[..|text| - 1];
      TrimEndAfter(s, text[..|text| - 1]);
    }
  }

  lemma OpenRegroups(stage: string, gap: string, mark: char, text: string)
    ensures stage + (gap + ([mark] + text)) == stage + (gap + [mark]) + text
  {
  }

  lemma SolidTrims(front: string, text: string)
    requires Solid(front)
    ensures Trim(front + text) == front + TrimEnd(text)
  {
    assert (front + text)[0] == front[0];
    TrimEndAfter(front, text);
  }

  lemma OpenTrims(stage: Stage, gap: Gap, mark: char, text: string)
    requires stage.Words? && IsQuote(mark)
    ensures Trim(PrintStage(stage) + (gap + ([mark] + text))) == PrintStage(stage) + (gap + ([mark] + TrimEnd(text)))
  {
    WordIsSolid(stage.first);
    WordsAreSolid(PrintWord(stage.first), stage.more);
    assert Solid(PrintStage(stage));
    hide PrintStage, Trim, TrimEnd;
    SolidJoin(PrintStage(stage), gap, [mark]);
    OpenRegroups(PrintStage(stage), gap, mark, text);
    OpenRegroups(PrintStage(stage), gap, mark, TrimEnd(text));
    assert PrintStage(stage) + gap + [mark] == PrintStage(stage) + (gap + [mark]);
    SolidTrims(PrintStage(stage) + (gap + [mark]), text);
  }

  lemma OpenIsQuiet(stage: Stage, gap: Gap, mark: char, text: string)
    requires IsQuote(mark) && mark !in text
    ensures Quiet(PrintStage(stage) + (gap + ([mark] + text)), None)
  {
    QuietInside(text, mark);
    QuoteAfterOne(mark, None);
    hide Quiet, QuoteAfter, PrintStage;
    QuietAppend([mark], text, None);
    QuietBlank(gap);
    QuietAppend(gap, [mark] + text, None);
    QuietStage(stage);
    QuietAppend(PrintStage(stage), gap + ([mark] + text), None);
  }

  /** A quote that is never closed runs to the end of the command: operators in it do not
      split, and blanks end it only at the very end, where the trimming takes them off. */
  lemma OpenQuoteRunsOn(stage: Stage, gap: Gap, mark: char, text: string)
    requires stage.Words? && IsQuote(mark) && mark !in text
    ensures Parse(PrintStage(stage) + (gap + ([mark] + text))) == [TokensOf(stage) + [TrimEnd(text)]]
  {
    var command := PrintStage(stage) + (gap + ([mark] + text));
    OpenIsQuiet(stage, gap, mark, text);
    PassThrough(command, "", "", true, None);
    TrimEndKeeps(text);
    assert mark !in TrimEnd(text);
    hide Quiet, PrintStage, Tokenize, Trim, TrimEnd;
    assert command + "" == command && "" + command == command;
    assert Segments(command, "", true, None) == [Segment(command, true)];
    SegmentThen(Segment(command, true), []);
    assert [Segment(command, true)] + [] == [Segment(command, true)];
    OpenTrims(stage, gap, mark, text);
    StageThenOpen(stage, gap, mark, TrimEnd(text));
  }

  // ------------------------------------------------------------------------ unwrapping

  /** `split_once(char::is_whitespace)`. */
  function SplitOnce(s: string): Option<(string, string)> {
    if s == "" then None
    else if IsWhitespace(s[0]) then Some(("", s[1..]))
    else
      var tail := SplitOnce(s[1..]);
      if tail.None? then None else Some(([s[0]] + tail.value.0, tail.value.1))
  }

  lemma {:induction false} SplitOnceSplits(s: string)
    ensures SplitOnce(s).Some? ==>
      var (word, rest) := SplitOnce(s).value;
      && |word| + |rest| + 1 == |s| && word + [s[|word|]] + rest == s && IsWhitespace(s[|word|])
      && forall c :: c in word ==> !IsWhitespace(c)
    ensures SplitOnce(s).None? ==> forall c :: c in s ==> !IsWhitespace(c)
    decreases s
  {
    if s != "" && !IsWhitespace(s[0]) { SplitOnceSplits(s[1..]); }
  }

  lemma {:induction false} SplitOnceAt(word: string, blank: char, rest: string)
    requires IsWhitespace(blank) && forall c :: c in word ==> !IsWhitespace(c)
    ensures SplitOnce(word + [blank] + rest) == Some((word, rest))
    decreases word
  {
    var s := word + [blank] + rest;
    if word == "" {
      assert s[1..] == rest;
    } else {
      assert word[0] in word;
      assert s[1..] == word[1..] + [blank] + rest && [word[0]] + word[1..] == word;
      SplitOnceAt(word[1..], blank, rest);
    }
  }

  /** What follows the last slash. */
  function BaseName(path: string): string {
    if path == "" || path[|path| - 1] == '/' then "" else BaseName(path[..|path| - 1]) + [path[|path| - 1]]
  }

  predicate IsShell(name: string) {
    name == "sh" || name == "bash" || name == "zsh" || name == "dash" || name == "ksh"
  }

  /** What follows the first flag carrying a `c`, skipping the flags before it. */
  function AfterCommandFlag(rest: string): Option<string>
    decreases |rest|
  {
    TrimStartKeeps(rest);
    var flags := TrimStart(rest);
    if flags == "" || flags[0] != '-' then None
    else
      SplitOnceSplits(flags);
      var split := SplitOnce(flags);
      if split.None? then None
      else if 'c' in split.value.0 then Some(split.value.1)
      else AfterCommandFlag(split.value.1)
  }

  function Unquoted(inner: string): string {
    if |inner| >= 2 && IsQuote(inner[0]) && inner[|inner| - 1] == inner[0] then inner[1..|inner| - 1] else inner
  }

  function Unwrap(command: string): Option<string> {
    var split := SplitOnce(TrimStart(command));
    if split.None? || !IsShell(BaseName(split.value.0)) then None
    else
      var rest := AfterCommandFlag(split.value.1);
      if rest.None? then None else Some(Unquoted(Trim(rest.value)))
  }

  method UnwrapShellC(command: string) returns (inner: Option<string>)
    ensures inner == Unwrap(command)
  {
    var split := SplitOnce(TrimStart(command));
    if split.None? { return None; }
    var (shell, rest) := split.value;
    if !IsShell(BaseName(shell)) { return None; }
    while true
      invariant AfterCommandFlag(rest) == AfterCommandFlag(split.value.1)
      decreases |rest|
    {
      TrimStartKeeps(rest);
      var flags := TrimStart(rest);
      if flags == "" || flags[0] != '-' { return None; }
      SplitOnceSplits(flags);
      var next := SplitOnce(flags);
      if next.None? { return None; }
      rest := next.value.1;
      if 'c' in next.value.0 { break; }
    }
    return Some(Unquoted(Trim(rest)));
  }

  /** The script a command carries: its wrapper's, or the command itself. */
  function Script(command: string): string {
    var inner := Unwrap(command);
    if inner.Some? then inner.value else command
  }

  /** The front end of both classifiers. */
  method ReadSources(command: string) returns (commands: seq<seq<string>>)
    ensures commands == Parse(Script(command))
  {
    var unwrapped := UnwrapShellC(command);
    var script := if unwrapped.Some? then unwrapped.value else command;
    assert script == Script(command);
    hide Unwrap, Segments, Tokenize, Trim;
    var sources := PipelineSources(script);
    commands := [];
    for k := 0 to |sources|
      invariant |commands| == k && forall i :: 0 <= i < k ==> commands[i] == Tokenize(Trim(sources[i]))
    {
      var tokens := TokenizeShell(Trim(sources[k]));
      commands := commands + [tokens];
    }
  }

  // --------------------------------------------------------------- wrappers are stripped

  predicate Word(s: string) { forall c :: c in s ==> !IsWhitespace(c) }

  /** The path of one of the five shells. */
  ghost predicate NamesShell(path: string) {
    exists name :: name in {"sh", "bash", "zsh", "dash", "ksh"} && IsPathTo(path, name)
  }

  ghost predicate IsPathTo(path: string, name: string) { path == name || exists dir :: path == dir + "/" + name }

  lemma BaseNameSnoc(s: string, c: char)
    ensures BaseName(s + [c]) == if c == '/' then "" else BaseName(s) + [c]
  {
    assert (s + [c])[..|s|] == s;
  }

  lemma {:induction false} BaseNameAfterSlash(dir: string, name: string)
    requires '/' !in name
    ensures BaseName(dir + "/" + name) == name
    decreases name
  {
    if name == "" {
      BaseNameSnoc(dir, '/');
      assert dir + "/" + name == dir + ['/'];
    } else {
      var init, last := name[..|name| - 1], name[|name| - 1];
      assert last in name && name == init + [last];
      BaseNameAfterSlash(dir, init);
      BaseNameSnoc(dir + "/" + init, last);
      assert dir + "/" + name == dir + "/" + init + [last];
    }
  }

  lemma {:induction false} BaseNameSplits(path: string)
    ensures '/' !in BaseName(path)
    ensures IsPathTo(path, BaseName(path))
    ensures '/' !in path ==> BaseName(path) == path
    decreases path
  {
    if path == "" { return; }
    var init, last := path[..|path| - 1], path[|path| - 1];
    assert path == init + [last];
    if last == '/' {
      assert path == init + "/" + "";
    } else {
      BaseNameSplits(init);
      if init != BaseName(init) {
        var dir :| init == dir + "/" + BaseName(init);
        assert path == dir + "/" + BaseName(path);
      }
    }
  }

  /** A path's base name is exactly the name it is a path to. */
  lemma BaseNameIff(path: string, name: string)
    requires '/' !in name
    ensures BaseName(path) == name <==> IsPathTo(path, name)
  {
    BaseNameSplits(path);
    if IsPathTo(path, name) {
      if path == name {
      } else {
        var dir :| path == dir + "/" + name;
        BaseNameAfterSlash(dir, name);
      }
    }
  }

  lemma ShellIffNamed(path: string)
    ensures IsShell(BaseName(path)) <==> NamesShell(path)
  {
    BaseNameIff(path, "sh");
    BaseNameIff(path, "bash");
    BaseNameIff(path, "zsh");
    BaseNameIff(path, "dash");
    BaseNameIff(path, "ksh");
    hide BaseName, IsPathTo;
  }

  /** A word that starts with a dash, after any blanks and before one more. */
  datatype Flag = Flag(gap: string, word: string, blank: char) {
    predicate Valid() { Blank(gap) && word != "" && word[0] == '-' && Word(word) && IsWhitespace(blank) }

    predicate Carries() { 'c' in word }

    function Print(): string { gap + (word + [blank]) }
  }

  function PrintFlags(flags: seq<Flag>, rest: string): string {
    if flags == [] then rest else flags[0].Print() + PrintFlags(flags[1..], rest)
  }

  /** A shell and its flags, up to the first that carries a `c`. */
  datatype Wrapper = Wrapper(before: string, shell: string, blank: char, flags: seq<Flag>, command: Flag) {
    ghost predicate Valid() {
      && Blank(before) && Word(shell) && NamesShell(shell) && IsWhitespace(blank)
      && (forall f :: f in flags ==> f.Valid() && !f.Carries())
      && command.Valid() && command.Carries()
    }

    function Print(rest: string): string { before + (shell + [blank] + PrintFlags(flags, command.Print() + rest)) }
  }

  lemma FlagIsRead(flag: Flag, rest: string)
    requires flag.Valid()
    ensures AfterCommandFlag(flag.Print() + rest) == if flag.Carries() then Some(rest) else AfterCommandFlag(rest)
  {
    var s := flag.word + [flag.blank] + rest;
    assert flag.word[0] in flag.word && s[0] == flag.word[0];
    assert flag.Print() + rest == flag.gap + s;
    TrimStartSkips(flag.gap, s);
    assert TrimStart(s) == s;
    SplitOnceAt(flag.word, flag.blank, rest);
  }

  lemma {:induction false} FlagsAreSkipped(flags: seq<Flag>, command: Flag, rest: string)
    requires forall f :: f in flags ==> f.Valid() && !f.Carries()
    requires command.Valid() && command.Carries()
    ensures AfterCommandFlag(PrintFlags(flags, command.Print() + rest)) == Some(rest)
    decreases flags
  {
    hide AfterCommandFlag, Flag.Print, Flag.Valid, Flag.Carries;
    if flags == [] {
      FlagIsRead(command, rest);
    } else {
      assert flags[0] in flags;
      FlagIsRead(flags[0], PrintFlags(flags[1..], command.Print() + rest));
      FlagsAreSkipped(flags[1..], command, rest);
    }
  }

  lemma ShellIsRead(before: string, shell: string, blank: char, rest: string)
    requires Blank(before) && Word(shell) && shell != "" && IsWhitespace(blank)
    ensures SplitOnce(TrimStart(before + (shell + [blank] + rest))) == Some((shell, rest))
  {
    var s := shell + [blank] + rest;
    assert shell[0] in shell && s[0] == shell[0];
    TrimStartSkips(before, s);
    assert TrimStart(s) == s;
    SplitOnceAt(shell, blank, rest);
  }

  lemma NamedIsNotEmpty(path: string)
    requires NamesShell(path)
    ensures path != ""
  {
  }

  /** What follows a wrapper is its script, blanks around it and the quotes around that gone. */
  lemma WrapperIsRead(w: Wrapper, rest: string)
    requires w.Valid()
    ensures Unwrap(w.Print(rest)) == Some(Unquoted(Trim(rest)))
  {
    hide TrimStart, SplitOnce, AfterCommandFlag, Unquoted, Trim, PrintFlags, NamesShell, BaseName, Flag.Print, Flag.Valid, Flag.Carries;
    ShellIffNamed(w.shell);
    assert w.shell != "" by { NamedIsNotEmpty(w.shell); }
    ShellIsRead(w.before, w.shell, w.blank, PrintFlags(w.flags, w.command.Print() + rest));
    FlagsAreSkipped(w.flags, w.command, rest);
  }

  lemma UnquotedStripsMarks(pad: string, mark: char, script: string, after: string)
    requires IsQuote(mark) && Blank(pad) && Blank(after)
    ensures Unquoted(Trim(pad + ([mark] + script + [mark]) + after)) == script
  {
    var quoted := [mark] + script + [mark];
    assert Trimmed(quoted);
    TrimStrips(pad, quoted, after);
  }

  /** Any script at all comes back from a `zsh -lc "..."` wrapper exactly as it went in. */
  lemma UnwrapStripsExactly(w: Wrapper, pad: string, mark: char, script: string, after: string)
    requires w.Valid() && IsQuote(mark) && Blank(pad) && Blank(after)
    ensures Unwrap(w.Print(pad + ([mark] + script + [mark]) + after)) == Some(script)
  {
    hide Unwrap, Unquoted, Trim, Wrapper.Print, Wrapper.Valid;
    WrapperIsRead(w, pad + ([mark] + script + [mark]) + after);
    UnquotedStripsMarks(pad, mark, script, after);
  }

  /** The same quote opens and closes the whole of it. */
  ghost predicate QuotedWhole(script: string) {
    exists mark: char, body: string :: IsQuote(mark) && script == [mark] + body + [mark]
  }

  lemma UnquotedKeeps(script: string)
    ensures QuotedWhole(script) || Unquoted(script) == script
  {
    if |script| >= 2 && IsQuote(script[0]) && script[|script| - 1] == script[0] {
      assert script == [script[0]] + script[1..|script| - 1] + [script[0]];
    }
  }

  /** One that is not quoted as a whole comes back as it is. */
  lemma UnwrapKeepsUnquoted(w: Wrapper, pad: string, script: string, after: string)
    requires w.Valid() && Blank(pad) && Blank(after) && Trimmed(script) && !QuotedWhole(script)
    ensures Unwrap(w.Print(pad + script + after)) == Some(script)
  {
    hide Unwrap, Unquoted, TrimStart, TrimEnd, Wrapper.Print, Wrapper.Valid;
    WrapperIsRead(w, pad + script + after);
    TrimStrips(pad, script, after);
    UnquotedKeeps(script);
  }

  lemma {:induction false} TrimStartSplits(s: string) returns (gap: string)
    ensures Blank(gap) && s == gap + TrimStart(s)
    decreases s
  {
    if s == "" || !IsWhitespace(s[0]) { return ""; }
    assert s == [s[0]] + s[1..] && TrimStart(s) == TrimStart(s[1..]);
    gap := TrimStartSplits(s[1..]);
    hide TrimStart;
    Reassociate([s[0]], gap, TrimStart(s));
    gap := [s[0]] + gap;
  }

  lemma FirstFlag(rest: string) returns (flag: Flag, more: string)
    requires TrimStart(rest) != "" && TrimStart(rest)[0] == '-' && SplitOnce(TrimStart(rest)).Some?
    ensures flag.Valid() && rest == flag.Print() + more
    ensures SplitOnce(TrimStart(rest)) == Some((flag.word, more))
  {
    var s := TrimStart(rest);
    var gap := TrimStartSplits(rest);
    SplitOnceSplits(s);
    hide TrimStart, SplitOnce;
    var word := SplitOnce(s).value.0;
    more := SplitOnce(s).value.1;
    flag := Flag(gap, word, s[|word|]);
    assert word != "" by { assert s[0] == '-' && !IsWhitespace('-'); }
    assert word[0] == (word + [s[|word|]] + more)[0];
    assert gap + (word + [s[|word|]]) + more == gap + (word + [s[|word|]] + more);
  }

  lemma {:induction false} FlagsBefore(rest: string) returns (flags: seq<Flag>, command: Flag)
    requires AfterCommandFlag(rest).Some?
    ensures forall f :: f in flags ==> f.Valid() && !f.Carries()
    ensures command.Valid() && command.Carries()
    ensures rest == PrintFlags(flags, command.Print() + AfterCommandFlag(rest).value)
    decreases |rest|
  {
    TrimStartKeeps(rest);
    var flag, more := FirstFlag(rest);
    SplitOnceSplits(TrimStart(rest));
    if flag.Carries() { return [], flag; }
    flags, command := FlagsBefore(more);
    ghost var others := flags;
    flags := [flag] + others;
    assert flags[1..] == others;
  }

  /** A command is unwrapped exactly when it starts with a wrapper. */
  lemma UnwrapIff(command: string)
    ensures Unwrap(command).Some? <==> exists w: Wrapper, rest: string :: w.Valid() && command == w.Print(rest)
  {
    if Unwrap(command).Some? {
      var before := TrimStartSplits(command);
      var s := TrimStart(command);
      SplitOnceSplits(s);
      var (shell, more) := SplitOnce(s).value;
      ShellIffNamed(shell);
      var flags, flag := FlagsBefore(more);
      var w, rest := Wrapper(before, shell, s[|shell|], flags, flag), AfterCommandFlag(more).value;
      assert w.Valid() && command == w.Print(rest);
    }
    if exists w: Wrapper, rest: string :: w.Valid() && command == w.Print(rest) {
      var w: Wrapper, rest: string :| w.Valid() && command == w.Print(rest);
      WrapperIsRead(w, rest);
    }
  }

  /** So a wrapped command is read as the bare one is, whatever its tokens hold. */
  lemma WrappedCommandIsRead(w: Wrapper, pad: string, mark: char, after: string,
                             first: Statement, rest: seq<Statement>, joints: seq<Joint>)
    requires w.Valid() && IsQuote(mark) && Blank(pad) && Blank(after)
    requires |rest| == |joints| && forall j :: j in joints ==> j.Valid()
    ensures var script := PrintCommand(first, rest, joints);
            Parse(Script(w.Print(pad + ([mark] + script + [mark]) + after))) == FirstStages([first] + rest)
  {
    hide Unwrap, Parse, PrintCommand, FirstStages, Wrapper.Print, Wrapper.Valid;
    UnwrapStripsExactly(w, pad, mark, PrintCommand(first, rest, joints), after);
    ParseUndoesPrint(first, rest, joints);
  }

  /** And so is every bare command that is not taken for a wrapper, however it is quoted. */
  lemma UnwrappedCommandIsRead(first: Statement, rest: seq<Statement>, joints: seq<Joint>)
    requires |rest| == |joints| && forall j :: j in joints ==> j.Valid()
    requires Unwrap(PrintCommand(first, rest, joints)).None?
    ensures Parse(Script(PrintCommand(first, rest, joints))) == FirstStages([first] + rest)
  {
    hide Unwrap, Parse, PrintCommand, FirstStages;
    ParseUndoesPrint(first, rest, joints);
  }
}
