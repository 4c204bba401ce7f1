/** When a printed command that is not wrapped is read back: exactly which prints the front
    end of `hook_logic.rs` mistakes for a `zsh -lc "..."` wrapper. */
module BareCommands {
  import opened Wrappers
  import opened Text
  import opened ShellWords

  // -------------------------------------------------------------------- one way to quote

  /** The words of a command, before quoting. */
  type Argv = seq<string>
  type Pipeline = s: seq<Argv> | s != [] witness [[]]

  function QuoteBody(token: string): string {
    if token == "" then "" else (if token[0] == '\'' then "'\"'\"'" else [token[0]]) + QuoteBody(token[1..])
  }

  /** A token in single quotes, its own single quotes in double ones. */
  function Quoted(token: string): string { "'" + QuoteBody(token) + "'" }

  /** The chunks of that spelling, `done` being in the open quotes already. */
  function Chunks(done: string, token: string): (w: Spelling)
    requires '\'' !in done
    decreases token
  {
    if token == "" then [Single(done)]
    else if token[0] == '\'' then [Single(done), Double("'")] + Chunks("", token[1..])
    else Chunks(done + [token[0]], token[1..])
  }

  function Quote(token: string): Spelling { Chunks("", token) }

  function QuoteMore(argv: Argv): seq<Spaced> {
    if argv == [] then [] else [Spaced(" ", Quote(argv[0]))] + QuoteMore(argv[1..])
  }

  function QuoteStage(argv: Argv): Stage {
    if argv == [] then NoWords else Words(Quote(argv[0]), QuoteMore(argv[1..]))
  }

  function QuoteStages(stages: seq<Argv>): seq<Stage> {
    if stages == [] then [] else [QuoteStage(stages[0])] + QuoteStages(stages[1..])
  }

  function QuotePipeline(stages: Pipeline): Statement { [QuoteStage(stages[0])] + QuoteStages(stages[1..]) }

  function QuotePipelines(pipelines: seq<Pipeline>): (statements: seq<Statement>)
    ensures |statements| == |pipelines|
  {
    seq(|pipelines|, i requires 0 <= i < |pipelines| => QuotePipeline(pipelines[i]))
  }

  /** The command with every word quoted in this way, one blank between words. */
  function PrintQuoted(first: Pipeline, rest: seq<Pipeline>, joints: seq<Joint>): string
    requires |rest| == |joints|
  {
    PrintCommand(QuotePipeline(first), QuotePipelines(rest), joints)
  }

  function FirstArgvs(pipelines: seq<Pipeline>): seq<Argv> {
    seq(|pipelines|, i requires 0 <= i < |pipelines| => pipelines[i][0])
  }

  lemma ChunkCons(a: Chunk, more: seq<Chunk>)
    ensures PrintWord([a] + more) == a.Print() + PrintWord(more)
    ensures TextOf([a] + more) == a.text + TextOf(more)
  {
    assert ([a] + more)[1..] == more;
  }

  lemma PairFirst<T>(a: T, b: T, more: seq<T>)
    ensures [a, b] + more == [a] + ([b] + more)
  {
  }

  lemma ChunksCons(a: Chunk, b: Chunk, more: seq<Chunk>)
    ensures PrintWord([a, b] + more) == a.Print() + b.Print() + PrintWord(more)
    ensures TextOf([a, b] + more) == a.text + b.text + TextOf(more)
  {
    hide PrintWord, TextOf, Chunk.Print;
    PairFirst(a, b, more);
    ChunkCons(a, [b] + more);
    ChunkCons(b, more);
    Reassociate(a.Print(), b.Print(), PrintWord(more));
    Reassociate(a.text, b.text, TextOf(more));
  }

  lemma ChunkAlone(a: Chunk)
    ensures PrintWord([a]) == a.Print() && TextOf([a]) == a.text
  {
    assert [a][1..] == [];
  }

  lemma ChunksAtMark(done: string, rest: string)
    requires PrintWord(Chunks("", rest)) == "'" + "" + QuoteBody(rest) + "'" && TextOf(Chunks("", rest)) == "" + rest
    ensures PrintWord([Single(done), Double("'")] + Chunks("", rest)) == "'" + done + ("'\"'\"'" + QuoteBody(rest)) + "'"
    ensures TextOf([Single(done), Double("'")] + Chunks("", rest)) == done + ("'" + rest)
  {
    hide PrintWord, TextOf, QuoteBody, Chunks;
    ChunksCons(Single(done), Double("'"), Chunks("", rest));
  }

  lemma AppendRegroup(done: string, c: string, body: string)
    ensures "'" + (done + c) + body + "'" == "'" + done + (c + body) + "'"
    ensures (done + c) + body == done + (c + body)
  {
  }

  lemma QuoteUnfolds(done: string, token: string)
    requires '\'' !in done && token != ""
    ensures token == [token[0]] + token[1..]
    ensures QuoteBody(token) == (if token[0] == '\'' then "'\"'\"'" else [token[0]]) + QuoteBody(token[1..])
    ensures token[0] == '\'' ==> Chunks(done, token) == [Single(done), Double("'")] + Chunks("", token[1..])
    ensures token[0] != '\'' ==> Chunks(done, token) == Chunks(done + [token[0]], token[1..])
  {
  }

  lemma {:induction false} ChunksSpell(done: string, token: string)
    requires '\'' !in done
    ensures PrintWord(Chunks(done, token)) == "'" + done + QuoteBody(token) + "'"
    ensures TextOf(Chunks(done, token)) == done + token
    decreases token
  {
    if token == "" {
      ChunkAlone(Single(done));
      return;
    }
    hide PrintWord, TextOf, QuoteBody, Chunks;
    QuoteUnfolds(done, token);
    if token[0] == '\'' {
      ChunksSpell("", token[1..]);
      ChunksAtMark(done, token[1..]);
    } else {
      ChunksSpell(done + [token[0]], token[1..]);
      AppendRegroup(done, [token[0]], QuoteBody(token[1..]));
      AppendRegroup(done, [token[0]], token[1..]);
    }
  }

  lemma QuoteSpells(token: string)
    ensures PrintWord(Quote(token)) == Quoted(token) && TextOf(Quote(token)) == token
  {
    ChunksSpell("", token);
    assert "'" + "" + QuoteBody(token) + "'" == Quoted(token);
  }

  lemma QuoteMoreCons(argv: Argv)
    requires argv != []
    ensures TextsOf(QuoteMore(argv)) == [argv[0]] + TextsOf(QuoteMore(argv[1..]))
  {
    QuoteSpells(argv[0]);
    hide PrintWord, TextOf, Quote;
    assert QuoteMore(argv)[1..] == QuoteMore(argv[1..]);
  }

  lemma {:induction false} QuoteMoreTexts(argv: Argv)
    ensures TextsOf(QuoteMore(argv)) == argv
    decreases argv
  {
    if argv == [] { return; }
    hide TextsOf, QuoteMore;
    QuoteMoreCons(argv);
    QuoteMoreTexts(argv[1..]);
    assert argv == [argv[0]] + argv[1..];
  }

  lemma QuoteStageTokens(argv: Argv)
    ensures TokensOf(QuoteStage(argv)) == argv
  {
    if argv == [] { return; }
    hide TextOf, TextsOf, QuoteMore, Quote, PrintWord, Quoted;
    QuoteSpells(argv[0]);
    QuoteMoreTexts(argv[1..]);
    assert argv == [argv[0]] + argv[1..];
  }

  lemma QuotedFirstStages(first: Pipeline, rest: seq<Pipeline>)
    ensures FirstStages([QuotePipeline(first)] + QuotePipelines(rest)) == FirstArgvs([first] + rest)
  {
    var all, quoted := [first] + rest, [QuotePipeline(first)] + QuotePipelines(rest);
    forall i | 0 <= i < |all| ensures TokensOf(quoted[i][0]) == all[i][0] {
      assert quoted[i] == QuotePipeline(all[i]);
      QuoteStageTokens(all[i][0]);
    }
  }

  // ------------------------------------------------------------------ no shell in sight

  /** Every `h`, the last letter of each shell's name, has a character that is not blank
      after it. */
  predicate Calm(s: string) {
    forall i :: 0 <= i < |s| && s[i] == 'h' ==> i + 1 < |s| && !IsWhitespace(s[i + 1])
  }

  lemma CalmAppend(a: string, b: string)
    requires Calm(a) && Calm(b)
    ensures Calm(a + b)
  {
    var s := a + b;
    forall i | 0 <= i < |s| && s[i] == 'h' ensures i + 1 < |s| && !IsWhitespace(s[i + 1]) {
      if i < |a| { assert a[i] == 'h' && s[i + 1] == a[i + 1]; } else { assert b[i - |a|] == 'h'; }
    }
  }

  lemma {:induction false} BodyOfWord(token: string)
    requires Word(token)
    ensures Word(QuoteBody(token))
    decreases token
  {
    if token != "" {
      assert token[0] in token;
      BodyOfWord(token[1..]);
    }
  }

  lemma QuotedWordIsCalm(token: string)
    requires Word(token)
    ensures Calm(Quoted(token))
  {
    BodyOfWord(token);
    var quoted := Quoted(token);
    forall i | 0 <= i < |quoted| && quoted[i] == 'h' ensures i + 1 < |quoted| && !IsWhitespace(quoted[i + 1]) {
      if i + 1 < |quoted| - 1 { assert quoted[i + 1] in QuoteBody(token); }
    }
  }

  lemma BlankIsCalm(blank: string)
    requires Blank(blank)
    ensures Calm(blank)
  {
    forall i | 0 <= i < |blank| ensures blank[i] != 'h' { assert blank[i] in blank; }
  }

  lemma JointIsCalm(j: Joint)
    requires j.Valid()
    ensures Calm(j.Print())
  {
    BlankIsCalm(j.before);
    BlankIsCalm(j.after);
    assert Calm(j.op.Text());
    CalmAppend(j.before, j.op.Text());
    CalmAppend(j.before + j.op.Text(), j.after);
  }

  lemma BaseNameIsLast(path: string)
    ensures BaseName(path) != "" ==> path != "" && BaseName(path)[|BaseName(path)| - 1] == path[|path| - 1]
  {
  }

  lemma ShellEndsInH(name: string)
    requires name == "" || name[|name| - 1] != 'h'
    ensures !IsShell(name)
  {
  }

  lemma CalmWord(s: string, word: string)
    requires Calm(s) && |word| < |s| && s[..|word|] == word && IsWhitespace(s[|word|])
    ensures word == "" || word[|word| - 1] != 'h'
  {
    assert word != "" ==> word[|word| - 1] == s[|word| - 1];
  }

  lemma CalmSuffix(s: string, n: nat)
    requires Calm(s) && n <= |s|
    ensures Calm(s[n..])
  {
    var t := s[n..];
    forall i | 0 <= i < |t| && t[i] == 'h' ensures i + 1 < |t| && !IsWhitespace(t[i + 1]) {
      assert s[n + i] == 'h';
    }
  }

  lemma CalmTrimmed(s: string)
    requires Calm(s)
    ensures Calm(TrimStart(s))
  {
    TrimStartKeeps(s);
    hide TrimStart, Calm;
    var n :| 0 <= n <= |s| && TrimStart(s) == s[n..];
    CalmSuffix(s, n);
  }

  lemma CalmFirstWord(s: string)
    requires Calm(s) && SplitOnce(s).Some?
    ensures !IsShell(BaseName(SplitOnce(s).value.0))
  {
    hide Calm, BaseName, IsShell, SplitOnce;
    SplitOnceSplits(s);
    var word := SplitOnce(s).value.0;
    assert s[..|word|] == word;
    CalmWord(s, word);
    BaseNameIsLast(word);
    ShellEndsInH(BaseName(word));
  }

  lemma CalmIsNotUnwrapped(command: string)
    requires Calm(command)
    ensures Unwrap(command) == None
  {
    hide Calm, BaseName, IsShell, SplitOnce, AfterCommandFlag, Unquoted, TrimEnd, TrimStart;
    CalmTrimmed(command);
    if SplitOnce(TrimStart(command)).Some? { CalmFirstWord(TrimStart(command)); }
  }

  // ------------------------------------------------------------- a command as its pieces

  /** A printed command is quoted tokens with text between them. */
  datatype Piece = Token(text: string) | Glue(text: string) {
    function Print(): string { if Token? then Quoted(text) else text }
  }

  function PrintPieces(pieces: seq<Piece>): string {
    if pieces == [] then "" else pieces[0].Print() + PrintPieces(pieces[1..])
  }

  function MorePieces(argv: Argv): seq<Piece> {
    if argv == [] then [] else [Glue(" "), Token(argv[0])] + MorePieces(argv[1..])
  }

  function StagePieces(argv: Argv): seq<Piece> {
    if argv == [] then [] else [Token(argv[0])] + MorePieces(argv[1..])
  }

  function FilterPieces(filters: seq<Argv>): seq<Piece> {
    if filters == [] then [] else [Glue(" | ")] + StagePieces(filters[0]) + FilterPieces(filters[1..])
  }

  function PipelinePieces(stages: Pipeline): seq<Piece> { StagePieces(stages[0]) + FilterPieces(stages[1..]) }

  function RestPieces(rest: seq<Pipeline>, joints: seq<Joint>): seq<Piece>
    requires |rest| == |joints|
  {
    if rest == [] then []
    else
      [Glue(joints[0].Print())] + PipelinePieces(rest[0])
      + RestPieces(rest[1..], joints[1..])
  }

  function Pieces(first: Pipeline, rest: seq<Pipeline>, joints: seq<Joint>): seq<Piece>
    requires |rest| == |joints|
  {
    PipelinePieces(first) + RestPieces(rest, joints)
  }

  predicate PlainGlue(text: string) { Calm(text) && '/' !in text }

  /** The pieces spell `text`, and nothing between tokens ends in a shell's name or holds a
      slash. */
  predicate Spell(pieces: seq<Piece>, text: string) {
    PrintPieces(pieces) == text && forall p :: p in pieces && p.Glue? ==> PlainGlue(p.text)
  }

  lemma {:induction false} PrintPiecesConcat(a: seq<Piece>, b: seq<Piece>)
    ensures PrintPieces(a + b) == PrintPieces(a) + PrintPieces(b)
    decreases a
  {
    if a == [] {
      assert a + b == b;
    } else {
      assert (a + b)[1..] == a[1..] + b;
      PrintPiecesConcat(a[1..], b);
    }
  }

  lemma SpellConcat(a: seq<Piece>, x: string, b: seq<Piece>, y: string)
    requires Spell(a, x) && Spell(b, y)
    ensures Spell(a + b, x + y)
  {
    PrintPiecesConcat(a, b);
  }

  lemma SpellGlue(text: string)
    requires PlainGlue(text)
    ensures Spell([Glue(text)], text)
  {
  }

  lemma SpellToken(token: string)
    ensures Spell([Token(token)], PrintWord(Quote(token)))
  {
    QuoteSpells(token);
    assert [Token(token)][1..] == [];
    assert PrintPieces([Token(token)]) == Quoted(token) + "";
  }

  lemma QuoteMoreUnfolds(argv: Argv)
    requires argv != []
    ensures PrintWords(QuoteMore(argv)) == " " + PrintWord(Quote(argv[0])) + PrintWords(QuoteMore(argv[1..]))
    ensures MorePieces(argv) == [Glue(" ")] + [Token(argv[0])] + MorePieces(argv[1..])
  {
    assert QuoteMore(argv)[1..] == QuoteMore(argv[1..]);
    hide PrintWord, Quote;
  }

  lemma {:induction false} SpellMore(argv: Argv)
    ensures Spell(MorePieces(argv), PrintWords(QuoteMore(argv)))
    decreases argv
  {
    if argv == [] { return; }
    BlankGlue();
    hide Spell, PrintWord, PrintWords, PlainGlue;
    QuoteMoreUnfolds(argv);
    var printed := PrintWord(Quote(argv[0]));
    SpellGlue(" ");
    SpellToken(argv[0]);
    SpellMore(argv[1..]);
    SpellConcat([Glue(" ")], " ", [Token(argv[0])], printed);
    SpellConcat([Glue(" ")] + [Token(argv[0])], " " + printed, MorePieces(argv[1..]), PrintWords(QuoteMore(argv[1..])));
  }

  lemma BlankGlue()
    ensures PlainGlue(" ") && PlainGlue(" | ")
  {
  }

  lemma SpellStage(argv: Argv)
    ensures Spell(StagePieces(argv), PrintStage(QuoteStage(argv)))
  {
    if argv == [] { return; }
    hide Spell, PrintWord, PrintWords;
    SpellToken(argv[0]);
    SpellMore(argv[1..]);
    SpellConcat([Token(argv[0])], PrintWord(Quote(argv[0])), MorePieces(argv[1..]), PrintWords(QuoteMore(argv[1..])));
  }

  lemma QuoteStagesUnfold(filters: seq<Argv>)
    requires filters != []
    ensures PrintFilters(QuoteStages(filters)) == " | " + PrintStage(QuoteStage(filters[0])) + PrintFilters(QuoteStages(filters[1..]))
  {
    assert QuoteStages(filters)[1..] == QuoteStages(filters[1..]);
    hide PrintStage;
  }

  lemma {:induction false} SpellFilters(filters: seq<Argv>)
    ensures Spell(FilterPieces(filters), PrintFilters(QuoteStages(filters)))
    decreases filters
  {
    if filters == [] { return; }
    BlankGlue();
    hide Spell, PrintStage, PrintFilters, PlainGlue;
    QuoteStagesUnfold(filters);
    var printed := PrintStage(QuoteStage(filters[0]));
    SpellGlue(" | ");
    SpellStage(filters[0]);
    SpellFilters(filters[1..]);
    SpellConcat([Glue(" | ")], " | ", StagePieces(filters[0]), printed);
    SpellConcat([Glue(" | ")] + StagePieces(filters[0]), " | " + printed,
                FilterPieces(filters[1..]), PrintFilters(QuoteStages(filters[1..])));
  }

  lemma SpellPipeline(stages: Pipeline)
    ensures Spell(PipelinePieces(stages), PrintStatement(QuotePipeline(stages)))
  {
    SpellStage(stages[0]);
    SpellFilters(stages[1..]);
    assert QuotePipeline(stages)[1..] == QuoteStages(stages[1..]);
    SpellConcat(StagePieces(stages[0]), PrintStage(QuoteStage(stages[0])),
                FilterPieces(stages[1..]), PrintFilters(QuoteStages(stages[1..])));
  }

  lemma QuoteRestUnfolds(rest: seq<Pipeline>, joints: seq<Joint>)
    requires |rest| == |joints| && rest != []
    ensures PrintRest(QuotePipelines(rest), joints) ==
            joints[0].Print() + PrintStatement(QuotePipeline(rest[0])) + PrintRest(QuotePipelines(rest[1..]), joints[1..])
  {
    assert QuotePipelines(rest)[0] == QuotePipeline(rest[0]);
    assert QuotePipelines(rest)[1..] == QuotePipelines(rest[1..]);
    hide PrintStatement, Joint.Print, QuotePipeline;
  }

  lemma {:induction false} SpellRest(rest: seq<Pipeline>, joints: seq<Joint>)
    requires |rest| == |joints| && forall j :: j in joints ==> j.Valid()
    ensures Spell(RestPieces(rest, joints), PrintRest(QuotePipelines(rest), joints))
    decreases rest
  {
    if rest == [] { return; }
    var j := joints[0];
    var glue, printed := j.Print(), PrintStatement(QuotePipeline(rest[0]));
    var more := PrintRest(QuotePipelines(rest[1..]), joints[1..]);
    assert RestPieces(rest, joints) == [Glue(glue)] + PipelinePieces(rest[0]) + RestPieces(rest[1..], joints[1..]);
    QuoteRestUnfolds(rest, joints);
    hide Spell, RestPieces, PrintRest, PipelinePieces, PrintStatement, PlainGlue, QuotePipeline;
    assert j in joints;
    JointIsPlain(j);
    SpellGlue(glue);
    SpellPipeline(rest[0]);
    SpellRest(rest[1..], joints[1..]);
    SpellConcat([Glue(glue)], glue, PipelinePieces(rest[0]), printed);
    SpellConcat([Glue(glue)] + PipelinePieces(rest[0]), glue + printed, RestPieces(rest[1..], joints[1..]), more);
  }

  lemma JointIsPlain(j: Joint)
    requires j.Valid()
    ensures PlainGlue(j.Print())
  {
    JointIsCalm(j);
  }

  lemma SpellCommand(first: Pipeline, rest: seq<Pipeline>, joints: seq<Joint>)
    requires |rest| == |joints| && forall j :: j in joints ==> j.Valid()
    ensures Spell(Pieces(first, rest, joints), PrintQuoted(first, rest, joints))
  {
    hide Spell, PrintStatement, PrintRest, PipelinePieces, RestPieces;
    SpellPipeline(first);
    SpellRest(rest, joints);
    SpellConcat(PipelinePieces(first), PrintStatement(QuotePipeline(first)),
                RestPieces(rest, joints), PrintRest(QuotePipelines(rest), joints));
  }

  // -------------------------------------------------------------- the exact misreading

  /** A command cut around its first token that holds a blank. */
  datatype Cut = Cut(head: string, token: string, tail: string)

  function Shift(text: string, cut: Option<Cut>): Option<Cut> {
    if cut.None? then None else Some(cut.value.(head := text + cut.value.head))
  }

  function CutOf(pieces: seq<Piece>): Option<Cut> {
    if pieces == [] then None
    else if pieces[0].Token? && SplitOnce(pieces[0].text).Some? then
      Some(Cut("", pieces[0].text, PrintPieces(pieces[1..])))
    else
      Shift(pieces[0].Print(), CutOf(pieces[1..]))
  }

  /** The first token with a blank has no blank before it on the line, what comes before its
      own first blank is the path of a shell, and a command flag follows. */
  predicate PassesForWrapper(pieces: seq<Piece>) {
    var cut := CutOf(pieces);
    && cut.Some?
    && Word(TrimStart(cut.value.head))
    && var split := SplitOnce(cut.value.token);
       && split.Some?
       && var (path, more) := split.value;
          && '/' in path && IsShell(BaseName(path))
          && AfterCommandFlag(QuoteBody(more) + "'" + cut.value.tail).Some?
  }

  predicate IsCut(text: string, cut: Option<Cut>) {
    match cut
    case None => Calm(text)
    case Some(c) => text == c.head + Quoted(c.token) + c.tail && Calm(c.head) && SplitOnce(c.token).Some?
  }

  lemma ShiftIsCut(before: string, text: string, cut: Option<Cut>)
    requires Calm(before) && IsCut(text, cut)
    ensures IsCut(before + text, Shift(before, cut))
  {
    hide Calm, Quoted, SplitOnce;
    match cut
    case None => CalmAppend(before, text);
    case Some(c) =>
      CalmAppend(before, c.head);
      assert before + text == before + c.head + Quoted(c.token) + c.tail;
  }

  lemma {:induction false} CutIsCut(pieces: seq<Piece>)
    requires forall p :: p in pieces && p.Glue? ==> PlainGlue(p.text)
    ensures IsCut(PrintPieces(pieces), CutOf(pieces))
    decreases pieces
  {
    hide Calm, SplitOnce, Quoted;
    EmptyIsCalm();
    if pieces == [] { return; }
    var piece := pieces[0];
    assert piece in pieces;
    if piece.Token? && SplitOnce(piece.text).Some? {
      assert PrintPieces(pieces) == "" + Quoted(piece.text) + PrintPieces(pieces[1..]);
      return;
    }
    if piece.Token? {
      SplitOnceSplits(piece.text);
      QuotedWordIsCalm(piece.text);
    }
    CutIsCut(pieces[1..]);
    ShiftIsCut(piece.Print(), PrintPieces(pieces[1..]), CutOf(pieces[1..]));
  }

  lemma EmptyIsCalm()
    ensures Calm("")
  {
  }

  lemma {:induction false} QuoteBodyConcat(a: string, b: string)
    ensures QuoteBody(a + b) == QuoteBody(a) + QuoteBody(b)
    decreases a
  {
    if a == "" {
      assert a + b == b;
    } else {
      assert (a + b)[1..] == a[1..] + b;
      QuoteBodyConcat(a[1..], b);
    }
  }

  lemma BaseNameOfMark(s: string)
    ensures BaseName(s + "'\"'\"'") == BaseName(s) + "'\"'\"'"
  {
    hide BaseName;
    BaseNameSnoc(s, '\'');
    BaseNameSnoc(s + ['\''], '"');
    BaseNameSnoc(s + ['\''] + ['"'], '\'');
    BaseNameSnoc(s + ['\''] + ['"'] + ['\''], '"');
    BaseNameSnoc(s + ['\''] + ['"'] + ['\''] + ['"'], '\'');
    assert s + "'\"'\"'" == s + ['\''] + ['"'] + ['\''] + ['"'] + ['\''];
    assert BaseName(s) + "'\"'\"'" == BaseName(s) + ['\''] + ['"'] + ['\''] + ['"'] + ['\''];
  }

  /** Quoting hides neither a shell's path nor makes one up. */
  lemma {:induction false} BaseNameOfQuoted(before: string, path: string)
    ensures var name := BaseName(before + "'" + QuoteBody(path));
            if '/' in path then name == QuoteBody(BaseName(path)) else '\'' in name
    decreases path
  {
    EmptyBody();
    hide BaseName, QuoteBody;
    if path == "" {
      EmptyBaseName(before);
      return;
    }
    var init, last := path[..|path| - 1], path[|path| - 1];
    assert path == init + [last];
    var body := before + "'" + QuoteBody(init);
    BaseNameOfQuoted(before, init);
    QuoteBodySnoc(init, last);
    BaseNameSnoc(init, last);
    QuoteBodySnoc(BaseName(init), last);
    BaseNameSnoc(body, last);
    BaseNameOfMark(body);
    assert before + "'" + (QuoteBody(init) + [last]) == body + [last];
    assert before + "'" + (QuoteBody(init) + "'\"'\"'") == body + "'\"'\"'";
  }

  lemma EmptyBody()
    ensures QuoteBody("") == ""
  {
  }

  lemma EmptyBaseName(before: string)
    ensures '\'' in BaseName(before + "'" + QuoteBody(""))
  {
    BaseNameSnoc(before, '\'');
    assert before + "'" + QuoteBody("") == before + ['\''];
  }

  lemma QuoteBodySnoc(s: string, c: char)
    ensures QuoteBody(s + [c]) == QuoteBody(s) + if c == '\'' then "'\"'\"'" else [c]
  {
    QuoteBodyConcat(s, [c]);
    assert [c][1..] == "";
  }

  lemma {:induction false} ShellIffQuotedShell(name: string)
    ensures IsShell(QuoteBody(name)) <==> IsShell(name)
  {
    if '\'' in name { MarkIsQuoted(name); } else { PlainBody(name); }
  }

  lemma {:induction false} MarkIsQuoted(name: string)
    requires '\'' in name
    ensures '\'' in QuoteBody(name)
    decreases name
  {
    if name[0] == '\'' {
      assert QuoteBody(name)[0] == '\'';
    } else {
      MarkIsQuoted(name[1..]);
    }
  }

  lemma {:induction false} TrimStartAppend(head: string, s: string)
    requires s != "" && !IsWhitespace(s[0])
    ensures TrimStart(head + s) == TrimStart(head) + s
    decreases head
  {
    if head == "" {
      assert head + s == s;
    } else {
      assert (head + s)[1..] == head[1..] + s;
      if IsWhitespace(head[0]) { TrimStartAppend(head[1..], s); }
    }
  }

  lemma {:induction false} SplitOnceAppend(s: string, t: string)
    requires SplitOnce(s).Some?
    ensures SplitOnce(s + t) == Some((SplitOnce(s).value.0, SplitOnce(s).value.1 + t))
    decreases s
  {
    assert (s + t)[1..] == s[1..] + t;
    if !IsWhitespace(s[0]) { SplitOnceAppend(s[1..], t); }
  }

  lemma {:induction false} FirstPartIsWord(s: string)
    requires SplitOnce(s).Some?
    ensures Word(SplitOnce(s).value.0)
    decreases s
  {
    if !IsWhitespace(s[0]) { FirstPartIsWord(s[1..]); }
  }

  lemma QuotedAtBlank(token: string)
    requires SplitOnce(token).Some?
    ensures var (path, more) := SplitOnce(token).value;
            && |path| < |token| && IsWhitespace(token[|path|])
            && Quoted(token) == "'" + QuoteBody(path) + [token[|path|]] + (QuoteBody(more) + "'")
  {
    hide SplitOnce, QuoteBody;
    SplitOnceSplits(token);
    var path, more := SplitOnce(token).value.0, SplitOnce(token).value.1;
    var blank := token[|path|];
    QuoteBodySnoc(path, blank);
    QuoteBodyConcat(path + [blank], more);
    RegroupQuoted(QuoteBody(path), [blank], QuoteBody(more));
  }

  lemma RegroupQuoted(a: string, b: string, c: string)
    ensures "'" + (a + b + c) + "'" == "'" + a + b + (c + "'")
  {
  }

  /** The first word of a command cut around a token with a blank. */
  lemma FirstWord(cut: Cut)
    requires SplitOnce(cut.token).Some? && Word(TrimStart(cut.head))
    ensures var (path, more) := SplitOnce(cut.token).value;
            SplitOnce(TrimStart(cut.head + Quoted(cut.token) + cut.tail)) ==
              Some((TrimStart(cut.head) + "'" + QuoteBody(path), QuoteBody(more) + "'" + cut.tail))
  {
    hide SplitOnce, TrimStart, QuoteBody, Quoted;
    var (path, more) := SplitOnce(cut.token).value;
    QuotedAtBlank(cut.token);
    FirstPartIsWord(cut.token);
    BodyOfWord(path);
    FirstWordOf(cut.head, QuoteBody(path), cut.token[|path|], QuoteBody(more) + "'" + cut.tail);
    assert cut.head + Quoted(cut.token) + cut.tail ==
      cut.head + ("'" + QuoteBody(path) + [cut.token[|path|]] + (QuoteBody(more) + "'" + cut.tail));
  }

  lemma FirstWordOf(head: string, body: string, blank: char, rest: string)
    requires Word(TrimStart(head)) && Word(body) && IsWhitespace(blank)
    ensures SplitOnce(TrimStart(head + ("'" + body + [blank] + rest))) == Some((TrimStart(head) + "'" + body, rest))
  {
    hide SplitOnce, TrimStart;
    var s, word := "'" + body + [blank] + rest, TrimStart(head) + "'" + body;
    TrimStartAppend(head, s);
    assert TrimStart(head) + s == word + [blank] + rest;
    SplitOnceAt(word, blank, rest);
  }

  lemma UnwrapNeedsShell(command: string)
    requires SplitOnce(TrimStart(command)).Some?
    ensures Unwrap(command).Some? <==>
      && IsShell(BaseName(SplitOnce(TrimStart(command)).value.0))
      && AfterCommandFlag(SplitOnce(TrimStart(command)).value.1).Some?
  {
  }

  lemma CutPassesIff(cut: Cut)
    requires Calm(cut.head) && SplitOnce(cut.token).Some?
    ensures var (path, more) := SplitOnce(cut.token).value;
            Unwrap(cut.head + Quoted(cut.token) + cut.tail).Some? <==>
              && Word(TrimStart(cut.head)) && '/' in path && IsShell(BaseName(path))
              && AfterCommandFlag(QuoteBody(more) + "'" + cut.tail).Some?
  {
    hide SplitOnce, TrimStart, Calm, AfterCommandFlag, BaseName, Unwrap, QuoteBody, Quoted;
    if Word(TrimStart(cut.head)) { CutAtWord(cut); } else { CutAfterBlank(cut); }
  }

  lemma CutAtWord(cut: Cut)
    requires SplitOnce(cut.token).Some? && Word(TrimStart(cut.head))
    ensures var (path, more) := SplitOnce(cut.token).value;
            Unwrap(cut.head + Quoted(cut.token) + cut.tail).Some? <==>
              '/' in path && IsShell(BaseName(path)) && AfterCommandFlag(QuoteBody(more) + "'" + cut.tail).Some?
  {
    hide SplitOnce, TrimStart, AfterCommandFlag, BaseName, Unwrap, QuoteBody, Quoted;
    var path := SplitOnce(cut.token).value.0;
    FirstWord(cut);
    UnwrapNeedsShell(cut.head + Quoted(cut.token) + cut.tail);
    BaseNameOfQuoted(TrimStart(cut.head), path);
    ShellIffQuotedShell(BaseName(path));
  }

  lemma CutAfterBlank(cut: Cut)
    requires Calm(cut.head) && !Word(TrimStart(cut.head))
    ensures Unwrap(cut.head + Quoted(cut.token) + cut.tail).None?
  {
    hide SplitOnce, TrimStart, Calm, AfterCommandFlag, BaseName, IsShell, Unwrap;
    var head, s := TrimStart(cut.head), Quoted(cut.token) + cut.tail;
    SplitOnceSplits(head);
    CalmTrimmed(cut.head);
    CalmFirstWord(head);
    assert cut.head + Quoted(cut.token) + cut.tail == cut.head + s;
    TrimStartAppend(cut.head, s);
    SplitOnceAppend(head, s);
    UnwrapNeedsShell(cut.head + s);
  }

  /** A printed command is mistaken for a wrapper exactly when its first token with a blank
      passes for one. */
  lemma MistakenIff(first: Pipeline, rest: seq<Pipeline>, joints: seq<Joint>)
    requires |rest| == |joints| && forall j :: j in joints ==> j.Valid()
    ensures Unwrap(PrintQuoted(first, rest, joints)).Some? <==> PassesForWrapper(Pieces(first, rest, joints))
  {
    SpellCommand(first, rest, joints);
    var pieces, command := Pieces(first, rest, joints), PrintQuoted(first, rest, joints);
    CutIsCut(pieces);
    hide Calm, Unwrap, PrintQuoted, Pieces, AfterCommandFlag, SplitOnce, TrimStart;
    match CutOf(pieces)
    case None => CalmIsNotUnwrapped(command);
    case Some(cut) => CutPassesIff(cut);
  }

  /** Every other bare command is read back. */
  lemma BareCommandIsRead(first: Pipeline, rest: seq<Pipeline>, joints: seq<Joint>)
    requires |rest| == |joints| && forall j :: j in joints ==> j.Valid()
    requires !PassesForWrapper(Pieces(first, rest, joints))
    ensures Parse(Script(PrintQuoted(first, rest, joints))) == FirstArgvs([first] + rest)
  {
    MistakenIff(first, rest, joints);
    hide Unwrap, Parse, PrintCommand, FirstStages, FirstArgvs, PassesForWrapper;
    UnwrappedCommandIsRead(QuotePipeline(first), QuotePipelines(rest), joints);
    QuotedFirstStages(first, rest);
  }

  lemma {:induction false} WordsHaveNoCut(pieces: seq<Piece>)
    requires forall p :: p in pieces && p.Token? ==> Word(p.text)
    ensures CutOf(pieces) == None
    decreases pieces
  {
    if pieces != [] {
      assert pieces[0] in pieces;
      if pieces[0].Token? && SplitOnce(pieces[0].text).Some? { BlankInside(pieces[0].text); }
      WordsHaveNoCut(pieces[1..]);
    }
  }

  lemma BlankInside(s: string)
    requires SplitOnce(s).Some?
    ensures !Word(s)
  {
    SplitOnceSplits(s);
    assert s[|SplitOnce(s).value.0|] in s;
  }

  /** So every command whose tokens hold no blank is, ... */
  lemma BareWordsAreRead(first: Pipeline, rest: seq<Pipeline>, joints: seq<Joint>)
    requires |rest| == |joints| && forall j :: j in joints ==> j.Valid()
    requires forall p :: p in Pieces(first, rest, joints) && p.Token? ==> Word(p.text)
    ensures Parse(Script(PrintQuoted(first, rest, joints))) == FirstArgvs([first] + rest)
  {
    WordsHaveNoCut(Pieces(first, rest, joints));
    BareCommandIsRead(first, rest, joints);
  }

  lemma PiecesStart(first: Pipeline, rest: seq<Pipeline>, joints: seq<Joint>) returns (more: seq<Piece>)
    requires |rest| == |joints| && |first[0]| >= 2
    ensures Pieces(first, rest, joints) == [Token(first[0][0])] + ([Glue(" ")] + more)
  {
    hide RestPieces, FilterPieces;
    more := Pieces(first, rest, joints)[2..];
  }

  lemma CutOfCons(piece: Piece, pieces: seq<Piece>)
    requires piece.Token? ==> SplitOnce(piece.text).None?
    ensures CutOf([piece] + pieces) == Shift(piece.Print(), CutOf(pieces))
  {
    assert ([piece] + pieces)[1..] == pieces;
  }

  /** ... and so is every command with arguments whose first word holds none, such as
      `'grep' 'foo bar' 'src'`, whatever follows. */
  lemma BareInvocationIsRead(first: Pipeline, rest: seq<Pipeline>, joints: seq<Joint>)
    requires |rest| == |joints| && forall j :: j in joints ==> j.Valid()
    requires |first[0]| >= 2 && Word(first[0][0])
    ensures Parse(Script(PrintQuoted(first, rest, joints))) == FirstArgvs([first] + rest)
  {
    var command := first[0][0];
    if SplitOnce(command).Some? { BlankInside(command); }
    hide CutOf, SplitOnce, Pieces, TrimStart, Quoted, Parse, Script, PrintQuoted, FirstArgvs;
    var more := PiecesStart(first, rest, joints);
    CutOfCons(Token(command), [Glue(" ")] + more);
    CutOfCons(Glue(" "), more);
    if CutOf(more).Some? { BlankAfterQuoted(command, CutOf(more).value.head); }
    BareCommandIsRead(first, rest, joints);
  }

  lemma BlankAfterQuoted(command: string, more: string)
    ensures !Word(TrimStart(Quoted(command) + (" " + more)))
  {
    var head := Quoted(command) + (" " + more);
    assert head[0] == '\'' && TrimStart(head) == head;
    assert head[|Quoted(command)|] == ' ' && head[|Quoted(command)|] in head;
  }

  // ---------------------------------------------------------- a mistaken command is misread

  function Slashes(s: string): nat { if s == "" then 0 else (if s[0] == '/' then 1 else 0) + Slashes(s[1..]) }

  function SlashesIn(tokens: seq<string>): nat {
    if tokens == [] then 0 else Slashes(tokens[0]) + SlashesIn(tokens[1..])
  }

  function SlashesOf(commands: seq<seq<string>>): nat {
    if commands == [] then 0 else SlashesIn(commands[0]) + SlashesOf(commands[1..])
  }

  function SegmentSlashes(segments: seq<Segment>): nat {
    if segments == [] then 0 else Slashes(segments[0].text) + SegmentSlashes(segments[1..])
  }

  lemma {:induction false} SlashesConcat(a: string, b: string)
    ensures Slashes(a + b) == Slashes(a) + Slashes(b)
    decreases a
  {
    if a == "" {
      assert a + b == b;
    } else {
      assert (a + b)[1..] == a[1..] + b;
      SlashesConcat(a[1..], b);
    }
  }

  lemma {:induction false} NoSlashes(s: string)
    ensures Slashes(s) == 0 <==> '/' !in s
    decreases s
  {
    if s != "" { NoSlashes(s[1..]); }
  }

  lemma {:induction false} SlashesInQuotes(token: string)
    ensures Slashes(QuoteBody(token)) == Slashes(token)
    decreases token
  {
    if token != "" {
      SlashesInQuotes(token[1..]);
      SlashesConcat(if token[0] == '\'' then "'\"'\"'" else [token[0]], QuoteBody(token[1..]));
      NoSlashes("'\"'\"'");
    }
  }

  lemma SlashesQuoted(token: string)
    ensures Slashes(Quoted(token)) == Slashes(token)
  {
    SlashesInQuotes(token);
    SlashesConcat("'", QuoteBody(token));
    SlashesConcat("'" + QuoteBody(token), "'");
    NoSlashes("'");
  }

  function PieceSlashes(pieces: seq<Piece>): nat {
    if pieces == [] then 0 else (if pieces[0].Token? then Slashes(pieces[0].text) else 0) + PieceSlashes(pieces[1..])
  }

  lemma {:induction false} SlashesPrinted(pieces: seq<Piece>)
    requires forall p :: p in pieces && p.Glue? ==> PlainGlue(p.text)
    ensures Slashes(PrintPieces(pieces)) == PieceSlashes(pieces)
    decreases pieces
  {
    if pieces == [] { return; }
    var piece := pieces[0];
    assert piece in pieces;
    SlashesConcat(piece.Print(), PrintPieces(pieces[1..]));
    SlashesPrinted(pieces[1..]);
    if piece.Token? { SlashesQuoted(piece.text); } else { NoSlashes(piece.text); }
  }

  lemma {:induction false} PieceSlashesConcat(a: seq<Piece>, b: seq<Piece>)
    ensures PieceSlashes(a + b) == PieceSlashes(a) + PieceSlashes(b)
    decreases a
  {
    if a == [] {
      assert a + b == b;
    } else {
      assert (a + b)[1..] == a[1..] + b;
      PieceSlashesConcat(a[1..], b);
    }
  }

  lemma {:induction false} MoreSlashes(argv: Argv)
    ensures PieceSlashes(MorePieces(argv)) == SlashesIn(argv)
    decreases argv
  {
    if argv == [] { return; }
    var pieces, more := MorePieces(argv), MorePieces(argv[1..]);
    assert pieces[1..] == [Token(argv[0])] + more && pieces[1..][1..] == more;
    MoreSlashes(argv[1..]);
  }

  lemma StageSlashes(argv: Argv)
    ensures PieceSlashes(StagePieces(argv)) == SlashesIn(argv)
  {
    if argv == [] { return; }
    assert StagePieces(argv)[1..] == MorePieces(argv[1..]);
    MoreSlashes(argv[1..]);
  }

  /** No filter, that is no stage after the first, has a token with a slash. */
  predicate PlainFilters(filters: seq<Argv>) { forall i :: 0 <= i < |filters| ==> SlashesIn(filters[i]) == 0 }

  lemma {:induction false} FilterSlashes(filters: seq<Argv>)
    requires PlainFilters(filters)
    ensures PieceSlashes(FilterPieces(filters)) == 0
    decreases filters
  {
    if filters == [] { return; }
    assert PlainFilters(filters[1..]);
    FilterSlashes(filters[1..]);
    StageSlashes(filters[0]);
    PieceSlashesConcat([Glue(" | ")], StagePieces(filters[0]));
    PieceSlashesConcat([Glue(" | ")] + StagePieces(filters[0]), FilterPieces(filters[1..]));
    assert [Glue(" | ")][1..] == [];
  }

  lemma PipelineSlashes(stages: Pipeline)
    requires PlainFilters(stages[1..])
    ensures PieceSlashes(PipelinePieces(stages)) == SlashesIn(stages[0])
  {
    StageSlashes(stages[0]);
    FilterSlashes(stages[1..]);
    PieceSlashesConcat(StagePieces(stages[0]), FilterPieces(stages[1..]));
  }

  lemma FirstArgvsUnfold(first: Pipeline, rest: seq<Pipeline>)
    ensures SlashesOf(FirstArgvs([first] + rest)) == SlashesIn(first[0]) + SlashesOf(FirstArgvs(rest))
  {
    var all := FirstArgvs([first] + rest);
    assert all[0] == first[0] && all[1..] == FirstArgvs(rest);
  }

  lemma RestPiecesUnfold(rest: seq<Pipeline>, joints: seq<Joint>)
    requires |rest| == |joints| && rest != []
    ensures RestPieces(rest, joints) ==
      [Glue(joints[0].Print())] + (PipelinePieces(rest[0]) + RestPieces(rest[1..], joints[1..]))
  {
    hide PipelinePieces;
  }

  lemma GlueHasNone(glue: Piece)
    requires glue.Glue?
    ensures PieceSlashes([glue]) == 0
  {
    assert [glue][1..] == [];
  }

  lemma RestSlashesSplit(rest: seq<Pipeline>, joints: seq<Joint>)
    requires |rest| == |joints| && rest != []
    ensures PieceSlashes(RestPieces(rest, joints)) ==
      PieceSlashes(PipelinePieces(rest[0])) + PieceSlashes(RestPieces(rest[1..], joints[1..]))
    ensures SlashesOf(FirstArgvs(rest)) == SlashesIn(rest[0][0]) + SlashesOf(FirstArgvs(rest[1..]))
  {
    hide PieceSlashes, SlashesIn, SlashesOf, RestPieces, PipelinePieces, FirstArgvs;
    var glue := Glue(joints[0].Print());
    var more := RestPieces(rest[1..], joints[1..]);
    RestPiecesUnfold(rest, joints);
    GlueHasNone(glue);
    PieceSlashesConcat(PipelinePieces(rest[0]), more);
    PieceSlashesConcat([glue], PipelinePieces(rest[0]) + more);
    FirstArgvsUnfold(rest[0], rest[1..]);
    assert rest == [rest[0]] + rest[1..];
  }

  lemma {:induction false} RestSlashes(rest: seq<Pipeline>, joints: seq<Joint>)
    requires |rest| == |joints|
    requires forall i :: 0 <= i < |rest| ==> PlainFilters(rest[i][1..])
    ensures PieceSlashes(RestPieces(rest, joints)) == SlashesOf(FirstArgvs(rest))
    decreases rest
  {
    if rest == [] { return; }
    hide PieceSlashes, SlashesIn, SlashesOf, RestPieces, PipelinePieces, FirstArgvs, PlainFilters;
    PipelineSlashes(rest[0]);
    RestSlashes(rest[1..], joints[1..]);
    RestSlashesSplit(rest, joints);
  }

  lemma CommandPrints(first: Pipeline, rest: seq<Pipeline>, joints: seq<Joint>)
    requires |rest| == |joints| && forall j :: j in joints ==> j.Valid()
    requires forall i :: 0 <= i < |[first] + rest| ==> PlainFilters(([first] + rest)[i][1..])
    ensures Slashes(PrintQuoted(first, rest, joints)) == SlashesOf(FirstArgvs([first] + rest))
  {
    assert ([first] + rest)[0] == first;
    forall i | 0 <= i < |rest| ensures PlainFilters(rest[i][1..]) { assert ([first] + rest)[i + 1] == rest[i]; }
    SpellCommand(first, rest, joints);
    hide PieceSlashes, Slashes, SlashesIn, SlashesOf, RestPieces, PipelinePieces, FirstArgvs, PrintQuoted, PlainFilters;
    SlashesPrinted(Pieces(first, rest, joints));
    PipelineSlashes(first);
    RestSlashes(rest, joints);
    PieceSlashesConcat(PipelinePieces(first), RestPieces(rest, joints));
    FirstArgvsUnfold(first, rest);
  }

  // Reading never makes a slash up.

  lemma {:induction false} TokensHaveNoMore(s: string, cur: string, quote: Option<char>, started: bool)
    ensures SlashesIn(Tokens(s, cur, quote, started)) <= Slashes(cur) + Slashes(s)
    decreases |s|
  {
    if s == "" { return; }
    var c, rest := s[0], s[1..];
    SlashesConcat(cur, [c]);
    assert [c][1..] == "";
    if quote.Some? {
      if c == quote.value { TokensHaveNoMore(rest, cur, None, started); } else { TokensHaveNoMore(rest, cur + [c], quote, started); }
    } else if IsQuote(c) {
      TokensHaveNoMore(rest, cur, Some(c), true);
    } else if IsWhitespace(c) {
      TokensHaveNoMore(rest, if started then "" else cur, None, false);
      var more := Tokens(rest, "", None, false);
      assert ([cur] + more)[1..] == more;
    } else {
      TokensHaveNoMore(rest, cur + [c], None, true);
    }
  }

  lemma SegmentSlashesCons(segment: Segment, more: seq<Segment>)
    ensures SegmentSlashes([segment] + more) == Slashes(segment.text) + SegmentSlashes(more)
  {
    assert ([segment] + more)[1..] == more;
  }

  lemma {:induction false} SegmentsHaveNoMore(s: string, cur: string, source: bool, quote: Option<char>)
    ensures SegmentSlashes(Segments(s, cur, source, quote)) <= Slashes(cur) + Slashes(s)
    decreases |s|
  {
    if s == "" {
      SegmentSlashesCons(Segment(cur, source), []);
      assert [Segment(cur, source)] + [] == [Segment(cur, source)];
      return;
    }
    var c, rest := s[0], s[1..];
    SlashesConcat(cur, [c]);
    assert [c][1..] == "";
    if quote.Some? || !Ends(s) {
      SegmentsHaveNoMore(rest, cur + [c], source, QuoteStep(c, quote));
    } else if c != ';' && |s| > 1 && s[1] == c {
      SegmentsHaveNoMore(s[2..], "", true, None);
      SegmentSlashesCons(Segment(cur, source), Segments(s[2..], "", true, None));
      assert rest[1..] == s[2..];
    } else {
      SegmentsHaveNoMore(rest, "", c == ';', None);
      SegmentSlashesCons(Segment(cur, source), Segments(rest, "", c == ';', None));
    }
  }

  lemma TrimStartHasNoMore(s: string)
    ensures Slashes(TrimStart(s)) <= Slashes(s)
  {
    TrimStartKeeps(s);
    hide Slashes, TrimStart;
    var n :| 0 <= n <= |s| && TrimStart(s) == s[n..];
    assert s == s[..n] + s[n..];
    SlashesConcat(s[..n], s[n..]);
  }

  lemma TrimEndHasNoMore(s: string)
    ensures Slashes(TrimEnd(s)) <= Slashes(s)
  {
    TrimEndKeeps(s);
    hide Slashes, TrimEnd;
    var n := |TrimEnd(s)|;
    assert s == TrimEnd(s) + s[n..];
    SlashesConcat(TrimEnd(s), s[n..]);
  }

  lemma TrimHasNoMore(s: string)
    ensures Slashes(Trim(s)) <= Slashes(s)
  {
    hide Slashes, TrimStart, TrimEnd;
    TrimStartHasNoMore(s);
    TrimEndHasNoMore(TrimStart(s));
  }

  lemma {:induction false} SourcesHaveNoMore(segments: seq<Segment>)
    ensures SlashesOf(SourceTokens(segments)) <= SegmentSlashes(segments)
    decreases segments
  {
    if segments == [] { return; }
    var segment, more := segments[0], segments[1..];
    assert segments == [segment] + more;
    SourcesHaveNoMore(more);
    TrimHasNoMore(segment.text);
    TokensHaveNoMore(Trim(segment.text), "", None, false);
    hide SourceTokens, Tokens, Trim, Slashes;
    SegmentThen(segment, more);
    var tokens := Tokenize(Trim(segment.text));
    assert ([tokens] + SourceTokens(more))[1..] == SourceTokens(more);
    assert [] + SourceTokens(more) == SourceTokens(more);
  }

  lemma ParseHasNoMore(command: string)
    ensures SlashesOf(Parse(command)) <= Slashes(command)
  {
    SegmentsHaveNoMore(command, "", true, None);
    SourcesHaveNoMore(Segments(command, "", true, None));
  }

  lemma SplitHasNoMore(s: string)
    requires SplitOnce(s).Some?
    ensures Slashes(SplitOnce(s).value.0) + Slashes(SplitOnce(s).value.1) <= Slashes(s)
  {
    SplitOnceSplits(s);
    var (word, rest) := SplitOnce(s).value;
    SlashesConcat(word, [s[|word|]]);
    SlashesConcat(word + [s[|word|]], rest);
  }

  lemma {:induction false} FlagsHaveNoMore(rest: string)
    requires AfterCommandFlag(rest).Some?
    ensures Slashes(AfterCommandFlag(rest).value) <= Slashes(rest)
    decreases |rest|
  {
    TrimStartKeeps(rest);
    TrimStartHasNoMore(rest);
    var flags := TrimStart(rest);
    SplitOnceSplits(flags);
    SplitHasNoMore(flags);
    hide Slashes, TrimStart, SplitOnce;
    if 'c' !in SplitOnce(flags).value.0 { FlagsHaveNoMore(SplitOnce(flags).value.1); }
  }

  lemma UnquotedHasNoMore(inner: string)
    ensures Slashes(Unquoted(inner)) <= Slashes(inner)
  {
    if Unquoted(inner) != inner {
      var n := |inner| - 1;
      assert inner == inner[..1] + inner[1..n] + inner[n..];
      SlashesConcat(inner[..1], inner[1..n]);
      SlashesConcat(inner[..1] + inner[1..n], inner[n..]);
    }
  }

  /** Unwrapping drops at least the slashes of the shell's path. */
  lemma UnwrapDrops(command: string)
    requires Unwrap(command).Some?
    ensures Slashes(Unwrap(command).value) + Slashes(SplitOnce(TrimStart(command)).value.0) <= Slashes(command)
  {
    TrimStartHasNoMore(command);
    var start := TrimStart(command);
    SplitHasNoMore(start);
    var rest := SplitOnce(start).value.1;
    FlagsHaveNoMore(rest);
    TrimHasNoMore(AfterCommandFlag(rest).value);
    UnquotedHasNoMore(Trim(AfterCommandFlag(rest).value));
    hide Slashes;
  }

  lemma MistakenWordHasSlash(first: Pipeline, rest: seq<Pipeline>, joints: seq<Joint>)
    requires |rest| == |joints| && forall j :: j in joints ==> j.Valid()
    requires PassesForWrapper(Pieces(first, rest, joints))
    ensures SplitOnce(TrimStart(PrintQuoted(first, rest, joints))).Some?
    ensures Slashes(SplitOnce(TrimStart(PrintQuoted(first, rest, joints))).value.0) > 0
  {
    SpellCommand(first, rest, joints);
    CutIsCut(Pieces(first, rest, joints));
    var cut := CutOf(Pieces(first, rest, joints)).value;
    hide Pieces, PrintQuoted, Calm, TrimStart, SplitOnce, AfterCommandFlag, Slashes;
    FirstWord(cut);
    var path := SplitOnce(cut.token).value.0;
    NoSlashes(path);
    SlashesInQuotes(path);
    SlashesConcat(TrimStart(cut.head) + "'", QuoteBody(path));
  }

  /** When no filter holds a slash, a bare command is read back exactly when it does not
      pass for a wrapper: the shell's path takes a slash that no reading can replace. */
  lemma BareCommandIsReadIff(first: Pipeline, rest: seq<Pipeline>, joints: seq<Joint>)
    requires |rest| == |joints| && forall j :: j in joints ==> j.Valid()
    requires forall i :: 0 <= i < |[first] + rest| ==> PlainFilters(([first] + rest)[i][1..])
    ensures Parse(Script(PrintQuoted(first, rest, joints))) == FirstArgvs([first] + rest)
      <==> !PassesForWrapper(Pieces(first, rest, joints))
  {
    hide Slashes, SlashesOf, Parse, PrintQuoted, FirstArgvs, PassesForWrapper, Pieces, Unwrap;
    if !PassesForWrapper(Pieces(first, rest, joints)) {
      BareCommandIsRead(first, rest, joints);
    } else {
      var command := PrintQuoted(first, rest, joints);
      MistakenIff(first, rest, joints);
      MistakenWordHasSlash(first, rest, joints);
      UnwrapDrops(command);
      ParseHasNoMore(Script(command));
      CommandPrints(first, rest, joints);
    }
  }

  lemma {:induction false} PlainBody(token: string)
    requires '\'' !in token
    ensures QuoteBody(token) == token
    decreases token
  {
    if token != "" {
      assert token[0] in token;
      PlainBody(token[1..]);
      assert token == [token[0]] + token[1..];
    }
  }

  lemma PrintOfPlainToken(token: string)
    requires '\'' !in token
    ensures PrintQuoted([[token]], [], []) == "'" + token + "'"
  {
    PlainBody(token);
    QuoteSpells(token);
    assert [[token]][1..] == [] && [token][1..] == [];
    assert QuotePipeline([[token]])[1..] == [];
  }

  lemma {:induction false} OpenQuoteIsRead(word: string, cur: string, started: bool)
    requires Bare(word)
    ensures Tokens(word + "'", cur, None, started) == [cur + word]
    ensures Quiet(word + "'", None)
    decreases word
  {
    var s := word + "'";
    if word == "" {
      assert s[1..] == "" && cur + word == cur;
    } else {
      assert word[0] in word && s[1..] == word[1..] + "'";
      assert cur + [word[0]] + word[1..] == cur + word;
      OpenQuoteIsRead(word[1..], cur + [word[0]], true);
    }
  }

  lemma OpenScriptIsItself(word: string)
    requires Bare(word)
    ensures Trim(word + "'") == Unquoted(word + "'") == word + "'"
  {
    assert word != "" ==> word[0] in word;
    TrimTrims(word + "'");
  }

  lemma OpenScriptIsRead(word: string)
    requires Bare(word)
    ensures Unquoted(Trim(word + "'")) == word + "'"
    ensures Parse(word + "'") == [[word]]
  {
    hide Tokens, Quiet, Bare, Unquoted, Trim;
    var script := word + "'";
    OpenScriptIsItself(word);
    OpenQuoteIsRead(word, "", false);
    PassThrough(script, "", "", true, None);
    assert script + "" == script && "" + script == script && "" + word == word;
    assert Segments(script, "", true, None) == [Segment(script, true)];
    SegmentThen(Segment(script, true), []);
    assert [Segment(script, true)] + [] == [Segment(script, true)];
  }

  lemma QuotedShellIsUnwrapped(dir: string, word: string)
    requires Word(dir) && '\'' !in dir && Bare(word)
    ensures Unwrap("'" + (dir + "/zsh -c " + word) + "'") == Some(word + "'")
  {
    var shell, script := "'" + dir + "/" + "zsh", word + "'";
    assert "'" + (dir + "/zsh -c " + word) + "'" == "" + (shell + [' '] + ("-c " + script));
    hide BaseName, SplitOnce, AfterCommandFlag, TrimEnd, TrimStart, Trim, Unquoted;
    BaseNameAfterSlash("'" + dir, "zsh");
    var flag := ShellWords.Flag("", "-c", ' ');
    assert flag.Print() == "-c ";
    ShellIsRead("", shell, ' ', flag.Print() + script);
    FlagIsRead(flag, script);
    OpenScriptIsRead(word);
  }

  /** A quoted token that holds a shell's path and `-c` passes for a wrapper: what is left
      of the token is read as the script, its last quote open. */
  lemma QuotedTokenPassesForWrapper(dir: string, word: string)
    requires Word(dir) && '\'' !in dir && Bare(word)
    ensures Parse(Script(PrintQuoted([[dir + "/zsh -c " + word]], [], []))) == [[word]]
  {
    var token := dir + "/zsh -c " + word;
    assert forall c :: c in word ==> !IsQuote(c);
    PrintOfPlainToken(token);
    hide PrintQuoted, Parse, Unwrap;
    QuotedShellIsUnwrapped(dir, word);
    OpenScriptIsRead(word);
  }
}
