/** What a tokenized `grep` or `rg` searches for: `extract_grep_pattern` of `hook_logic.rs`. */
module GrepPattern {
  import opened Wrappers
  import ShellWords

  datatype Search = Search(pattern: string, path: Option<string>)

  /** What the scan has gathered so far. */
  datatype Scan = Scan(pattern: Option<string>, positionals: seq<string>, recursive: bool)

  const SHORT_WITH_VALUE: set<char> := {'A', 'B', 'C', 'm', 'f', 'd', 'g', 't'}

  const LONG_WITH_VALUE: set<string> := {
    "include", "exclude", "glob", "type", "file", "max-count", "context", "after-context", "before-context"
  }

  const REGEXP := "--regexp="

  predicate IsLong(t: string) { "--" <= t }

  predicate IsShort(t: string) { |t| > 1 && t[0] == '-' && !IsLong(t) }

  predicate TakesValue(t: string) {
    (IsLong(t) && t[2..] in LONG_WITH_VALUE) || (IsShort(t) && t[|t| - 1] in SHORT_WITH_VALUE)
  }

  predicate MakesRecursive(t: string) {
    (IsLong(t) && t[2..] == "recursive") || (IsShort(t) && ('r' in t || 'R' in t))
  }

  /** The scan of the tokens still to come. */
  function ScanTokens(tokens: seq<string>, acc: Scan): Scan
    decreases |tokens|
  {
    if tokens == [] then acc
    else
      var t := tokens[0];
      var past := if |tokens| > 1 then tokens[2..] else [];
      if t == "-e" || t == "--regexp" then
        ScanTokens(past, acc.(pattern := if |tokens| > 1 then Some(tokens[1]) else None))
      else if REGEXP <= t then
        ScanTokens(tokens[1..], acc.(pattern := Some(t[|REGEXP|..])))
      else if IsLong(t) || IsShort(t) then
        ScanTokens(if TakesValue(t) then past else tokens[1..], acc.(recursive := acc.recursive || MakesRecursive(t)))
      else
        ScanTokens(tokens[1..], acc.(positionals := acc.positionals + [t]))
  }

  predicate IsRipgrep(command: string) { ShellWords.BaseName(command) == "rg" }

  predicate IsGrep(command: string) {
    var base := ShellWords.BaseName(command);
    base == "grep" || base == "egrep" || base == "fgrep"
  }

  function Get(s: seq<string>, i: nat): Option<string> { if i < |s| then Some(s[i]) else None }

  /** The pattern, then the targets. */
  function Operands(scan: Scan): seq<string> {
    (if scan.pattern.Some? then [scan.pattern.value] else []) + scan.positionals
  }

  /** A search needs a tool, a pattern, and a target unless it is recursive. */
  function Result(command: string, scan: Scan): Option<Search> {
    var operands := Operands(scan);
    if !IsRipgrep(command) && !IsGrep(command) then None
    else if operands == [] || (!scan.recursive && |operands| == 1) then None
    else Some(Search(operands[0], Get(operands, 1)))
  }

  function Extracted(tokens: seq<string>): Option<Search> {
    if tokens == [] then None else Result(tokens[0], ScanTokens(tokens[1..], Scan(None, [], IsRipgrep(tokens[0]))))
  }

  method ExtractGrepPattern(tokens: seq<string>) returns (search: Option<Search>)
    ensures search == Extracted(tokens)
  {
    if tokens == [] { return None; }
    var isRg := IsRipgrep(tokens[0]);
    if !isRg && !IsGrep(tokens[0]) { return None; }
    var explicitPattern: Option<string>, positionals: seq<string>, recursive, i := None, [], isRg, 1;
    while i < |tokens|
      invariant i >= 1
      invariant ScanTokens(tokens[1..], Scan(None, [], isRg)) ==
        ScanTokens(if i < |tokens| then tokens[i..] else [], Scan(explicitPattern, positionals, recursive))
    {
      var t := tokens[i];
      assert tokens[i..][1..] == tokens[i + 1..];
      assert i + 1 < |tokens| ==> tokens[i..][2..] == tokens[i + 2..];
      if t == "-e" || t == "--regexp" {
        explicitPattern, i := Get(tokens, i + 1), i + 2;
        continue;
      }
      if REGEXP <= t {
        explicitPattern, i := Some(t[|REGEXP|..]), i + 1;
        continue;
      }
      if "--" <= t {
        if t[2..] == "recursive" { recursive := true; }
        i := i + (if t[2..] in LONG_WITH_VALUE then 2 else 1);
        continue;
      }
      if |t| > 1 && t[0] == '-' {
        if 'r' in t || 'R' in t { recursive := true; }
        i := i + (if t[|t| - 1] in SHORT_WITH_VALUE then 2 else 1);
        continue;
      }
      positionals, i := positionals + [t], i + 1;
    }
    var pattern, path := explicitPattern, Get(positionals, 0);
    if pattern.None? {
      if positionals == [] { return None; }
      pattern, path := Some(positionals[0]), Get(positionals, 1);
    }
    if !recursive && path.None? { return None; }
    return Some(Search(pattern.value, path));
  }

  // -------------------------------------------------------------------------- printing

  predicate PatternFlag(flag: string) { flag == "-e" || flag == "--regexp" }

  /** A dash and letters, or two dashes and a name. */
  predicate IsFlag(flag: string) { |flag| > 1 && flag[0] == '-' }

  /** The flags whose value is the next argument. */
  predicate WantsValue(flag: string) {
    || (|flag| > 2 && flag[..2] == "--"
        && flag[2..] in {"include", "exclude", "glob", "type", "file", "max-count", "context", "after-context", "before-context"})
    || (IsFlag(flag) && flag[1] != '-' && flag[|flag| - 1] in "ABCmfdgt")
  }

  /** The flags that make a search recursive. */
  predicate Recurses(flag: string) {
    flag == "--recursive" || (IsFlag(flag) && flag[1] != '-' && ('r' in flag || 'R' in flag))
  }

  /** One argument as its writer meant it; `Dangling` is a last flag without its value. */
  datatype Arg =
    | Pattern(flag: string, pattern: string)
    | InlinePattern(pattern: string)
    | Switch(flag: string)
    | Valued(flag: string, value: string)
    | Positional(text: string)
    | Dangling(flag: string)
  {
    predicate Valid() {
      match this
      case Pattern(flag, _) => PatternFlag(flag)
      case InlinePattern(_) => true
      case Switch(flag) => IsFlag(flag) && !WantsValue(flag) && !PatternFlag(flag) && !("--regexp=" <= flag)
      case Valued(flag, _) => WantsValue(flag)
      case Positional(text) => text == "" || text == "-" || text[0] != '-'
      case Dangling(flag) => PatternFlag(flag) || WantsValue(flag)
    }

    function Print(): seq<string> {
      match this
      case Pattern(flag, pattern) => [flag, pattern]
      case InlinePattern(pattern) => ["--regexp=" + pattern]
      case Switch(flag) => [flag]
      case Valued(flag, value) => [flag, value]
      case Positional(text) => [text]
      case Dangling(flag) => [flag]
    }

    /** It settles the pattern: with one, or, for a last flag without one, with none. */
    predicate SetsPattern() { Pattern? || InlinePattern? || (Dangling? && PatternFlag(flag)) }

    predicate MakesRecursive() { (Switch? || Valued? || Dangling?) && Recurses(flag) }
  }

  predicate Meant(args: seq<Arg>) {
    forall i :: 0 <= i < |args| ==> args[i].Valid() && (args[i].Dangling? ==> i == |args| - 1)
  }

  function PrintArgs(args: seq<Arg>): seq<string> {
    if args == [] then [] else args[0].Print() + PrintArgs(args[1..])
  }

  /** The pattern the last of the pattern flags gives. */
  function LastPattern(args: seq<Arg>): Option<string> {
    if args == [] then None
    else
      var last := args[|args| - 1];
      if last.Pattern? || last.InlinePattern? then Some(last.pattern)
      else if last.SetsPattern() then None
      else LastPattern(args[..|args| - 1])
  }

  function Positionals(args: seq<Arg>): seq<string> {
    if args == [] then []
    else
      var last := args[|args| - 1];
      Positionals(args[..|args| - 1]) + if last.Positional? then [last.text] else []
  }

  predicate AnyRecursive(args: seq<Arg>) { exists i :: 0 <= i < |args| && args[i].MakesRecursive() }

  /** What one more argument adds. */
  function Note(acc: Scan, arg: Arg): Scan {
    Scan(
      if arg.SetsPattern() then (if arg.Dangling? then None else Some(arg.pattern)) else acc.pattern,
      acc.positionals + if arg.Positional? then [arg.text] else [],
      acc.recursive || arg.MakesRecursive())
  }

  function NoteAll(acc: Scan, args: seq<Arg>): Scan
    decreases args
  {
    if args == [] then acc else NoteAll(Note(acc, args[0]), args[1..])
  }

  // ------------------------------------------------------------------ arguments are read

  lemma FlagsAgree(t: string)
    ensures IsFlag(t) <==> (IsLong(t) || IsShort(t))
    ensures WantsValue(t) <==> TakesValue(t)
    ensures Recurses(t) <==> MakesRecursive(t)
    ensures WantsValue(t) ==> IsFlag(t) && !PatternFlag(t) && !(REGEXP <= t)
    ensures PatternFlag(t) ==> !(REGEXP <= t)
  {
    if IsLong(t) {
      assert t == "--" + t[2..];
      assert "--recursive"[2..] == "recursive";
      assert REGEXP <= t ==> t[2] == 'r';
    }
  }

  lemma ArgIsRead(arg: Arg, rest: seq<string>, acc: Scan)
    requires arg.Valid() && (arg.Dangling? ==> rest == [])
    ensures ScanTokens(arg.Print() + rest, acc) == ScanTokens(rest, Note(acc, arg))
  {
    var tokens := arg.Print() + rest;
    FlagsAgree(tokens[0]);
    hide TakesValue, MakesRecursive, IsLong, IsShort, WantsValue, Recurses;
    assert |arg.Print()| == 1 ==> tokens[1..] == rest;
    assert |arg.Print()| == 2 ==> tokens[2..] == rest;
    if arg.InlinePattern? { assert tokens[0][|REGEXP|..] == arg.pattern; }
    assert acc.positionals + [] == acc.positionals;
  }

  lemma {:induction false} ArgsAreRead(args: seq<Arg>, acc: Scan)
    requires Meant(args)
    ensures ScanTokens(PrintArgs(args), acc) == NoteAll(acc, args)
    decreases args
  {
    if args == [] { return; }
    hide ScanTokens, Note;
    var arg, rest := args[0], args[1..];
    ArgIsRead(arg, PrintArgs(rest), acc);
    ArgsAreRead(rest, Note(acc, arg));
  }

  lemma {:induction false} NoteAllSnoc(acc: Scan, args: seq<Arg>, arg: Arg)
    ensures NoteAll(acc, args + [arg]) == Note(NoteAll(acc, args), arg)
    decreases args
  {
    hide Note;
    if args == [] {
      assert [] + [arg] == [arg] && [arg][1..] == [];
    } else {
      assert (args + [arg])[1..] == args[1..] + [arg];
      NoteAllSnoc(Note(acc, args[0]), args[1..], arg);
    }
  }

  lemma AnyRecursiveSnoc(args: seq<Arg>, arg: Arg)
    ensures AnyRecursive(args + [arg]) <==> AnyRecursive(args) || arg.MakesRecursive()
  {
    var all := args + [arg];
    if AnyRecursive(args) {
      var i :| 0 <= i < |args| && args[i].MakesRecursive();
      assert all[i] == args[i];
    }
    assert all[|args|] == arg;
  }

  /** What the scan gathers from arguments, told by the arguments alone. */
  lemma {:induction false} Gathered(args: seq<Arg>, recursive: bool)
    ensures NoteAll(Scan(None, [], recursive), args) == Scan(LastPattern(args), Positionals(args), recursive || AnyRecursive(args))
    decreases |args|
  {
    if args == [] { return; }
    var init, last := args[..|args| - 1], args[|args| - 1];
    assert args == init + [last];
    NoteAllSnoc(Scan(None, [], recursive), init, last);
    AnyRecursiveSnoc(init, last);
    hide NoteAll, AnyRecursive, Arg.MakesRecursive;
    Gathered(init, recursive);
  }

  // --------------------------------------------------------------------------- theorems

  ghost predicate IsTool(command: string) {
    ShellWords.IsPathTo(command, "rg") || IsGrepTool(command)
  }

  ghost predicate IsGrepTool(command: string) {
    || ShellWords.IsPathTo(command, "grep") || ShellWords.IsPathTo(command, "egrep") || ShellWords.IsPathTo(command, "fgrep")
  }

  lemma ToolsAgree(command: string)
    ensures IsRipgrep(command) <==> ShellWords.IsPathTo(command, "rg")
    ensures IsGrep(command) <==> IsGrepTool(command)
  {
    hide ShellWords.BaseName, ShellWords.IsPathTo;
    ShellWords.BaseNameIff(command, "rg");
    ShellWords.BaseNameIff(command, "grep");
    ShellWords.BaseNameIff(command, "egrep");
    ShellWords.BaseNameIff(command, "fgrep");
  }

  lemma ExtractedGathers(command: string, args: seq<Arg>)
    requires Meant(args)
    ensures Extracted([command] + PrintArgs(args)) ==
      Result(command, Scan(LastPattern(args), Positionals(args), IsRipgrep(command) || AnyRecursive(args)))
  {
    hide Result, IsRipgrep, LastPattern, Positionals, AnyRecursive;
    assert ([command] + PrintArgs(args))[1..] == PrintArgs(args);
    ArgsAreRead(args, Scan(None, [], IsRipgrep(command)));
    Gathered(args, IsRipgrep(command));
  }

  /** Whatever the order of flags, values, patterns and targets: a tool searches if it has a
      pattern, the last one a flag gives or else its first target, and then it looks in the
      next target; with no target left it searches only if it is recursive. */
  lemma SearchIsRead(command: string, args: seq<Arg>)
    requires Meant(args)
    ensures var search := Extracted([command] + PrintArgs(args));
            var given, targets := LastPattern(args), Positionals(args);
            var recursive := ShellWords.IsPathTo(command, "rg") || AnyRecursive(args);
            && (search.Some? <==>
                  && IsTool(command)
                  && |targets| >= (if given.Some? then 0 else 1)
                  && (recursive || |targets| >= (if given.Some? then 1 else 2)))
            && (search.Some? && given.Some? ==>
                  && search.value.pattern == given.value
                  && search.value.path == (if targets == [] then None else Some(targets[0])))
            && (search.Some? && given.None? ==>
                  && search.value.pattern == targets[0]
                  && search.value.path == (if |targets| == 1 then None else Some(targets[1])))
  {
    ExtractedGathers(command, args);
    ToolsAgree(command);
    hide PrintArgs, LastPattern, Positionals, AnyRecursive, IsRipgrep, IsGrep, IsGrepTool, ShellWords.IsPathTo, Extracted;
  }

  /** A plain `grep` with a pattern and no target filters its input: it is no search. */
  lemma FilterIsNoSearch(command: string, args: seq<Arg>)
    requires Meant(args) && !ShellWords.IsPathTo(command, "rg")
    ensures Extracted([command] + PrintArgs(args)) == None <==>
      || !IsGrepTool(command)
      || |Positionals(args)| + (if LastPattern(args).Some? then 1 else 0) == 0
      || (!AnyRecursive(args) && |Positionals(args)| + (if LastPattern(args).Some? then 1 else 0) == 1)
  {
    hide PrintArgs, LastPattern, Positionals, AnyRecursive, IsGrepTool, ShellWords.IsPathTo, Extracted;
    SearchIsRead(command, args);
  }

  lemma FirstArg(tokens: seq<string>) returns (arg: Arg, n: nat)
    requires tokens != []
    ensures 1 <= n <= |tokens| && arg.Valid() && arg.Print() == tokens[..n]
    ensures arg.Dangling? ==> n == |tokens|
  {
    var t := tokens[0];
    FlagsAgree(t);
    hide WantsValue, TakesValue;
    if PatternFlag(t) || WantsValue(t) {
      if |tokens| == 1 { return Dangling(t), 1; }
      return if PatternFlag(t) then Pattern(t, tokens[1]) else Valued(t, tokens[1]), 2;
    }
    if REGEXP <= t {
      assert t == "--regexp=" + t[|REGEXP|..];
      return InlinePattern(t[|REGEXP|..]), 1;
    }
    return if IsFlag(t) then Switch(t) else Positional(t), 1;
  }

  /** Every token list is the print of some arguments, so the two theorems are about every
      command there is. */
  lemma {:induction false} EveryTokensAreMeant(tokens: seq<string>) returns (args: seq<Arg>)
    ensures Meant(args) && PrintArgs(args) == tokens
    decreases |tokens|
  {
    if tokens == [] { return []; }
    hide Arg.Valid, Arg.Print;
    var arg, n := FirstArg(tokens);
    var more := EveryTokensAreMeant(tokens[n..]);
    if arg.Dangling? && more != [] { EmptyPrint(more); }
    args := [arg] + more;
    assert args[1..] == more && tokens == tokens[..n] + tokens[n..];
  }

  lemma EmptyPrint(args: seq<Arg>)
    requires args != []
    ensures PrintArgs(args) != []
  {
  }
}
