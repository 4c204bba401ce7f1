/** Where a `.mdkb` store is anchored: the upward walks of `git.rs` and what they decide. */
module Anchoring {
  import opened Wrappers

  /** An absolute path as its components; the root is empty. */
  type Path = seq<string>

  /** What `dir/.git` is.  A file may hold the path a `gitdir:` line points to. */
  datatype DotGit = Missing | Directory | File(gitdir: Option<Path>) | OtherKind

  datatype Fs = Fs(git: Path -> DotGit, store: Path -> bool, children: Path -> seq<string>) {
    predicate HasGit(dir: Path) { git(dir) != Missing }

    predicate HoldsGitRepos(dir: Path) {
      exists i :: 0 <= i < |children(dir)| && HasGit(dir + [children(dir)[i]])
    }
  }

  function Parent(dir: Path): Option<Path> {
    if dir == [] then None else Some(dir[..|dir| - 1])
  }

  /** The main worktree that a `gitdir:` path of the shape `<main>/.git/worktrees/<name>` names. */
  function MainOf(gitdir: Path): Option<Path> {
    if |gitdir| >= 3 && gitdir[|gitdir| - 2] == "worktrees" && gitdir[|gitdir| - 3] == ".git"
    then Some(gitdir[..|gitdir| - 3])
    else None
  }

  /** `try_resolve`: the main root of a linked worktree. */
  function TryMain(fs: Fs, root: Path): Option<Path> {
    match fs.git(root)
    case File(Some(gitdir)) =>
      var main := MainOf(gitdir);
      if main.Some? && fs.git(main.value) == Directory then main else None
    case _ => None
  }

  function ResolveMainWorktree(fs: Fs, root: Path): Path {
    var main := TryMain(fs, root);
    if main.Some? then main.value else root
  }

  // ------------------------------------------------------------------------ the walks

  function FindGitRoot(fs: Fs, dir: Path): Option<Path>
    decreases |dir|
  {
    if fs.HasGit(dir) then Some(dir) else if dir == [] then None else FindGitRoot(fs, dir[..|dir| - 1])
  }

  function FindStoreWithin(fs: Fs, dir: Path, boundary: Path): Option<Path>
    decreases |dir|
  {
    if fs.store(dir) then Some(dir)
    else if dir == boundary || dir == [] then None
    else FindStoreWithin(fs, dir[..|dir| - 1], boundary)
  }

  predicate IsHomeOrAbove(dir: Path, home: Option<Path>) { home.Some? && dir <= home.value }

  predicate OverAnchors(fs: Fs, dir: Path, home: Option<Path>) {
    IsHomeOrAbove(dir, home) || fs.HoldsGitRepos(dir)
  }

  function FindProjectStoreAbove(fs: Fs, dir: Path, home: Option<Path>): Option<Path>
    decreases |dir|
  {
    if IsHomeOrAbove(dir, home) then None
    else if fs.store(dir) then (if fs.HoldsGitRepos(dir) then None else Some(dir))
    else if dir == [] then None
    else FindProjectStoreAbove(fs, dir[..|dir| - 1], home)
  }

  method FindGitRootLoop(fs: Fs, start: Path) returns (r: Option<Path>)
    ensures r == FindGitRoot(fs, start)
  {
    var current := Some(start);
    while current.Some?
      invariant current.Some? ==> FindGitRoot(fs, current.value) == FindGitRoot(fs, start)
      invariant current.None? ==> FindGitRoot(fs, start) == None
      decreases if current.Some? then |current.value| + 1 else 0
    {
      var dir := current.value;
      if fs.HasGit(dir) { return Some(dir); }
      current := Parent(dir);
    }
    return None;
  }

  method FindStoreWithinLoop(fs: Fs, start: Path, boundary: Path) returns (r: Option<Path>)
    ensures r == FindStoreWithin(fs, start, boundary)
  {
    var current := Some(start);
    while current.Some?
      invariant current.Some? ==> FindStoreWithin(fs, current.value, boundary) == FindStoreWithin(fs, start, boundary)
      invariant current.None? ==> FindStoreWithin(fs, start, boundary) == None
      decreases if current.Some? then |current.value| + 1 else 0
    {
      var dir := current.value;
      if fs.store(dir) { return Some(dir); }
      if dir == boundary { return None; }
      current := Parent(dir);
    }
    return None;
  }

  method FindProjectStoreAboveLoop(fs: Fs, start: Path, home: Option<Path>) returns (r: Option<Path>)
    ensures r == FindProjectStoreAbove(fs, start, home)
  {
    var current := Some(start);
    while current.Some?
      invariant current.Some? ==> FindProjectStoreAbove(fs, current.value, home) == FindProjectStoreAbove(fs, start, home)
      invariant current.None? ==> FindProjectStoreAbove(fs, start, home) == None
      decreases if current.Some? then |current.value| + 1 else 0
    {
      var dir := current.value;
      if IsHomeOrAbove(dir, home) { return None; }
      if fs.store(dir) {
        return if fs.HoldsGitRepos(dir) then None else Some(dir);
      }
      current := Parent(dir);
    }
    return None;
  }

  // ------------------------------------------------------------------- the resolution

  /** The anchor before any guard and before a linked worktree collapses to its main root. */
  function Candidate(fs: Fs, home: Option<Path>, cwd: Path, hint: Option<Path>): Path {
    match FindGitRoot(fs, cwd)
    case Some(root) =>
      var store := FindStoreWithin(fs, cwd, root);
      if store.Some? then store.value else root
    case None =>
      var store := FindProjectStoreAbove(fs, cwd, home);
      if store.Some? then store.value else if hint.Some? then hint.value else cwd
  }

  /** `resolve_project_root`. */
  function ResolveProjectRoot(fs: Fs, home: Option<Path>, cwd: Path, hint: Option<Path>): Option<Path> {
    var anchor := Candidate(fs, home, cwd, hint);
    if FindGitRoot(fs, cwd).None? && OverAnchors(fs, anchor, home) then None
    else Some(ResolveMainWorktree(fs, anchor))
  }

  /** `resolve_registrable_root`. */
  function ResolveRegistrableRoot(fs: Fs, home: Option<Path>, cwd: Path, hint: Option<Path>): Option<Path> {
    var root := ResolveProjectRoot(fs, home, cwd, hint);
    if root.Some? && (FindGitRoot(fs, root.value).Some? || fs.store(root.value)) then root else None
  }

  // ------------------------------------------------------------- what the walks find

  /** A directory above `dir` is `dir` itself or at or above its parent. */
  lemma PrefixStep(d: Path, dir: Path)
    requires d <= dir && d != dir
    ensures dir != [] && d <= dir[..|dir| - 1]
  {
    assert d == dir[..|d|] == dir[..|dir| - 1][..|d|];
  }

  /** Some directory on the way up has a `.git` of any kind. */
  ghost predicate InRepository(fs: Fs, dir: Path) { exists d: Path :: d <= dir && fs.git(d) != Missing }

  /** A store here would cover far more than one project: the home directory or one above it,
      or a directory with a child that has a `.git` of any kind. */
  ghost predicate TooWide(fs: Fs, dir: Path, home: Option<Path>) {
    || (home.Some? && dir <= home.value)
    || exists name :: name in fs.children(dir) && fs.git(dir + [name]) != Missing
  }

  lemma OverAnchorsIff(fs: Fs, dir: Path, home: Option<Path>)
    ensures OverAnchors(fs, dir, home) <==> TooWide(fs, dir, home)
  {
    if exists name :: name in fs.children(dir) && fs.git(dir + [name]) != Missing {
      var name :| name in fs.children(dir) && fs.git(dir + [name]) != Missing;
      var i :| 0 <= i < |fs.children(dir)| && fs.children(dir)[i] == name;
      assert fs.HasGit(dir + [fs.children(dir)[i]]);
    }
  }

  /** The store at `p` is the nearest one from `dir` upwards, and not too wide. */
  ghost predicate Adopted(fs: Fs, dir: Path, home: Option<Path>, p: Path) {
    && p <= dir && fs.store(p) && !TooWide(fs, p, home)
    && forall d: Path :: p < d <= dir ==> !fs.store(d)
  }

  /** The deepest directory on the way from `dir` to the root that has a `.git`. */
  lemma {:induction false} GitRootIsNearest(fs: Fs, dir: Path)
    ensures FindGitRoot(fs, dir).Some? ==>
      var root := FindGitRoot(fs, dir).value;
      root <= dir && fs.git(root) != Missing && forall d: Path :: root < d <= dir ==> fs.git(d) == Missing
    ensures FindGitRoot(fs, dir).None? <==> !InRepository(fs, dir)
    decreases |dir|
  {
    if fs.HasGit(dir) {
      assert fs.git(dir) != Missing;
    } else if dir == [] {
      forall d: Path | d <= dir ensures fs.git(d) == Missing { assert d == dir; }
    } else {
      var up := dir[..|dir| - 1];
      GitRootIsNearest(fs, up);
      forall d: Path | d <= dir && (FindGitRoot(fs, dir).Some? ==> FindGitRoot(fs, dir).value < d)
        ensures fs.git(d) == Missing
      {
        if d != dir { PrefixStep(d, dir); }
      }
    }
  }

  lemma {:induction false} StoreWithinIsNearest(fs: Fs, dir: Path, boundary: Path)
    requires boundary <= dir
    ensures var found := FindStoreWithin(fs, dir, boundary);
            && (found.Some? ==>
                  && boundary <= found.value <= dir && fs.store(found.value)
                  && forall d: Path :: found.value < d <= dir ==> !fs.store(d))
            && (found.None? ==> forall d: Path :: boundary <= d <= dir ==> !fs.store(d))
    decreases |dir|
  {
    if !fs.store(dir) && dir != boundary {
      var up := dir[..|dir| - 1];
      assert boundary <= up;
      StoreWithinIsNearest(fs, up, boundary);
      var found := FindStoreWithin(fs, dir, boundary);
      forall d: Path | d <= dir && (if found.Some? then found.value < d else boundary <= d)
        ensures !fs.store(d)
      {
        if d != dir { PrefixStep(d, dir); }
      }
    } else if !fs.store(dir) {
      forall d: Path | boundary <= d <= dir ensures !fs.store(d) { assert d == dir; }
    }
  }

  /** Outside a repository a store is adopted exactly when it is the nearest one above and
      does not over-anchor: a refused store also hides every store above it. */
  lemma {:induction false} ProjectStoreIsNearest(fs: Fs, dir: Path, home: Option<Path>, p: Path)
    ensures FindProjectStoreAbove(fs, dir, home) == Some(p) <==> Adopted(fs, dir, home, p)
    decreases |dir|
  {
    OverAnchorsIff(fs, p, home);
    hide TooWide;
    if IsHomeOrAbove(dir, home) {
      assert p <= dir ==> IsHomeOrAbove(p, home);
    } else if fs.store(dir) {
      assert p <= dir && p != dir ==> p < dir <= dir;
    } else if dir != [] {
      var up := dir[..|dir| - 1];
      ProjectStoreIsNearest(fs, up, home, p);
      assert p <= up ==> p <= dir;
      if p <= dir && p != dir { PrefixStep(p, dir); }
      forall d: Path | p < d <= dir && (forall e: Path :: p < e <= up ==> !fs.store(e)) ensures !fs.store(d) {
        if d != dir { PrefixStep(d, dir); }
      }
      assert forall d: Path :: p < d <= up && fs.store(d) ==> d <= dir;
    }
  }

  /** A root collapses exactly when its `.git` file points into the worktrees of a
      directory that has a `.git` directory. */
  lemma LinkedWorktreeIff(fs: Fs, root: Path, main: Path)
    ensures TryMain(fs, root) == Some(main) <==>
      && fs.git(main) == Directory
      && exists name :: fs.git(root) == File(Some(main + [".git", "worktrees", name]))
  {
    if TryMain(fs, root) == Some(main) {
      var gitdir := fs.git(root).gitdir.value;
      assert gitdir == main + [".git", "worktrees", gitdir[|gitdir| - 1]];
    }
    if exists name :: fs.git(root) == File(Some(main + [".git", "worktrees", name])) {
      var name :| fs.git(root) == File(Some(main + [".git", "worktrees", name]));
      var gitdir := main + [".git", "worktrees", name];
      assert gitdir[..|gitdir| - 3] == main;
    }
  }

  /** Inside a repository the anchor lies between its root and the working directory: the
      deepest store there, or the root itself when there is none. */
  lemma AnchorInsideRepository(fs: Fs, home: Option<Path>, cwd: Path, hint: Option<Path>)
    requires FindGitRoot(fs, cwd).Some?
    ensures var root, anchor := FindGitRoot(fs, cwd).value, Candidate(fs, home, cwd, hint);
            && root <= anchor <= cwd
            && (fs.store(anchor) || anchor == root)
            && (forall d: Path :: anchor < d <= cwd ==> !fs.store(d))
            && ResolveProjectRoot(fs, home, cwd, hint) == Some(ResolveMainWorktree(fs, anchor))
  {
    GitRootIsNearest(fs, cwd);
    StoreWithinIsNearest(fs, cwd, FindGitRoot(fs, cwd).value);
  }

  // -------------------------------------------------------------------- drift immunity

  lemma {:induction false} GitRootFromBetween(fs: Fs, cwd: Path, d: Path)
    requires d <= cwd
    ensures FindGitRoot(fs, cwd).Some? && FindGitRoot(fs, cwd).value <= d ==> FindGitRoot(fs, d) == FindGitRoot(fs, cwd)
    ensures FindGitRoot(fs, cwd).None? ==> FindGitRoot(fs, d).None?
    decreases |cwd|
  {
    if d != cwd && !fs.HasGit(cwd) {
      assert d <= cwd[..|cwd| - 1];
      GitRootFromBetween(fs, cwd[..|cwd| - 1], d);
    }
  }

  lemma {:induction false} StoreFromBetween(fs: Fs, cwd: Path, d: Path, boundary: Path)
    requires boundary <= d <= cwd
    ensures FindStoreWithin(fs, cwd, boundary).Some? && FindStoreWithin(fs, cwd, boundary).value <= d ==>
      FindStoreWithin(fs, d, boundary) == FindStoreWithin(fs, cwd, boundary)
    ensures FindStoreWithin(fs, cwd, boundary).None? ==> FindStoreWithin(fs, d, boundary).None?
    decreases |cwd|
  {
    if d != cwd && !fs.store(cwd) {
      assert cwd != boundary;
      assert d <= cwd[..|cwd| - 1];
      StoreFromBetween(fs, cwd[..|cwd| - 1], d, boundary);
    }
  }

  lemma {:induction false} ProjectStoreFromBetween(fs: Fs, cwd: Path, d: Path, home: Option<Path>)
    requires d <= cwd
    requires FindProjectStoreAbove(fs, cwd, home).Some? && FindProjectStoreAbove(fs, cwd, home).value <= d
    ensures FindProjectStoreAbove(fs, d, home) == FindProjectStoreAbove(fs, cwd, home)
    decreases |cwd|
  {
    if d != cwd && !fs.store(cwd) {
      assert d <= cwd[..|cwd| - 1];
      ProjectStoreFromBetween(fs, cwd[..|cwd| - 1], d, home);
    }
  }

  lemma {:induction false} ProjectStoreIsAbove(fs: Fs, cwd: Path, home: Option<Path>)
    ensures FindProjectStoreAbove(fs, cwd, home).Some? ==>
      var found := FindProjectStoreAbove(fs, cwd, home).value;
      found <= cwd && fs.store(found) && !OverAnchors(fs, found, home)
    decreases |cwd|
  {
    if cwd != [] { ProjectStoreIsAbove(fs, cwd[..|cwd| - 1], home); }
  }

  /** Without a hint, every directory between the anchor and the working directory
      resolves to the same root. */
  lemma DriftImmunity(fs: Fs, home: Option<Path>, cwd: Path, d: Path)
    requires Candidate(fs, home, cwd, None) <= d <= cwd
    ensures ResolveProjectRoot(fs, home, d, None) == ResolveProjectRoot(fs, home, cwd, None)
    ensures Candidate(fs, home, d, None) == Candidate(fs, home, cwd, None)
  {
    GitRootFromBetween(fs, cwd, d);
    match FindGitRoot(fs, cwd)
    case Some(root) =>
      GitRootIsNearest(fs, cwd);
      StoreWithinIsNearest(fs, cwd, root);
      StoreFromBetween(fs, cwd, d, root);
    case None =>
      if FindProjectStoreAbove(fs, cwd, home).Some? {
        ProjectStoreFromBetween(fs, cwd, d, home);
      } else {
        assert d == cwd;
      }
  }

  /** A repository root, or a main worktree, resolves to itself. */
  lemma DirectoryRootIsFixed(fs: Fs, home: Option<Path>, root: Path, hint: Option<Path>)
    requires fs.git(root) == Directory
    ensures ResolveProjectRoot(fs, home, root, hint) == Some(root)
  {
    assert FindGitRoot(fs, root) == Some(root);
  }

  /** A directory that is its own anchor: in a repository, its root or the holder of a store;
      outside, one with no adopted store above. */
  predicate AnchorsItself(fs: Fs, home: Option<Path>, dir: Path) {
    if FindGitRoot(fs, dir).Some? then fs.HasGit(dir) || fs.store(dir)
    else FindProjectStoreAbove(fs, dir, home) in {None, Some(dir)}
  }

  lemma AnchorsItselfIff(fs: Fs, home: Option<Path>, dir: Path)
    ensures AnchorsItself(fs, home, dir) <==> Candidate(fs, home, dir, None) == dir
  {
    if FindGitRoot(fs, dir).Some? {
      AnchorInsideRepository(fs, home, dir, None);
      GitRootIsNearest(fs, dir);
    }
  }

  lemma AnchorIsItsOwn(fs: Fs, home: Option<Path>, cwd: Path)
    requires ResolveProjectRoot(fs, home, cwd, None).Some?
    ensures var anchor := Candidate(fs, home, cwd, None);
            ResolveProjectRoot(fs, home, anchor, None) == ResolveProjectRoot(fs, home, cwd, None)
  {
    if FindGitRoot(fs, cwd).Some? { AnchorInsideRepository(fs, home, cwd, None); } else { ProjectStoreIsAbove(fs, cwd, home); }
    DriftImmunity(fs, home, cwd, Candidate(fs, home, cwd, None));
  }

  /** Resolving a resolved root returns it, also when a linked worktree collapsed to its
      main root.  The one exception is a root taken from a hint that is no linked worktree
      and has an anchor above it. */
  lemma ResolveIsIdempotentIff(fs: Fs, home: Option<Path>, cwd: Path, hint: Option<Path>)
    requires ResolveProjectRoot(fs, home, cwd, hint).Some?
    ensures var root := ResolveProjectRoot(fs, home, cwd, hint).value;
            ResolveProjectRoot(fs, home, root, None) == Some(root) <==>
              || hint.None? || FindGitRoot(fs, cwd).Some? || FindProjectStoreAbove(fs, cwd, home).Some?
              || TryMain(fs, hint.value).Some?
              || AnchorsItself(fs, home, hint.value)
  {
    var anchor := Candidate(fs, home, cwd, hint);
    if TryMain(fs, anchor).Some? {
      DirectoryRootIsFixed(fs, home, TryMain(fs, anchor).value, None);
      if FindGitRoot(fs, cwd).None? && FindProjectStoreAbove(fs, cwd, home).None? && hint.Some? { assert anchor == hint.value; }
    } else if hint.None? || FindGitRoot(fs, cwd).Some? || FindProjectStoreAbove(fs, cwd, home).Some? {
      assert anchor == Candidate(fs, home, cwd, None);
      AnchorIsItsOwn(fs, home, cwd);
    } else {
      HintIsFixedIff(fs, home, hint.value);
    }
  }

  /** A hint that does not collapse is its own root exactly when it anchors itself. */
  lemma HintIsFixedIff(fs: Fs, home: Option<Path>, hint: Path)
    requires TryMain(fs, hint).None? && !OverAnchors(fs, hint, home)
    ensures ResolveProjectRoot(fs, home, hint, None) == Some(hint) <==> AnchorsItself(fs, home, hint)
  {
    AnchorsItselfIff(fs, home, hint);
  }

  /** Without a hint it always holds. */
  lemma ResolveIsIdempotent(fs: Fs, home: Option<Path>, cwd: Path)
    requires ResolveProjectRoot(fs, home, cwd, None).Some?
    ensures var root := ResolveProjectRoot(fs, home, cwd, None).value;
            ResolveProjectRoot(fs, home, root, None) == Some(root)
  {
    ResolveIsIdempotentIff(fs, home, cwd, None);
  }

  /** All worktrees of a repository share one store: a linked worktree with no store of its
      own resolves to what its main worktree resolves to. */
  lemma WorktreesShareTheMainRoot(fs: Fs, home: Option<Path>, cwd: Path, hint: Option<Path>)
    requires FindGitRoot(fs, cwd).Some? && Candidate(fs, home, cwd, hint) == FindGitRoot(fs, cwd).value
    requires TryMain(fs, FindGitRoot(fs, cwd).value).Some?
    ensures var main := TryMain(fs, FindGitRoot(fs, cwd).value).value;
            ResolveProjectRoot(fs, home, cwd, hint) == Some(main) == ResolveProjectRoot(fs, home, main, hint)
  {
    DirectoryRootIsFixed(fs, home, TryMain(fs, FindGitRoot(fs, cwd).value).value, hint);
  }

  // ------------------------------------------------------------------- anchors outside

  /** `dir` is a linked worktree of `main`. */
  ghost predicate LinkedTo(fs: Fs, dir: Path, main: Path) {
    fs.git(main) == Directory && exists name :: fs.git(dir) == File(Some(main + [".git", "worktrees", name]))
  }

  /** Outside a repository an adopted store wins, as it is; then the hint, then the working
      directory, and of these one that is too wide is refused, and a linked worktree gives way
      to its main one. */
  lemma OutsidePriority(fs: Fs, home: Option<Path>, cwd: Path, hint: Option<Path>)
    requires !InRepository(fs, cwd)
    ensures var root, start := ResolveProjectRoot(fs, home, cwd, hint), if hint.Some? then hint.value else cwd;
            && (forall p :: Adopted(fs, cwd, home, p) ==> root == Some(p))
            && ((forall p :: !Adopted(fs, cwd, home, p)) ==>
                  && (root.None? <==> TooWide(fs, start, home))
                  && (root.Some? ==> LinkedTo(fs, start, root.value)
                                     || (root.value == start && forall main :: !LinkedTo(fs, start, main))))
  {
    GitRootIsNearest(fs, cwd);
    var root, start := ResolveProjectRoot(fs, home, cwd, hint), if hint.Some? then hint.value else cwd;
    AdoptedIff(fs, home, cwd);
    forall p | Adopted(fs, cwd, home, p) ensures root == Some(p) {
      ProjectStoreIsNearest(fs, cwd, home, p);
      OverAnchorsIff(fs, p, home);
      assert fs.git(p) == Missing;
    }
    OverAnchorsIff(fs, start, home);
    forall main ensures TryMain(fs, start) == Some(main) <==> LinkedTo(fs, start, main) {
      LinkedWorktreeIff(fs, start, main);
    }
  }

  lemma AdoptedIff(fs: Fs, home: Option<Path>, cwd: Path)
    ensures FindProjectStoreAbove(fs, cwd, home).Some? <==> exists p :: Adopted(fs, cwd, home, p)
  {
    hide FindProjectStoreAbove, Adopted;
    if FindProjectStoreAbove(fs, cwd, home).Some? { ProjectStoreIsNearest(fs, cwd, home, FindProjectStoreAbove(fs, cwd, home).value); }
    if exists p :: Adopted(fs, cwd, home, p) {
      var p :| Adopted(fs, cwd, home, p);
      ProjectStoreIsNearest(fs, cwd, home, p);
    }
  }

  lemma SameMain(a: Path, b: Path, one: string, other: string)
    requires a + [".git", "worktrees", one] == b + [".git", "worktrees", other]
    ensures a == b
  {
    var whole := a + [".git", "worktrees", one];
    assert a == whole[..|whole| - 3] == b;
  }

  /** Outside a repository a returned anchor is too wide exactly when it is the main root,
      too wide itself, of a linked worktree that the hint named and the guard passed. */
  lemma OutsideAnchorGuard(fs: Fs, home: Option<Path>, cwd: Path, hint: Option<Path>)
    requires !InRepository(fs, cwd) && ResolveProjectRoot(fs, home, cwd, hint).Some?
    ensures var root := ResolveProjectRoot(fs, home, cwd, hint).value;
            TooWide(fs, root, home) <==>
              && (forall p :: !Adopted(fs, cwd, home, p))
              && hint.Some? && exists main :: LinkedTo(fs, hint.value, main) && TooWide(fs, main, home)
  {
    OutsidePriority(fs, home, cwd, hint);
    assert fs.git(cwd) == Missing;
    hide ResolveProjectRoot, TooWide;
    var root := ResolveProjectRoot(fs, home, cwd, hint).value;
    forall main | hint.Some? && LinkedTo(fs, hint.value, main) && (forall p :: !Adopted(fs, cwd, home, p)) ensures main == root {
      var one :| fs.git(hint.value) == File(Some(main + [".git", "worktrees", one]));
      var other :| fs.git(hint.value) == File(Some(root + [".git", "worktrees", other]));
      SameMain(main, root, one, other);
    }
    forall p | Adopted(fs, cwd, home, p) ensures !TooWide(fs, root, home) {
      assert root == p;
    }
  }

  /** Hence with no hint, or a hint that is not a linked worktree, never. */
  lemma OutsideAnchorNeverTooWide(fs: Fs, home: Option<Path>, cwd: Path, hint: Option<Path>)
    requires !InRepository(fs, cwd)
    requires hint.Some? ==> forall main :: !LinkedTo(fs, hint.value, main)
    ensures ResolveProjectRoot(fs, home, cwd, hint).Some? ==>
      !TooWide(fs, ResolveProjectRoot(fs, home, cwd, hint).value, home)
  {
    hide ResolveProjectRoot, TooWide;
    if ResolveProjectRoot(fs, home, cwd, hint).Some? { OutsideAnchorGuard(fs, home, cwd, hint); }
  }

  /** The guard looks at the hint, not at where it collapses to: a linked worktree of a
      repository that holds another repository. */
  lemma HintedWorktreeCanBeTooWide()
    ensures exists fs: Fs, cwd: Path, hint: Path ::
      && !InRepository(fs, cwd)
      && ResolveProjectRoot(fs, None, cwd, Some(hint)).Some?
      && TooWide(fs, ResolveProjectRoot(fs, None, cwd, Some(hint)).value, None)
  {
    var main, linked, cwd: Path := ["main"], ["linked"], ["work"];
    var gitdir := ["main", ".git", "worktrees", "linked"];
    var git := (p: Path) =>
      if p == linked then File(Some(gitdir))
      else if p == main || p == ["main", "vendored"] then Directory
      else Missing;
    var children := (p: Path) => if p == main then ["vendored"] else [];
    var fs := Fs(git, p => false, children);
    assert gitdir[..1] == main;
    assert TryMain(fs, linked) == Some(main);
    assert fs.children(main) == ["vendored"] && main + ["vendored"] == ["main", "vendored"];
    assert fs.HasGit(main + [fs.children(main)[0]]);
    assert fs.HoldsGitRepos(main);
    assert cwd[..0] == [];
    assert FindGitRoot(fs, []) == None;
    assert FindGitRoot(fs, cwd) == None;
    assert FindProjectStoreAbove(fs, [], None) == None;
    assert FindProjectStoreAbove(fs, cwd, None) == None;
    assert fs.children(linked) == [];
    assert ResolveProjectRoot(fs, None, cwd, Some(linked)) == Some(main);
    GitRootIsNearest(fs, cwd);
    OverAnchorsIff(fs, main, None);
  }

  // -------------------------------------------------------------------- registration

  /** A root is registered exactly when the working directory is in a repository or below an
      adopted store, or the hint passes the guard and is in a repository or holds a store.
      It is then the project root, and a project: in a repository or holding a store. */
  lemma RegistersExactlyProjects(fs: Fs, home: Option<Path>, cwd: Path, hint: Option<Path>)
    ensures var root := ResolveRegistrableRoot(fs, home, cwd, hint);
            && (root.Some? <==>
                  || InRepository(fs, cwd)
                  || (exists p :: Adopted(fs, cwd, home, p))
                  || (hint.Some? && !TooWide(fs, hint.value, home)
                      && (InRepository(fs, hint.value) || fs.store(hint.value))))
            && (root.Some? ==>
                  && root == ResolveProjectRoot(fs, home, cwd, hint)
                  && (InRepository(fs, root.value) || fs.store(root.value)))
  {
    GitRootIsNearest(fs, cwd);
    if FindGitRoot(fs, cwd).Some? {
      RegisteredInside(fs, home, cwd, hint);
    } else if exists p :: Adopted(fs, cwd, home, p) {
      var p :| Adopted(fs, cwd, home, p);
      OutsidePriority(fs, home, cwd, hint);
      GitRootIsNearest(fs, p);
    } else {
      RegisteredByStart(fs, home, cwd, hint);
    }
  }

  lemma RegisteredInside(fs: Fs, home: Option<Path>, cwd: Path, hint: Option<Path>)
    requires FindGitRoot(fs, cwd).Some?
    ensures var root := ResolveRegistrableRoot(fs, home, cwd, hint);
            root.Some? && root == ResolveProjectRoot(fs, home, cwd, hint) && InRepository(fs, root.value)
  {
    var anchor := Candidate(fs, home, cwd, hint);
    AnchorInsideRepository(fs, home, cwd, hint);
    GitRootFromBetween(fs, cwd, anchor);
    GitRootIsNearest(fs, anchor);
    if TryMain(fs, anchor).Some? {
      var main := TryMain(fs, anchor).value;
      assert fs.git(main) == Directory;
      GitRootIsNearest(fs, main);
    }
  }

  lemma RegisteredByStart(fs: Fs, home: Option<Path>, cwd: Path, hint: Option<Path>)
    requires !InRepository(fs, cwd) && forall p :: !Adopted(fs, cwd, home, p)
    ensures var root := ResolveRegistrableRoot(fs, home, cwd, hint);
            && (root.Some? <==>
                  hint.Some? && !TooWide(fs, hint.value, home) && (InRepository(fs, hint.value) || fs.store(hint.value)))
            && (root.Some? ==>
                  && root == ResolveProjectRoot(fs, home, cwd, hint)
                  && (InRepository(fs, root.value) || fs.store(root.value)))
  {
    OutsidePriority(fs, home, cwd, hint);
    var root, start := ResolveProjectRoot(fs, home, cwd, hint), if hint.Some? then hint.value else cwd;
    hide ResolveProjectRoot, TooWide;
    GitRootIsNearest(fs, start);
    if root.Some? {
      GitRootIsNearest(fs, root.value);
      if LinkedTo(fs, start, root.value) {
        assert fs.git(root.value) != Missing && fs.git(start) != Missing;
      }
      assert hint.None? && fs.store(cwd) ==> Adopted(fs, cwd, home, cwd);
    }
  }

  /** Without a hint: only in a repository or below an adopted store, never the bare working
      directory. */
  lemma RegistersOnlyProjects(fs: Fs, home: Option<Path>, cwd: Path)
    ensures ResolveRegistrableRoot(fs, home, cwd, None) ==
      if InRepository(fs, cwd) || exists p :: Adopted(fs, cwd, home, p)
      then ResolveProjectRoot(fs, home, cwd, None)
      else None
  {
    hide ResolveProjectRoot, ResolveRegistrableRoot, InRepository, Adopted;
    RegistersExactlyProjects(fs, home, cwd, None);
  }

  // ------------------------------------------------------------------ ancestor stores

  /** Every store strictly above `dir`, nearest first. */
  function StoresAbove(fs: Fs, dir: Path): seq<Path>
    decreases |dir|
  {
    if dir == [] then []
    else
      var up := dir[..|dir| - 1];
      (if fs.store(up) then [up] else []) + StoresAbove(fs, up)
  }

  /** The stores from `current` on upwards, itself included. */
  function StoresFrom(fs: Fs, current: Option<Path>): seq<Path> {
    if current.None? then []
    else (if fs.store(current.value) then [current.value] else []) + StoresAbove(fs, current.value)
  }

  lemma StoresFromParent(fs: Fs, dir: Path)
    ensures StoresFrom(fs, Parent(dir)) == StoresAbove(fs, dir)
  {
  }

  /** `discover_ancestor_stores` returns the first `maxDepth` of them. */
  method DiscoverAncestorStores(fs: Fs, primary: Path, maxDepth: nat) returns (ancestors: seq<Path>)
    ensures ancestors <= StoresAbove(fs, primary)
    ensures |ancestors| == if |StoresAbove(fs, primary)| < maxDepth then |StoresAbove(fs, primary)| else maxDepth
  {
    hide StoresAbove;
    ancestors := [];
    var current := Parent(primary);
    StoresFromParent(fs, primary);
    while current.Some?
      invariant |ancestors| <= maxDepth
      invariant StoresAbove(fs, primary) == ancestors + StoresFrom(fs, current)
      decreases if current.Some? then |current.value| + 1 else 0
    {
      var dir := current.value;
      if |ancestors| >= maxDepth { break; }
      if fs.store(dir) { ancestors := ancestors + [dir]; }
      current := Parent(dir);
      StoresFromParent(fs, dir);
    }
  }

  /** The listing holds exactly the stores strictly above, ... */
  lemma {:induction false} StoresAboveAreTheAncestors(fs: Fs, dir: Path, p: Path)
    ensures p in StoresAbove(fs, dir) <==> p < dir && fs.store(p)
    decreases |dir|
  {
    if dir != [] {
      var up := dir[..|dir| - 1];
      StoresAboveAreTheAncestors(fs, up, p);
      if p < dir {
        PrefixStep(p, dir);
        assert p < up || p == up;
      }
      assert p in StoresAbove(fs, dir) <==> (p == up && fs.store(up)) || p in StoresAbove(fs, up);
    }
  }

  /** ... the nearest first. */
  lemma {:induction false} StoresAboveNearestFirst(fs: Fs, dir: Path, i: nat, j: nat)
    requires i < j < |StoresAbove(fs, dir)|
    ensures StoresAbove(fs, dir)[j] < StoresAbove(fs, dir)[i]
    decreases |dir|
  {
    var up := dir[..|dir| - 1];
    var rest := StoresAbove(fs, up);
    if !fs.store(up) {
      StoresAboveNearestFirst(fs, up, i, j);
    } else if i > 0 {
      StoresAboveNearestFirst(fs, up, i - 1, j - 1);
    } else {
      assert StoresAbove(fs, dir)[j] == rest[j - 1];
      StoresAboveAreTheAncestors(fs, up, rest[j - 1]);
    }
  }
}
