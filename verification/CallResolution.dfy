/** Which symbol a call edge resolves to, and the file pairs calls suppress: the queries of
    `remeasure-closing-review.py`. */
module CallResolution {
  import opened Wrappers

  datatype Symbol = Symbol(name: string, kind: string, owner: Option<string>, modulePath: Option<string>, file: int)

  datatype Edge = Edge(
    kind: string, from: Option<int>, toName: string, file: int,
    qualifier: Option<string>, receiverType: Option<string>, receiverCall: Option<string>)

  /** The four tables, keyed by row id; an import is a file and a path. */
  datatype Db = Db(
    symbols: map<int, Symbol>, edges: map<int, Edge>, imports: set<(int, string)>, files: map<int, string>)

  const CALLABLE_KINDS: set<string> := {"Function", "Method", "Struct", "Class", "Enum", "Actor"}

  // --------------------------------------------------------------------------- the tier

  predicate EndsWith(s: string, t: string) { |t| <= |s| && s[|s| - |t|..] == t }

  /** `path` names `name`, bare or behind a separator. */
  predicate Names(path: string, name: string) {
    path == name || EndsWith(path, "::" + name) || EndsWith(path, "." + name) || EndsWith(path, "\\" + name)
  }

  lemma EndsWithIff(s: string, t: string)
    ensures EndsWith(s, t) <==> exists front: string :: s == front + t
  {
    if EndsWith(s, t) { assert s == s[..|s| - |t|] + t; }
  }

  predicate Imported(db: Db, file: int, s: Symbol) {
    && s.modulePath.Some?
    && var path := s.modulePath.value;
       || (file, path) in db.imports
       || (file, path + "::" + s.name) in db.imports
       || (file, path + "." + s.name) in db.imports
  }

  predicate QualifierNamesOwner(e: Edge, s: Symbol) {
    e.qualifier.Some? && s.owner.Some? && Names(e.qualifier.value, s.owner.value)
  }

  predicate QualifierNamesModule(db: Db, e: Edge, s: Symbol) {
    && e.qualifier.Some? && s.modulePath.Some?
    && var q, path := e.qualifier.value, s.modulePath.value;
       path == q || ((EndsWith(path, "::" + q) || EndsWith(path, "." + q)) && Imported(db, e.file, s))
  }

  predicate ReceiverIsOwner(e: Edge, s: Symbol) {
    e.receiverType.Some? && s.owner.Some? && Names(s.owner.value, e.receiverType.value)
  }

  predicate Declared(db: Db, name: string) { exists o :: o in db.symbols && db.symbols[o].name == name }

  function Tier(db: Db, e: Edge, from: Symbol, s: Symbol): nat {
    if e.qualifier.Some? then
      if QualifierNamesOwner(e, s) then 1 else if QualifierNamesModule(db, e, s) then 2 else 3
    else if e.receiverType.Some? then
      if ReceiverIsOwner(e, s) then (if s.file == e.file then 1 else 2) else 3
    else if e.receiverCall.Some? && !Declared(db, e.receiverCall.value) then 3
    else if s.file == e.file then 4
    else if Imported(db, e.file, s) then 5
    else if s.modulePath.Some? && s.modulePath == from.modulePath then 6
    else 7
  }

  // ------------------------------------------------------------------------ the queries

  /** A call edge with its source symbol, joined to a callable symbol of the called name. */
  predicate IsCandidate(db: Db, r: int, s: int) {
    && r in db.edges && s in db.symbols
    && var e := db.edges[r];
       && e.kind == "Calls" && e.from.Some? && e.from.value in db.symbols
       && db.symbols[s].name == e.toName && db.symbols[s].kind in CALLABLE_KINDS
  }

  function TierOf(db: Db, r: int, s: int): nat
    requires IsCandidate(db, r, s)
  {
    var e := db.edges[r];
    Tier(db, e, db.symbols[e.from.value], db.symbols[s])
  }

  predicate Reaches(db: Db, r: int, tier: nat) {
    exists s :: s in db.symbols && IsCandidate(db, r, s) && TierOf(db, r, s) == tier
  }

  /** `MIN(tier) OVER (PARTITION BY edge)`. */
  function NearestFrom(db: Db, r: int, tier: nat): nat
    decreases 7 - tier
  {
    if tier >= 7 || Reaches(db, r, tier) then tier else NearestFrom(db, r, tier + 1)
  }

  function Nearest(db: Db, r: int): nat { NearestFrom(db, r, 1) }

  predicate IsResolved(db: Db, r: int, s: int) {
    IsCandidate(db, r, s) && TierOf(db, r, s) == Nearest(db, r) && Nearest(db, r) != 3
  }

  function Resolved(db: Db): set<(int, int)> {
    set r, s | r in db.edges && s in db.symbols && IsResolved(db, r, s) :: (r, s)
  }

  lemma {:induction false} NearestFromIsMin(db: Db, r: int, s: int, tier: nat)
    requires IsCandidate(db, r, s) && tier <= TierOf(db, r, s)
    ensures tier <= NearestFrom(db, r, tier) <= TierOf(db, r, s)
    ensures tier <= 7 && (forall c :: IsCandidate(db, r, c) ==> tier <= TierOf(db, r, c)) ==>
      Reaches(db, r, NearestFrom(db, r, tier))
    decreases 7 - tier
  {
    if !Reaches(db, r, tier) && tier < 7 { NearestFromIsMin(db, r, s, tier + 1); }
  }

  /** The window minimum: attained by a candidate, and below every other. */
  lemma NearestIsMin(db: Db, r: int, s: int)
    requires IsCandidate(db, r, s)
    ensures Nearest(db, r) <= TierOf(db, r, s) && Reaches(db, r, Nearest(db, r))
  {
    NearestFromIsMin(db, r, s, 1);
  }

  // --------------------------------------------------------------- what resolution means

  /** `path` is `name` behind something and that separator. */
  ghost predicate Behind(path: string, name: string, separator: string) {
    exists front: string :: path == front + (separator + name)
  }

  /** The name alone, or behind one of the three separators. */
  ghost predicate EndsInName(path: string, name: string) {
    path == name || Behind(path, name, "::") || Behind(path, name, ".") || Behind(path, name, "\\")
  }

  /** The file imports the module, or this symbol out of it. */
  ghost predicate ImportsFrom(db: Db, file: int, mod: string, name: string) {
    exists path :: (file, path) in db.imports
      && (path == mod || path == mod + "::" + name || path == mod + "." + name)
  }

  /** What the edge says about its target holds of `s`; an edge that says nothing fits all.
      A qualifier names the owner, or the module, whole or by its last part if the file imports
      it; a receiver type names the owner; a receiver call only has to be declared somewhere. */
  ghost predicate Fits(db: Db, e: Edge, s: Symbol) {
    if e.qualifier.Some? then
      || (s.owner.Some? && EndsInName(e.qualifier.value, s.owner.value))
      || (s.modulePath.Some? && s.modulePath.value == e.qualifier.value)
      || (s.modulePath.Some?
          && (Behind(s.modulePath.value, e.qualifier.value, "::") || Behind(s.modulePath.value, e.qualifier.value, "."))
          && ImportsFrom(db, e.file, s.modulePath.value, s.name))
    else if e.receiverType.Some? then s.owner.Some? && EndsInName(s.owner.value, e.receiverType.value)
    else e.receiverCall.Some? ==> exists o :: o in db.symbols && db.symbols[o].name == e.receiverCall.value
  }

  lemma NamesIff(path: string, name: string)
    ensures Names(path, name) <==> EndsInName(path, name)
  {
    hide EndsWith;
    EndsWithIff(path, "::" + name);
    EndsWithIff(path, "." + name);
    EndsWithIff(path, "\\" + name);
  }

  lemma ImportedIff(db: Db, file: int, s: Symbol)
    ensures Imported(db, file, s) <==> s.modulePath.Some? && ImportsFrom(db, file, s.modulePath.value, s.name)
  {
  }

  predicate Fitting(db: Db, e: Edge, s: Symbol) {
    if e.qualifier.Some? then QualifierNamesOwner(e, s) || QualifierNamesModule(db, e, s)
    else if e.receiverType.Some? then ReceiverIsOwner(e, s)
    else e.receiverCall.Some? ==> Declared(db, e.receiverCall.value)
  }

  lemma FitsIff(db: Db, e: Edge, s: Symbol)
    ensures Fits(db, e, s) <==> Fitting(db, e, s)
  {
    hide Names, EndsInName, EndsWith, Behind, Imported, ImportsFrom;
    ImportedIff(db, e.file, s);
    if e.qualifier.Some? && s.owner.Some? { NamesIff(e.qualifier.value, s.owner.value); }
    if e.receiverType.Some? && s.owner.Some? { NamesIff(s.owner.value, e.receiverType.value); }
    if e.qualifier.Some? && s.modulePath.Some? {
      BehindIff(s.modulePath.value, e.qualifier.value, "::");
      BehindIff(s.modulePath.value, e.qualifier.value, ".");
    }
  }

  lemma BehindIff(path: string, name: string, separator: string)
    ensures Behind(path, name, separator) <==> EndsWith(path, separator + name)
  {
    EndsWithIff(path, separator + name);
  }

  lemma FitsIffNotThree(db: Db, e: Edge, from: Symbol, s: Symbol)
    ensures Fits(db, e, s) <==> Tier(db, e, from, s) != 3
  {
    FitsIff(db, e, s);
    hide Fits, Names, Imported, EndsWith;
  }

  /** The resolved targets are exactly the candidates that fit and that no candidate beats;
      so all of one edge share its minimum tier. */
  lemma ResolvedAreTheNearestFits(db: Db, r: int, s: int)
    requires IsCandidate(db, r, s)
    ensures IsResolved(db, r, s) <==>
      && Fits(db, db.edges[r], db.symbols[s])
      && forall c :: IsCandidate(db, r, c) ==> TierOf(db, r, s) <= TierOf(db, r, c)
  {
    hide Fits;
    FitsIffNotThree(db, db.edges[r], db.symbols[db.edges[r].from.value], db.symbols[s]);
    NearestIsMin(db, r, s);
    if IsResolved(db, r, s) {
      forall c | IsCandidate(db, r, c) ensures TierOf(db, r, s) <= TierOf(db, r, c) { NearestIsMin(db, r, c); }
    }
  }

  /** The minimum is 3, and the edge is dropped, exactly when the edge says something that
      no candidate fits. */
  lemma DroppedIffNothingFits(db: Db, r: int, s: int)
    requires IsCandidate(db, r, s)
    ensures Nearest(db, r) == 3 <==> forall c :: IsCandidate(db, r, c) ==> !Fits(db, db.edges[r], db.symbols[c])
    ensures Nearest(db, r) == 3 <==> forall c :: !IsResolved(db, r, c)
  {
    hide Fits;
    NearestIsMin(db, r, s);
    var t :| t in db.symbols && IsCandidate(db, r, t) && TierOf(db, r, t) == Nearest(db, r);
    FitsIffNotThree(db, db.edges[r], db.symbols[db.edges[r].from.value], db.symbols[t]);
    forall c | IsCandidate(db, r, c)
      ensures Nearest(db, r) <= TierOf(db, r, c)
      ensures Fits(db, db.edges[r], db.symbols[c]) <==> TierOf(db, r, c) != 3
    {
      NearestIsMin(db, r, c);
      FitsIffNotThree(db, db.edges[r], db.symbols[db.edges[r].from.value], db.symbols[c]);
    }
    assert Nearest(db, r) != 3 ==> IsResolved(db, r, t);
  }

  /** What makes one fit nearer than another: for a qualifier, its owner over its module; for
      anything else the edge's own file, and then, if the edge says nothing, what the file
      imports, then what shares the caller's module. */
  predicate Nearer(db: Db, r: int, c: int, s: int)
    requires IsCandidate(db, r, c) && IsCandidate(db, r, s)
  {
    var e := db.edges[r];
    var from, t, u := db.symbols[e.from.value], db.symbols[c], db.symbols[s];
    if e.qualifier.Some? then QualifierNamesOwner(e, t) && !QualifierNamesOwner(e, u)
    else if t.file == e.file || u.file == e.file then t.file == e.file && u.file != e.file
    else if e.receiverType.Some? then false
    else if Imported(db, e.file, t) || Imported(db, e.file, u) then Imported(db, e.file, t) && !Imported(db, e.file, u)
    else t.modulePath.Some? && t.modulePath == from.modulePath && u.modulePath != from.modulePath
  }

  /** Among fitting candidates the tier is exactly this preference, so an edge resolves to
      a fit that no other fit is nearer than. */
  lemma TierIsPreference(db: Db, r: int, c: int, s: int)
    requires IsCandidate(db, r, c) && IsCandidate(db, r, s)
    requires Fits(db, db.edges[r], db.symbols[c]) && Fits(db, db.edges[r], db.symbols[s])
    ensures TierOf(db, r, c) < TierOf(db, r, s) <==> Nearer(db, r, c, s)
    ensures IsResolved(db, r, s) ==> !Nearer(db, r, c, s)
  {
    FitsIff(db, db.edges[r], db.symbols[c]);
    FitsIff(db, db.edges[r], db.symbols[s]);
    hide Fits, Names, Imported, EndsWith;
    NearestIsMin(db, r, c);
  }

  /** Tiers 1 and 2 are reached exactly by candidates that fit a qualifier or a receiver type. */
  lemma NearTiersNeedEvidence(db: Db, r: int, s: int)
    requires IsCandidate(db, r, s)
    ensures TierOf(db, r, s) <= 2 <==>
      (db.edges[r].qualifier.Some? || db.edges[r].receiverType.Some?) && Fits(db, db.edges[r], db.symbols[s])
  {
    FitsIff(db, db.edges[r], db.symbols[s]);
    hide Fits, Names, Imported, EndsWith;
  }

  /** A call edge with an indexed caller, and a callable symbol of the called name. */
  ghost predicate MayCall(db: Db, e: Edge, s: Symbol) {
    && e.kind == "Calls" && e.from.Some? && e.from.value in db.symbols && s.name == e.toName
    && s.kind in {"Function", "Method", "Struct", "Class", "Enum", "Actor"}
  }

  /** An edge resolves exactly when it may call something that fits, ... */
  lemma ResolvesIff(db: Db, r: int)
    requires r in db.edges
    ensures (exists s :: IsResolved(db, r, s)) <==>
      exists s :: s in db.symbols && MayCall(db, db.edges[r], db.symbols[s]) && Fits(db, db.edges[r], db.symbols[s])
  {
    hide Fits, Nearest, Tier;
    if exists s :: IsResolved(db, r, s) {
      var s :| IsResolved(db, r, s);
      ResolvedAreTheNearestFits(db, r, s);
    }
    if s :| s in db.symbols && MayCall(db, db.edges[r], db.symbols[s]) && Fits(db, db.edges[r], db.symbols[s]) {
      assert IsCandidate(db, r, s);
      DroppedIffNothingFits(db, r, s);
    }
  }

  /** ... and the count of resolved targets that it may not call is always zero. */
  lemma ResolvedAreCallable(db: Db)
    ensures forall t :: t in Resolved(db) ==>
      t.0 in db.edges && t.1 in db.symbols && MayCall(db, db.edges[t.0], db.symbols[t.1])
    ensures var callable := {"Function", "Method", "Struct", "Class", "Enum", "Actor"};
            |set t | t in Resolved(db) && db.symbols[t.1].kind !in callable| == 0
  {
    var callable := {"Function", "Method", "Struct", "Class", "Enum", "Actor"};
    assert (set t | t in Resolved(db) && db.symbols[t.1].kind !in callable) == {};
  }

  // ------------------------------------------------------------------- suppressed pairs

  /** SQLite's binary order on text. */
  predicate Less(a: string, b: string) {
    b != "" && (a == "" || a[0] < b[0] || (a[0] == b[0] && Less(a[1..], b[1..])))
  }

  lemma {:induction false} LessIsTotal(a: string, b: string)
    ensures a == b || Less(a, b) || Less(b, a)
    ensures !(Less(a, b) && Less(b, a))
    ensures Less(a, b) ==> a != b
    decreases a
  {
    if a != "" && b != "" && a[0] == b[0] {
      LessIsTotal(a[1..], b[1..]);
      assert a == [a[0]] + a[1..] && b == [b[0]] + b[1..];
    }
  }

  function PairOf(p: string, q: string): (string, string) { if Less(p, q) then (p, q) else (q, p) }

  lemma PairOfIsUnordered(p: string, q: string, p': string, q': string)
    ensures PairOf(p, q) == PairOf(q, p)
    ensures PairOf(p, q) == PairOf(p', q') <==> (p == p' && q == q') || (p == q' && q == p')
  {
    LessIsTotal(p, q);
    LessIsTotal(p', q');
  }

  predicate Suppresses(db: Db, r: int, s: int) {
    && IsResolved(db, r, s) && Nearest(db, r) <= 2
    && var f, t := db.symbols[db.edges[r].from.value].file, db.symbols[s].file;
       f in db.files && t in db.files && db.files[f] != db.files[t]
  }

  function PairFor(db: Db, r: int, s: int): (string, string)
    requires Suppresses(db, r, s)
  {
    PairOf(db.files[db.symbols[db.edges[r].from.value].file], db.files[db.symbols[s].file])
  }

  function Suppressed(db: Db): set<(string, string)> {
    set r, s | r in db.edges && s in db.symbols && Suppresses(db, r, s) :: PairFor(db, r, s)
  }

  function PairsOver(paths: set<string>): set<(string, string)> {
    set p, q | p in paths && q in paths && Less(p, q) :: (p, q)
  }

  function PairsWith(x: string, paths: set<string>): set<(string, string)> {
    set p | p in paths :: PairOf(x, p)
  }

  lemma {:induction false} PairsWithBound(x: string, paths: set<string>)
    ensures |PairsWith(x, paths)| <= |paths|
    decreases paths
  {
    if paths == {} {
      assert PairsWith(x, paths) == {};
    } else {
      var p :| p in paths;
      PairsWithBound(x, paths - {p});
      assert PairsWith(x, paths) == PairsWith(x, paths - {p}) + {PairOf(x, p)};
    }
  }

  lemma PairsOverSplit(x: string, rest: set<string>)
    ensures PairsOver(rest + {x}) <= PairsOver(rest) + PairsWith(x, rest)
  {
    forall pair | pair in PairsOver(rest + {x}) ensures pair in PairsOver(rest) + PairsWith(x, rest) {
      var (p, q) := pair;
      LessIsTotal(p, q);
      assert p == x ==> pair == PairOf(x, q);
      assert q == x ==> pair == PairOf(x, p);
    }
  }

  lemma {:induction false} PairsOverBound(paths: set<string>)
    ensures 2 * |PairsOver(paths)| <= |paths| * (|paths| - 1)
    decreases paths
  {
    if paths == {} {
      assert PairsOver(paths) == {};
      return;
    }
    hide PairsOver, PairsWith;
    var x :| x in paths;
    var rest := paths - {x};
    PairsOverBound(rest);
    PairsWithBound(x, rest);
    PairsOverSplit(x, rest);
    assert rest + {x} == paths;
    WithinUnion(PairsOver(paths), PairsOver(rest), PairsWith(x, rest));
    OneMore(|rest|, |PairsOver(rest)|, |PairsWith(x, rest)|);
  }

  lemma OneMore(m: nat, pairs: nat, more: nat)
    requires 2 * pairs <= m * (m - 1) && more <= m
    ensures 2 * (pairs + more) <= (m + 1) * m
  {
  }

  lemma Within<T>(a: set<T>, b: set<T>)
    requires a <= b
    ensures |a| <= |b|
  {
    assert b == a + (b - a);
  }

  function ImageOf<K, V>(m: map<K, V>, keys: set<K>): set<V>
    requires keys <= m.Keys
  {
    set k | k in keys :: m[k]
  }

  lemma {:induction false} ImageBound<K, V>(m: map<K, V>, keys: set<K>)
    requires keys <= m.Keys
    ensures |ImageOf(m, keys)| <= |keys|
    decreases keys
  {
    if keys == {} {
      assert ImageOf(m, keys) == {};
    } else {
      var k :| k in keys;
      ImageBound(m, keys - {k});
      assert ImageOf(m, keys) == ImageOf(m, keys - {k}) + {m[k]};
    }
  }

  lemma ValuesBound<K, V>(m: map<K, V>)
    ensures |m.Values| <= |m|
  {
    ImageBound(m, m.Keys);
    forall v | v in m.Values ensures v in ImageOf(m, m.Keys) {
      var k :| k in m && m[k] == v;
    }
    Within(m.Values, ImageOf(m, m.Keys));
  }

  lemma WithinUnion<T>(a: set<T>, b: set<T>, c: set<T>)
    requires a <= b + c
    ensures |a| <= |b| + |c|
  {
    Within(a, b + c);
  }

  lemma HalfProduct(m: nat, n: nat)
    requires m <= n
    ensures m * (m - 1) <= n * (n - 1)
    decreases n - m
  {
    if m < n { HalfProduct(m + 1, n); }
  }

  /** The suppressed pairs are unordered pairs of distinct indexed paths, so no more than
      the possible pairs reported beside them. */
  lemma SuppressedAtMostPossible(db: Db)
    ensures Suppressed(db) <= PairsOver(db.files.Values)
    ensures |Suppressed(db)| <= |db.files| * (|db.files| - 1) / 2
  {
    forall pair | pair in Suppressed(db) ensures pair in PairsOver(db.files.Values) {
      LessIsTotal(pair.0, pair.1);
    }
    Within(Suppressed(db), PairsOver(db.files.Values));
    PairsOverBound(db.files.Values);
    ValuesBound(db.files);
    HalfProduct(|db.files.Values|, |db.files|);
  }

  /** Behind each suppressed pair is a resolved edge with a qualifier or a receiver type
      that its target fits. */
  lemma SuppressedNeedEvidence(db: Db, pair: (string, string))
    requires pair in Suppressed(db)
    ensures exists r, s ::
      && Suppresses(db, r, s) && PairFor(db, r, s) == pair
      && (db.edges[r].qualifier.Some? || db.edges[r].receiverType.Some?)
      && Fits(db, db.edges[r], db.symbols[s])
  {
    var r, s :| r in db.edges && s in db.symbols && Suppresses(db, r, s) && PairFor(db, r, s) == pair;
    NearTiersNeedEvidence(db, r, s);
  }

  /** A resolved call with a qualifier or a receiver type, from a file at `p` to one at `q`. */
  predicate CallsAcross(db: Db, r: int, s: int, p: string, q: string) {
    && IsResolved(db, r, s)
    && (db.edges[r].qualifier.Some? || db.edges[r].receiverType.Some?)
    && var f, t := db.symbols[db.edges[r].from.value].file, db.symbols[s].file;
       f in db.files && t in db.files && db.files[f] == p && db.files[t] == q
  }

  /** A pair of distinct paths is suppressed exactly when such a call crosses between them, in
      either direction. */
  lemma SuppressedIff(db: Db, p: string, q: string)
    ensures PairOf(p, q) in Suppressed(db) <==> p != q && exists r, s :: CallsAcross(db, r, s, p, q) || CallsAcross(db, r, s, q, p)
  {
    if PairOf(p, q) in Suppressed(db) {
      SuppressedNeedEvidence(db, PairOf(p, q));
      var r, s :| Suppresses(db, r, s) && PairFor(db, r, s) == PairOf(p, q)
        && (db.edges[r].qualifier.Some? || db.edges[r].receiverType.Some?);
      var f, t := db.symbols[db.edges[r].from.value].file, db.symbols[s].file;
      PairOfIsUnordered(db.files[f], db.files[t], p, q);
      assert CallsAcross(db, r, s, p, q) || CallsAcross(db, r, s, q, p);
    }
    if p != q && exists r, s :: CallsAcross(db, r, s, p, q) || CallsAcross(db, r, s, q, p) {
      var r, s :| CallsAcross(db, r, s, p, q) || CallsAcross(db, r, s, q, p);
      ResolvedAreTheNearestFits(db, r, s);
      NearTiersNeedEvidence(db, r, s);
      assert Suppresses(db, r, s);
      PairOfIsUnordered(p, q, q, p);
    }
  }

  /** Reversing the calls between two files suppresses the same pair. */
  lemma DirectionIsIrrelevant(db: Db, r: int, s: int, r': int, s': int)
    requires Suppresses(db, r, s) && Suppresses(db, r', s')
    requires db.symbols[db.edges[r].from.value].file == db.symbols[s'].file
    requires db.symbols[db.edges[r'].from.value].file == db.symbols[s].file
    ensures PairFor(db, r, s) == PairFor(db, r', s')
  {
    var p, q := db.files[db.symbols[s'].file], db.files[db.symbols[s].file];
    PairOfIsUnordered(p, q, q, p);
  }
}
