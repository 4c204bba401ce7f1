/** Keys of a configuration file that the schema does not know. */
module UnknownKeys {
  import opened Wrappers

  datatype Toml = Leaf | Table(entries: seq<Entry>)

  datatype Entry = Entry(key: string, value: Toml)

  type Path = seq<string>

  function Get(entries: seq<Entry>, key: string): Option<Toml> {
    if entries == [] then None
    else if entries[0].key == key then Some(entries[0].value)
    else Get(entries[1..], key)
  }

  /** A table has one entry per key, at every level. */
  predicate WellFormed(entries: seq<Entry>) {
    && (forall i, j :: 0 <= i < j < |entries| ==> entries[i].key != entries[j].key)
    && (forall i :: 0 <= i < |entries| && entries[i].value.Table? ==> WellFormed(entries[i].value.entries))
  }

  // ---------------------------------------------------- the reference: walks and leaves

  /** `path` leads to a value or to an empty table. */
  predicate IsLeafPath(entries: seq<Entry>, path: Path)
    decreases |path|
  {
    && path != []
    && Get(entries, path[0]).Some?
    && var value := Get(entries, path[0]).value;
       if value.Leaf? || value.entries == [] then |path| == 1
       else IsLeafPath(value.entries, path[1..])
  }

  /** Walking the schema along `path`, table by table, reaches a key it does not have. */
  predicate LeavesSchema(schema: seq<Entry>, path: Path)
    decreases |path|
  {
    && path != []
    && match Get(schema, path[0])
       case None => true
       case Some(Leaf) => false
       case Some(Table(known)) => LeavesSchema(known, path[1..])
  }

  /** `more` knows every key `less` knows, table for table; turning a known table into a
      value also counts, since nothing under a value is ever reported. */
  predicate Enlarges(less: seq<Entry>, more: seq<Entry>)
    decreases less
  {
    forall i :: 0 <= i < |less| ==>
      && Get(more, less[i].key).Some?
      && var wider := Get(more, less[i].key).value;
         wider.Leaf? || (less[i].value.Table? && Enlarges(less[i].value.entries, wider.entries))
  }

  // ---------------------------------------------------------------- the two recursions

  function Prepend(key: string, paths: seq<Path>): seq<Path> {
    seq(|paths|, i requires 0 <= i < |paths| => [key] + paths[i])
  }

  /** Paths reported by `collect_unknown_table`. */
  function LeafPaths(entries: seq<Entry>): seq<Path>
    decreases entries
  {
    if entries == [] then [] else LeafPathsAt(entries[0]) + LeafPaths(entries[1..])
  }

  function LeafPathsAt(e: Entry): seq<Path>
    decreases e
  {
    if e.value.Table? && e.value.entries != [] then Prepend(e.key, LeafPaths(e.value.entries)) else [[e.key]]
  }

  /** Paths reported by `collect_unknown_keys`. */
  function Reported(raw: seq<Entry>, schema: seq<Entry>): seq<Path>
    decreases raw
  {
    if raw == [] then [] else ReportedAt(raw[0], schema) + Reported(raw[1..], schema)
  }

  function ReportedAt(e: Entry, schema: seq<Entry>): seq<Path>
    decreases e
  {
    match Get(schema, e.key)
    case None => LeafPathsAt(e)
    case Some(Table(known)) => if e.value.Table? then Prepend(e.key, Reported(e.value.entries, known)) else []
    case Some(Leaf) => []
  }

  // ------------------------------------------------------------ soundness, completeness

  predicate Distinct(paths: seq<Path>) {
    forall i, j :: 0 <= i < j < |paths| ==> paths[i] != paths[j]
  }

  lemma {:induction false} GetFinds(entries: seq<Entry>, key: string)
    ensures Get(entries, key).Some? ==>
      exists i :: 0 <= i < |entries| && entries[i].key == key && Get(entries, key).value == entries[i].value
    ensures (exists i :: 0 <= i < |entries| && entries[i].key == key) ==> Get(entries, key).Some?
    decreases entries
  {
    if entries != [] && entries[0].key != key {
      GetFinds(entries[1..], key);
      if Get(entries[1..], key).Some? {
        var i :| 0 <= i < |entries[1..]| && entries[1..][i].key == key && Get(entries, key).value == entries[1..][i].value;
        assert entries[i + 1] == entries[1..][i];
      }
      if exists i :: 0 <= i < |entries| && entries[i].key == key {
        var i :| 0 <= i < |entries| && entries[i].key == key;
        assert entries[1..][i - 1] == entries[i];
      }
    }
  }

  lemma TailWellFormed(entries: seq<Entry>)
    requires WellFormed(entries) && entries != []
    ensures WellFormed(entries[1..]) && Get(entries[1..], entries[0].key).None?
    ensures entries[0].value.Table? ==> WellFormed(entries[0].value.entries)
  {
    var tail := entries[1..];
    assert forall i :: 0 <= i < |tail| ==> tail[i] == entries[i + 1];
    GetFinds(tail, entries[0].key);
  }

  lemma PrependMembers(key: string, paths: seq<Path>, path: Path)
    ensures path in Prepend(key, paths) <==> path != [] && path[0] == key && path[1..] in paths
    ensures Distinct(paths) ==> Distinct(Prepend(key, paths))
  {
    var all := Prepend(key, paths);
    if path in all {
      var i :| 0 <= i < |all| && all[i] == path;
      assert path[1..] == paths[i];
    }
    if path != [] && path[0] == key && path[1..] in paths {
      var i :| 0 <= i < |paths| && paths[i] == path[1..];
      assert all[i] == path;
    }
    if Distinct(paths) {
      forall i, j | 0 <= i < j < |all| ensures all[i] != all[j] {
        assert all[i][1..] == paths[i] && all[j][1..] == paths[j];
      }
    }
  }

  lemma JoinDistinct(key: string, head: seq<Path>, tail: seq<Path>)
    requires Distinct(head) && Distinct(tail)
    requires forall p :: p in head ==> p != [] && p[0] == key
    requires forall p :: p in tail ==> p != [] && p[0] != key
    ensures Distinct(head + tail)
  {
    var all := head + tail;
    forall i, j | 0 <= i < j < |all| ensures all[i] != all[j] {
      if i < |head| <= j { assert all[i] in head && all[j] in tail; }
    }
  }

  lemma {:induction false} LeafPathsAreTheLeaves(entries: seq<Entry>, path: Path)
    requires WellFormed(entries)
    ensures path in LeafPaths(entries) <==> IsLeafPath(entries, path)
    decreases entries
  {
    if entries != [] {
      var e, tail := entries[0], entries[1..];
      TailWellFormed(entries);
      LeafPathsAreTheLeaves(tail, path);
      assert path != [] && |path| == 1 && path[0] == e.key ==> path == [e.key];
      if e.value.Table? && e.value.entries != [] {
        PrependMembers(e.key, LeafPaths(e.value.entries), path);
        if path != [] { LeafPathsAreTheLeaves(e.value.entries, path[1..]); }
      }
    }
  }

  lemma {:induction false} LeafPathsDistinct(entries: seq<Entry>)
    requires WellFormed(entries)
    ensures Distinct(LeafPaths(entries))
    decreases entries
  {
    if entries != [] {
      var e, tail := entries[0], entries[1..];
      TailWellFormed(entries);
      LeafPathsDistinct(tail);
      var head := LeafPathsAt(e);
      if e.value.Table? && e.value.entries != [] {
        LeafPathsDistinct(e.value.entries);
        PrependMembers(e.key, LeafPaths(e.value.entries), []);
      }
      forall p | p in LeafPaths(tail) ensures p != [] && p[0] != e.key { LeafPathsAreTheLeaves(tail, p); }
      JoinDistinct(e.key, head, LeafPaths(tail));
    }
  }

  /** The report is sound and complete: a path is reported exactly when it is a leaf of the
      user's tree and walking the schema along it leaves the schema. */
  lemma {:induction false} ReportedIffUnknownLeaf(raw: seq<Entry>, schema: seq<Entry>, path: Path)
    requires WellFormed(raw)
    ensures path in Reported(raw, schema) <==> IsLeafPath(raw, path) && LeavesSchema(schema, path)
    decreases raw
  {
    if raw != [] {
      TailWellFormed(raw);
      ReportedIffUnknownLeaf(raw[1..], schema, path);
      ReportedAtIff(raw[0], schema, path);
    }
  }

  lemma {:induction false} ReportedAtIff(e: Entry, schema: seq<Entry>, path: Path)
    requires e.value.Table? ==> WellFormed(e.value.entries)
    ensures path in ReportedAt(e, schema) <==>
      && path != [] && path[0] == e.key
      && (if e.value.Leaf? || e.value.entries == [] then |path| == 1 else IsLeafPath(e.value.entries, path[1..]))
      && LeavesSchema(schema, path)
    decreases e
  {
    var known := Get(schema, e.key);
    assert path != [] && |path| == 1 && path[0] == e.key ==> path == [e.key];
    if e.value.Table? {
      PrependMembers(e.key, LeafPaths(e.value.entries), path);
      if path != [] { LeafPathsAreTheLeaves(e.value.entries, path[1..]); }
      if known.Some? && known.value.Table? {
        PrependMembers(e.key, Reported(e.value.entries, known.value.entries), path);
        if path != [] { ReportedIffUnknownLeaf(e.value.entries, known.value.entries, path[1..]); }
      }
    }
  }

  /** No path is reported twice. */
  lemma {:induction false} ReportedOnce(raw: seq<Entry>, schema: seq<Entry>)
    requires WellFormed(raw)
    ensures Distinct(Reported(raw, schema))
    decreases raw
  {
    if raw != [] {
      var e, tail := raw[0], raw[1..];
      TailWellFormed(raw);
      ReportedOnce(tail, schema);
      var known := Get(schema, e.key);
      if known.None? && e.value.Table? {
        LeafPathsDistinct(e.value.entries);
        PrependMembers(e.key, LeafPaths(e.value.entries), []);
      }
      if known.Some? && known.value.Table? && e.value.Table? {
        ReportedOnce(e.value.entries, known.value.entries);
        PrependMembers(e.key, Reported(e.value.entries, known.value.entries), []);
      }
      forall p | p in ReportedAt(e, schema) ensures p != [] && p[0] == e.key { ReportedAtIff(e, schema, p); }
      forall p | p in Reported(tail, schema) ensures p != [] && p[0] != e.key { ReportedIffUnknownLeaf(tail, schema, p); }
      JoinDistinct(e.key, ReportedAt(e, schema), Reported(tail, schema));
    }
  }

  lemma {:induction false} EnlargedKeepsKnown(less: seq<Entry>, more: seq<Entry>, path: Path)
    requires Enlarges(less, more) && LeavesSchema(more, path)
    ensures LeavesSchema(less, path)
    decreases |path|
  {
    GetFinds(less, path[0]);
    if Get(less, path[0]).Some? {
      var i :| 0 <= i < |less| && less[i].key == path[0] && Get(less, path[0]).value == less[i].value;
      var wider := Get(more, less[i].key).value;
      EnlargedKeepsKnown(less[i].value.entries, wider.entries, path[1..]);
    }
  }

  /** Enlarging the schema can only remove reports. */
  lemma EnlargingOnlyRemoves(raw: seq<Entry>, less: seq<Entry>, more: seq<Entry>, path: Path)
    requires WellFormed(raw) && Enlarges(less, more) && path in Reported(raw, more)
    ensures path in Reported(raw, less)
  {
    ReportedIffUnknownLeaf(raw, more, path);
    ReportedIffUnknownLeaf(raw, less, path);
    EnlargedKeepsKnown(less, more, path);
  }

  // ------------------------------------------------------------------ dotted rendering

  function Dotted(path: Path): string
    requires path != []
  {
    if |path| == 1 then path[0] else path[0] + "." + Dotted(path[1..])
  }

  /** `path` as far as it is printed: the empty key of a schema table leaves an empty prefix,
      which the next level takes for the top level. */
  function Kept(path: Path, schema: seq<Entry>): (kept: Path)
    requires path != []
    ensures kept != []
    decreases |path|
  {
    if |path| > 1 && path[0] == "" && Get(schema, "").Some? && Get(schema, "").value.Table?
    then Kept(path[1..], Get(schema, "").value.entries)
    else path
  }

  /** `key` printed below `prefix`; the top level has the empty prefix. */
  function Joined(prefix: string, key: string): string { if prefix == "" then key else prefix + "." + key }

  /** A reported path printed below `prefix`, at the level where `schema` holds. */
  function TextOf(prefix: string, path: Path, schema: seq<Entry>): string
    requires path != []
  {
    if prefix == "" then Dotted(Kept(path, schema)) else prefix + "." + Dotted(path)
  }

  predicate NonEmptyPaths(paths: seq<Path>) { forall i :: 0 <= i < |paths| ==> paths[i] != [] }

  function Texts(prefix: string, paths: seq<Path>, schema: seq<Entry>): seq<string>
    requires NonEmptyPaths(paths)
  {
    seq(|paths|, i requires 0 <= i < |paths| => TextOf(prefix, paths[i], schema))
  }

  /** What `collect_unknown_table` prints: always `prefix.`, even under an empty prefix. */
  function TableTexts(prefix: string, paths: seq<Path>): seq<string>
    requires NonEmptyPaths(paths)
  {
    seq(|paths|, i requires 0 <= i < |paths| => prefix + "." + Dotted(paths[i]))
  }

  /** No table of the schema has an empty key. */
  predicate NamedKeys(schema: seq<Entry>) {
    forall i :: 0 <= i < |schema| ==>
      schema[i].key != "" && (schema[i].value.Table? ==> NamedKeys(schema[i].value.entries))
  }

  lemma {:induction false} LeafPathsNonEmpty(entries: seq<Entry>)
    ensures NonEmptyPaths(LeafPaths(entries))
    decreases entries
  {
    if entries != [] { LeafPathsNonEmpty(entries[1..]); }
  }

  lemma {:induction false} ReportedNonEmpty(raw: seq<Entry>, schema: seq<Entry>)
    ensures NonEmptyPaths(Reported(raw, schema))
    decreases raw
  {
    if raw != [] { ReportedNonEmpty(raw[1..], schema); }
  }

  lemma {:induction false} LeafPathsSnoc(entries: seq<Entry>, e: Entry)
    ensures LeafPaths(entries + [e]) == LeafPaths(entries) + LeafPathsAt(e)
    decreases entries
  {
    if entries == [] {
      assert entries + [e] == [e];
      assert [e][1..] == [];
    } else {
      assert (entries + [e])[1..] == entries[1..] + [e];
      LeafPathsSnoc(entries[1..], e);
    }
  }

  lemma {:induction false} ReportedSnoc(raw: seq<Entry>, e: Entry, schema: seq<Entry>)
    ensures Reported(raw + [e], schema) == Reported(raw, schema) + ReportedAt(e, schema)
    decreases raw
  {
    if raw == [] {
      assert raw + [e] == [e];
      assert [e][1..] == [];
    } else {
      assert (raw + [e])[1..] == raw[1..] + [e];
      ReportedSnoc(raw[1..], e, schema);
    }
  }

  lemma {:induction false} KnownKeyNamed(schema: seq<Entry>, key: string)
    requires NamedKeys(schema) && Get(schema, key).Some?
    ensures key != "" && (Get(schema, key).value.Table? ==> NamedKeys(Get(schema, key).value.entries))
    decreases schema
  {
    if schema[0].key != key {
      assert forall i :: 0 <= i < |schema[1..]| ==> schema[1..][i] == schema[i + 1];
      KnownKeyNamed(schema[1..], key);
    }
  }

  lemma TableTextsConcat(prefix: string, a: seq<Path>, b: seq<Path>)
    requires NonEmptyPaths(a) && NonEmptyPaths(b)
    ensures NonEmptyPaths(a + b) && TableTexts(prefix, a + b) == TableTexts(prefix, a) + TableTexts(prefix, b)
  {
  }

  lemma TextsConcat(prefix: string, a: seq<Path>, b: seq<Path>, schema: seq<Entry>)
    requires NonEmptyPaths(a) && NonEmptyPaths(b)
    ensures NonEmptyPaths(a + b)
    ensures Texts(prefix, a + b, schema) == Texts(prefix, a, schema) + Texts(prefix, b, schema)
  {
  }

  lemma NoLeaves(prefix: string)
    ensures NonEmptyPaths(LeafPaths([])) && TableTexts(prefix, LeafPaths([])) == []
  {
  }

  lemma NothingToReport(prefix: string, schema: seq<Entry>)
    ensures NonEmptyPaths(Reported([], schema)) && Texts(prefix, Reported([], schema), schema) == []
  {
  }

  lemma TableTextsSnoc(prefix: string, table: seq<Entry>, e: Entry)
    requires NonEmptyPaths(LeafPaths(table)) && NonEmptyPaths(LeafPathsAt(e))
    ensures NonEmptyPaths(LeafPaths(table + [e]))
    ensures TableTexts(prefix, LeafPaths(table + [e])) ==
      TableTexts(prefix, LeafPaths(table)) + TableTexts(prefix, LeafPathsAt(e))
  {
    hide LeafPaths, LeafPathsAt, TableTexts;
    LeafPathsSnoc(table, e);
    TableTextsConcat(prefix, LeafPaths(table), LeafPathsAt(e));
  }

  lemma TextsSnoc(prefix: string, raw: seq<Entry>, e: Entry, schema: seq<Entry>)
    requires NonEmptyPaths(Reported(raw, schema)) && NonEmptyPaths(ReportedAt(e, schema))
    ensures NonEmptyPaths(Reported(raw + [e], schema))
    ensures Texts(prefix, Reported(raw + [e], schema), schema) ==
      Texts(prefix, Reported(raw, schema), schema) + Texts(prefix, ReportedAt(e, schema), schema)
  {
    hide Reported, ReportedAt, Texts;
    ReportedSnoc(raw, e, schema);
    TextsConcat(prefix, Reported(raw, schema), ReportedAt(e, schema), schema);
  }

  lemma DottedCons(key: string, path: Path)
    requires path != []
    ensures Dotted([key] + path) == key + "." + Dotted(path)
  {
    assert ([key] + path)[1..] == path;
  }

  lemma DottedBelow(prefix: string, key: string, path: Path)
    requires path != []
    ensures prefix + "." + Dotted([key] + path) == (prefix + "." + key) + "." + Dotted(path)
  {
    DottedCons(key, path);
    assert prefix + "." + (key + "." + Dotted(path)) == (prefix + "." + key) + "." + Dotted(path);
  }

  /** Printing below a key is printing the longer path: inside an unknown table, ... */
  lemma PrependTableTexts(prefix: string, key: string, paths: seq<Path>)
    requires NonEmptyPaths(paths)
    ensures NonEmptyPaths(Prepend(key, paths))
    ensures TableTexts(prefix, Prepend(key, paths)) == TableTexts(prefix + "." + key, paths)
  {
    forall i | 0 <= i < |paths|
      ensures prefix + "." + Dotted(Prepend(key, paths)[i]) == (prefix + "." + key) + "." + Dotted(paths[i])
    {
      DottedBelow(prefix, key, paths[i]);
    }
  }

  /** ... at an unknown key, ... */
  lemma PrependUnknownTexts(prefix: string, key: string, paths: seq<Path>, schema: seq<Entry>)
    requires NonEmptyPaths(paths) && Get(schema, key).None?
    ensures NonEmptyPaths(Prepend(key, paths))
    ensures Texts(prefix, Prepend(key, paths), schema) == TableTexts(Joined(prefix, key), paths)
  {
    forall i | 0 <= i < |paths|
      ensures TextOf(prefix, Prepend(key, paths)[i], schema) == Joined(prefix, key) + "." + Dotted(paths[i])
    {
      DottedCons(key, paths[i]);
      DottedBelow(prefix, key, paths[i]);
    }
  }

  /** ... and at a table the schema knows. */
  lemma PrependKnownTexts(prefix: string, key: string, paths: seq<Path>, schema: seq<Entry>, known: seq<Entry>)
    requires NonEmptyPaths(paths) && Get(schema, key) == Some(Table(known))
    ensures NonEmptyPaths(Prepend(key, paths))
    ensures Texts(prefix, Prepend(key, paths), schema) == Texts(Joined(prefix, key), paths, known)
  {
    forall i | 0 <= i < |paths|
      ensures TextOf(prefix, Prepend(key, paths)[i], schema) == TextOf(Joined(prefix, key), paths[i], known)
    {
      assert ([key] + paths[i])[1..] == paths[i];
      DottedCons(key, paths[i]);
      DottedBelow(prefix, key, paths[i]);
    }
  }

  /** A schema whose tables have no empty key loses no key. */
  lemma NothingLost(path: Path, schema: seq<Entry>)
    requires path != [] && NamedKeys(schema)
    ensures Kept(path, schema) == path
  {
    if Get(schema, "").Some? { KnownKeyNamed(schema, ""); }
  }

  /** The collector: `out` is the vector both functions push into. */
  class Collector {
    var out: seq<string>

    constructor ()
      ensures out == []
    {
      out := [];
    }

    /** `collect_unknown_table`. */
    method CollectUnknownTable(table: seq<Entry>, prefix: string)
      modifies this
      ensures NonEmptyPaths(LeafPaths(table)) && out == old(out) + TableTexts(prefix, LeafPaths(table))
      decreases table, 1
    {
      hide LeafPaths, LeafPathsAt, TableTexts, NonEmptyPaths;
      NoLeaves(prefix);
      assert table[..0] == [];
      for i := 0 to |table|
        invariant NonEmptyPaths(LeafPaths(table[..i]))
        invariant out == old(out) + TableTexts(prefix, LeafPaths(table[..i]))
      {
        PushTableEntry(table[i], prefix);
        assert table[..i + 1] == table[..i] + [table[i]];
        TableTextsSnoc(prefix, table[..i], table[i]);
      }
      assert table[..|table|] == table;
    }

    method PushTableEntry(e: Entry, prefix: string)
      modifies this
      ensures NonEmptyPaths(LeafPathsAt(e)) && out == old(out) + TableTexts(prefix, LeafPathsAt(e))
      decreases e, 0
    {
      var path := prefix + "." + e.key;
      if e.value.Table? && e.value.entries != [] {
        CollectUnknownTable(e.value.entries, path);
        PrependTableTexts(prefix, e.key, LeafPaths(e.value.entries));
      } else {
        out := out + [path];
        assert TableTexts(prefix, LeafPathsAt(e)) == [path];
      }
    }

    /** `collect_unknown_keys`. */
    method CollectUnknownKeys(raw: seq<Entry>, schema: seq<Entry>, prefix: string)
      modifies this
      ensures NonEmptyPaths(Reported(raw, schema)) && out == old(out) + Texts(prefix, Reported(raw, schema), schema)
      decreases raw, 1
    {
      hide Reported, ReportedAt, Texts, NonEmptyPaths;
      NothingToReport(prefix, schema);
      assert raw[..0] == [];
      for i := 0 to |raw|
        invariant NonEmptyPaths(Reported(raw[..i], schema))
        invariant out == old(out) + Texts(prefix, Reported(raw[..i], schema), schema)
      {
        PushEntry(raw[i], schema, prefix);
        assert raw[..i + 1] == raw[..i] + [raw[i]];
        TextsSnoc(prefix, raw[..i], raw[i], schema);
      }
      assert raw[..|raw|] == raw;
    }

    method PushEntry(e: Entry, schema: seq<Entry>, prefix: string)
      modifies this
      ensures NonEmptyPaths(ReportedAt(e, schema)) && out == old(out) + Texts(prefix, ReportedAt(e, schema), schema)
      decreases e, 0
    {
      var path := if prefix == "" then e.key else prefix + "." + e.key;
      match Get(schema, e.key) {
        case None =>
          if e.value.Table? && e.value.entries != [] {
            CollectUnknownTable(e.value.entries, path);
            PrependUnknownTexts(prefix, e.key, LeafPaths(e.value.entries), schema);
          } else {
            out := out + [path];
            assert Texts(prefix, ReportedAt(e, schema), schema) == [path];
          }
        case Some(Table(known)) =>
          if e.value.Table? {
            CollectUnknownKeys(e.value.entries, known, path);
            PrependKnownTexts(prefix, e.key, Reported(e.value.entries, known), schema, known);
          }
        case Some(Leaf) =>
      }
    }
  }

  // ----------------------------------------------------------- when the strings collide

  /** A key split at its dots. */
  function SplitDots(s: string): (segments: seq<string>)
    ensures segments != []
  {
    if s == "" then [""]
    else Grow(s[0], SplitDots(s[1..]))
  }

  /** Segments with one more character in front. */
  function Grow(c: char, segments: seq<string>): (grown: seq<string>)
    requires segments != []
    ensures grown != []
  {
    if c == '.' then [""] + segments else [[c] + segments[0]] + segments[1..]
  }

  /** What a reader of the printed path sees between the dots. */
  function DotSegments(path: Path): seq<string> {
    if path == [] then [] else SplitDots(path[0]) + DotSegments(path[1..])
  }

  lemma {:induction false} SplitDotsUndone(s: string)
    ensures Dotted(SplitDots(s)) == s
    decreases s
  {
    if s == "" { return; }
    var rest := SplitDots(s[1..]);
    SplitDotsUndone(s[1..]);
    assert s == [s[0]] + s[1..];
    if s[0] == '.' {
      DottedCons("", rest);
    } else if |rest| > 1 {
      var grown := [[s[0]] + rest[0]] + rest[1..];
      assert grown[1..] == rest[1..];
      assert [s[0]] + rest[0] + "." + Dotted(rest[1..]) == [s[0]] + Dotted(rest);
    }
  }

  lemma GrowConcat(c: char, x: seq<string>, y: seq<string>)
    requires x != []
    ensures Grow(c, x + y) == Grow(c, x) + y
  {
  }

  lemma {:induction false} SplitAtDot(a: string, b: string)
    ensures SplitDots(a + "." + b) == SplitDots(a) + SplitDots(b)
    decreases a
  {
    var s := a + "." + b;
    if a == "" {
      assert s[1..] == b;
    } else {
      assert s[0] == a[0] && s[1..] == a[1..] + "." + b;
      hide Grow;
      SplitAtDot(a[1..], b);
      GrowConcat(a[0], SplitDots(a[1..]), SplitDots(b));
    }
  }

  lemma {:induction false} SplitOfDotted(path: Path)
    requires path != []
    ensures SplitDots(Dotted(path)) == DotSegments(path)
    decreases |path|
  {
    if |path| == 1 {
      assert DotSegments(path[1..]) == [];
    } else {
      SplitAtDot(path[0], Dotted(path[1..]));
      SplitOfDotted(path[1..]);
    }
  }

  /** Two paths print alike exactly when their keys, cut at the dots, read alike. */
  lemma DottedAlikeIff(p: Path, q: Path)
    requires p != [] && q != []
    ensures Dotted(p) == Dotted(q) <==> DotSegments(p) == DotSegments(q)
  {
    SplitOfDotted(p);
    SplitOfDotted(q);
    SplitDotsUndone(Dotted(p));
    SplitDotsUndone(Dotted(q));
  }

  predicate AllDistinct<T(==)>(s: seq<T>) { forall i, j :: 0 <= i < j < |s| ==> s[i] != s[j] }

  /** The segments a reader sees in each report. */
  function SegmentsOf(paths: seq<Path>, schema: seq<Entry>): seq<seq<string>>
    requires NonEmptyPaths(paths)
  {
    seq(|paths|, i requires 0 <= i < |paths| => DotSegments(Kept(paths[i], schema)))
  }

  /** The printed reports are distinct exactly when no two reported paths have the same dot
      segments. */
  lemma ReportedTextsDistinctIff(raw: seq<Entry>, schema: seq<Entry>)
    ensures NonEmptyPaths(Reported(raw, schema))
    ensures var paths := Reported(raw, schema);
            AllDistinct(Texts("", paths, schema)) <==> AllDistinct(SegmentsOf(paths, schema))
  {
    ReportedNonEmpty(raw, schema);
    var paths := Reported(raw, schema);
    var texts, segments := Texts("", paths, schema), SegmentsOf(paths, schema);
    forall i, j | 0 <= i < j < |paths| ensures texts[i] == texts[j] <==> segments[i] == segments[j] {
      DottedAlikeIff(Kept(paths[i], schema), Kept(paths[j], schema));
    }
  }

  predicate DotFree(path: Path) { forall i :: 0 <= i < |path| ==> '.' !in path[i] }

  lemma {:induction false} NoDotNoSplit(s: string)
    requires '.' !in s
    ensures SplitDots(s) == [s]
    decreases s
  {
    if s != "" {
      assert s[0] in s && s == [s[0]] + s[1..];
      NoDotNoSplit(s[1..]);
    }
  }

  lemma {:induction false} DotFreeSegments(path: Path)
    requires DotFree(path)
    ensures DotSegments(path) == path
    decreases |path|
  {
    if path != [] {
      NoDotNoSplit(path[0]);
      DotFreeSegments(path[1..]);
      assert path == [path[0]] + path[1..];
    }
  }

  /** So they are when no reported key holds a dot and no schema table an empty key. */
  lemma ReportedTextsDistinct(raw: seq<Entry>, schema: seq<Entry>)
    requires WellFormed(raw) && NamedKeys(schema)
    requires forall p :: p in Reported(raw, schema) ==> DotFree(p)
    ensures NonEmptyPaths(Reported(raw, schema)) && AllDistinct(Texts("", Reported(raw, schema), schema))
  {
    ReportedTextsDistinctIff(raw, schema);
    var paths := Reported(raw, schema);
    ReportedOnce(raw, schema);
    forall i | 0 <= i < |paths| ensures SegmentsOf(paths, schema)[i] == paths[i] {
      assert paths[i] in paths;
      NothingLost(paths[i], schema);
      DotFreeSegments(paths[i]);
    }
  }

  /** A quoted key may contain a dot, and then two paths can print alike. */
  lemma DottedKeysCollide()
    ensures var raw := [Entry("a.b", Leaf), Entry("a", Table([Entry("b", Leaf)]))];
            && WellFormed(raw) && NonEmptyPaths(Reported(raw, []))
            && Texts("", Reported(raw, []), []) == ["a.b", "a.b"]
  {
    var raw := [Entry("a.b", Leaf), Entry("a", Table([Entry("b", Leaf)]))];
    var inner := [Entry("b", Leaf)];
    assert inner[1..] == [] && LeafPaths(inner) == [["b"]] + [];
    assert ["a"] + ["b"] == ["a", "b"];
    assert Prepend("a", [["b"]]) == [["a", "b"]];
    assert ReportedAt(raw[1], []) == [["a", "b"]] && ReportedAt(raw[0], []) == [["a.b"]];
    assert raw[1..] == [raw[1]] && [raw[1]][1..] == [];
    assert Reported([raw[1]], []) == [["a", "b"]] + Reported([], []);
    assert Reported(raw, []) == [["a.b"], ["a", "b"]];
    assert ["a", "b"][1..] == ["b"];
    assert Dotted(["a", "b"]) == "a" + "." + "b" == "a.b";
    assert Texts("", [["a.b"], ["a", "b"]], []) == ["a.b", "a.b"];
  }
}
