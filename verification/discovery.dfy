/** Which languages are available: grammars and query files found along search paths. */
module Discovery {
  import opened Options
  import opened Paths
  import opened Substrings

  // ---------------------------------------------------------------- the file system

  /** `name` is absent when it is not Unicode. */
  datatype DirEntry = DirEntry(name: Option<string>, isFile: bool, isDir: bool)

  /** The directories that can be read, and the paths that exist. */
  datatype FileSystem = FileSystem(listing: map<Path, seq<DirEntry>>, existing: set<Path>)

  /** No listing shows anything but single components. */
  ghost predicate RealNames(fs: FileSystem) {
    forall dir, e :: dir in fs.listing && e in fs.listing[dir] && e.name.Some? ==> IsEntryName(e.name.value)
  }

  /** A search pattern after expansion, cut into its directory and its last component. */
  datatype Pattern = Pattern(dir: Path, name: string)

  // ---------------------------------------------------------------- the placeholder

  const PLACEHOLDER := "{lang}"

  predicate HasPlaceholder(pattern: string) {
    Find(pattern, PLACEHOLDER).Some?
  }

  function Prefix(pattern: string): string
    requires HasPlaceholder(pattern)
  {
    pattern[..Find(pattern, PLACEHOLDER).value]
  }

  function Suffix(pattern: string): string
    requires HasPlaceholder(pattern)
  {
    pattern[Find(pattern, PLACEHOLDER).value + |PLACEHOLDER|..]
  }

  function Substitute(pattern: string, lang: string): string
    requires HasPlaceholder(pattern)
  {
    Prefix(pattern) + lang + Suffix(pattern)
  }

  function StripPrefix(s: string, prefix: string): Option<string> {
    if prefix <= s then Some(s[|prefix|..]) else None
  }

  function StripSuffix(s: string, suffix: string): Option<string> {
    if |suffix| <= |s| && s[|s| - |suffix|..] == suffix then Some(s[..|s| - |suffix|]) else None
  }

  function ExtractLang(pattern: string, candidate: string): Option<string> {
    if !HasPlaceholder(pattern) then None
    else match StripPrefix(candidate, Prefix(pattern))
      case None => None
      case Some(withoutPrefix) =>
        match StripSuffix(withoutPrefix, Suffix(pattern))
        case None => None
        case Some(lang) => if lang == "" then None else Some(lang)
  }

  /** Extraction inverts substitution: it finds the one non-empty name that gives the candidate. */
  lemma ExtractInvertsSubstitute(pattern: string, candidate: string, lang: string)
    requires HasPlaceholder(pattern)
    ensures ExtractLang(pattern, candidate) == Some(lang)
            <==> lang != "" && candidate == Substitute(pattern, lang)
  {
    var prefix, suffix := Prefix(pattern), Suffix(pattern);
    if ExtractLang(pattern, candidate) == Some(lang) {
      var rest := candidate[|prefix|..];
      assert candidate == prefix + rest;
      assert rest == lang + suffix;
    }
    if lang != "" && candidate == Substitute(pattern, lang) {
      assert candidate == prefix + (lang + suffix);
      assert candidate[|prefix|..] == lang + suffix;
      assert (lang + suffix)[..|lang|] == lang;
      assert (lang + suffix)[|lang|..] == suffix;
    }
  }

  /** The leftmost placeholder is what is replaced; all around it stays. */
  lemma SubstituteReplaces(before: string, behind: string, lang: string)
    requires forall j: nat :: j < |before| ==> !OccursAt(before + PLACEHOLDER + behind, PLACEHOLDER, j)
    ensures var pattern := before + PLACEHOLDER + behind;
            HasPlaceholder(pattern) && Substitute(pattern, lang) == before + lang + behind
  {
    var pattern := before + PLACEHOLDER + behind;
    assert pattern[|before|..|before| + |PLACEHOLDER|] == PLACEHOLDER;
    assert OccursAt(pattern, PLACEHOLDER, |before|);
    FindIs(pattern, PLACEHOLDER, |before|);
    assert pattern[|before| + |PLACEHOLDER|..] == behind;
  }

  // ---------------------------------------------------------------- scanning one pattern

  datatype Kind = RegularFile | Directory

  predicate HasKind(e: DirEntry, kind: Kind) {
    match kind
    case RegularFile => e.isFile
    case Directory => e.isDir
  }

  /** The languages among the entries, with their paths, in the order of the listing. */
  function ScanEntries(pattern: Pattern, kind: Kind, entries: seq<DirEntry>): seq<(string, Path)> {
    if entries == [] then []
    else
      var n := |entries| - 1;
      var found := ScanEntries(pattern, kind, entries[..n]);
      if HasKind(entries[n], kind) && entries[n].name.Some? && ExtractLang(pattern.name, entries[n].name.value).Some?
      then found + [(ExtractLang(pattern.name, entries[n].name.value).value, Join(pattern.dir, entries[n].name.value))]
      else found
  }

  function ScanPattern(fs: FileSystem, pattern: Pattern, kind: Kind): seq<(string, Path)> {
    if !HasPlaceholder(pattern.name) || pattern.dir !in fs.listing then []
    else ScanEntries(pattern, kind, fs.listing[pattern.dir])
  }

  /** The directory of the pattern has an entry of that kind for the language. */
  ghost predicate Offers(fs: FileSystem, pattern: Pattern, kind: Kind, lang: string) {
    && HasPlaceholder(pattern.name) && lang != "" && pattern.dir in fs.listing
    && exists e :: e in fs.listing[pattern.dir] && HasKind(e, kind) && e.name == Some(Substitute(pattern.name, lang))
  }

  function PathFor(pattern: Pattern, lang: string): Path
    requires HasPlaceholder(pattern.name)
  {
    Join(pattern.dir, Substitute(pattern.name, lang))
  }

  lemma {:induction false} ScanEntriesFinds(pattern: Pattern, kind: Kind, entries: seq<DirEntry>,
                                            lang: string, path: Path)
    requires HasPlaceholder(pattern.name)
    ensures (lang, path) in ScanEntries(pattern, kind, entries)
            <==> && lang != "" && path == PathFor(pattern, lang)
                 && exists e :: e in entries && HasKind(e, kind) && e.name == Some(Substitute(pattern.name, lang))
  {
    if entries != [] {
      var n := |entries| - 1;
      ScanEntriesFinds(pattern, kind, entries[..n], lang, path);
      assert entries == entries[..n] + [entries[n]];
      if entries[n].name.Some? {
        ExtractInvertsSubstitute(pattern.name, entries[n].name.value, lang);
      }
    }
  }

  lemma ScanFinds(fs: FileSystem, pattern: Pattern, kind: Kind, lang: string, path: Path)
    ensures (lang, path) in ScanPattern(fs, pattern, kind)
            <==> Offers(fs, pattern, kind, lang) && path == PathFor(pattern, lang)
  {
    if HasPlaceholder(pattern.name) && pattern.dir in fs.listing {
      ScanEntriesFinds(pattern, kind, fs.listing[pattern.dir], lang, path);
    }
  }

  ghost predicate Found(found: seq<(string, Path)>, lang: string) {
    exists k :: 0 <= k < |found| && found[k].0 == lang
  }

  lemma FoundMore(found: seq<(string, Path)>, lang: string, path: Path)
    ensures forall l :: Found(found + [(lang, path)], l) <==> Found(found, l) || l == lang
  {
    var more := found + [(lang, path)];
    forall l
      ensures Found(more, l) <==> Found(found, l) || l == lang
    {
      assert more[|found|].0 == lang;
      if k :| 0 <= k < |found| && found[k].0 == l {
        assert more[k].0 == l;
      }
    }
  }

  // ---------------------------------------------------------------- grammars

  function LookUp<K, V>(m: map<K, V>, key: K): Option<V> {
    if key in m then Some(m[key]) else None
  }

  /** The grammar of a language comes from the last pattern that offers one. */
  ghost function GrammarOf(fs: FileSystem, patterns: seq<Pattern>, lang: string): Option<Path> {
    if patterns == [] then None
    else
      var last := patterns[|patterns| - 1];
      if Offers(fs, last, RegularFile, lang) then Some(PathFor(last, lang))
      else GrammarOf(fs, patterns[..|patterns| - 1], lang)
  }

  ghost predicate GrammarsAre(fs: FileSystem, patterns: seq<Pattern>, grammars: map<string, Path>) {
    forall lang :: LookUp(grammars, lang) == GrammarOf(fs, patterns, lang)
  }

  method DiscoverGrammars(fs: FileSystem, patterns: seq<Pattern>) returns (grammars: map<string, Path>)
    ensures GrammarsAre(fs, patterns, grammars)
  {
    grammars := map[];
    for i := 0 to |patterns|
      invariant GrammarsAre(fs, patterns[..i], grammars)
    {
      var pattern := patterns[i];
      var found := ScanPattern(fs, pattern, RegularFile);
      ghost var before := grammars;
      for j := 0 to |found|
        invariant forall lang ::
                    LookUp(grammars, lang)
                    == if Found(found[..j], lang) then Some(PathFor(pattern, lang))
                       else LookUp(before, lang)
      {
        ScanFinds(fs, pattern, RegularFile, found[j].0, found[j].1);
        FoundMore(found[..j], found[j].0, found[j].1);
        assert found[..j + 1] == found[..j] + [found[j]];
        grammars := grammars[found[j].0 := found[j].1];
      }
      assert found[..|found|] == found;
      assert patterns[..i + 1][..i] == patterns[..i];
      forall lang
        ensures LookUp(grammars, lang) == GrammarOf(fs, patterns[..i + 1], lang)
      {
        FoundIffOffered(fs, pattern, RegularFile, lang);
      }
    }
    assert patterns[..|patterns|] == patterns;
  }

  lemma FoundIffOffered(fs: FileSystem, pattern: Pattern, kind: Kind, lang: string)
    ensures Offers(fs, pattern, kind, lang)
            <==> Found(ScanPattern(fs, pattern, kind), lang)
  {
    var found := ScanPattern(fs, pattern, kind);
    if Offers(fs, pattern, kind, lang) {
      ScanFinds(fs, pattern, kind, lang, PathFor(pattern, lang));
    }
    if k :| 0 <= k < |found| && found[k].0 == lang {
      ScanFinds(fs, pattern, kind, lang, found[k].1);
    }
  }

  /** The pattern that decides is the last that offers a grammar for the name. */
  lemma {:induction false} GrammarIsTheLastOffered(fs: FileSystem, patterns: seq<Pattern>, i: nat, lang: string)
    requires i < |patterns| && Offers(fs, patterns[i], RegularFile, lang)
    requires forall j :: i < j < |patterns| ==> !Offers(fs, patterns[j], RegularFile, lang)
    ensures GrammarOf(fs, patterns, lang) == Some(PathFor(patterns[i], lang))
  {
    if i < |patterns| - 1 {
      GrammarIsTheLastOffered(fs, patterns[..|patterns| - 1], i, lang);
    }
  }

  /** Every grammar that is found is a directory entry, so the stem of its path can be read. */
  lemma {:induction false} GrammarHasStem(fs: FileSystem, patterns: seq<Pattern>, lang: string)
    requires RealNames(fs)
    ensures var path := GrammarOf(fs, patterns, lang);
            path.Some? ==> FileStem(path.value).Some?
  {
    if patterns != [] {
      var last := patterns[|patterns| - 1];
      if Offers(fs, last, RegularFile, lang) {
        JoinedName(last.dir, Substitute(last.name, lang));
      } else {
        GrammarHasStem(fs, patterns[..|patterns| - 1], lang);
      }
    }
  }

  /** What is found is an entry of one of the searched directories, and a regular file. */
  lemma {:induction false} GrammarIsAListedFile(fs: FileSystem, patterns: seq<Pattern>, lang: string)
    returns (e: DirEntry)
    requires GrammarOf(fs, patterns, lang).Some?
    ensures exists p ::
              && p in patterns && p.dir in fs.listing && e in fs.listing[p.dir]
              && e.isFile && e.name.Some? && GrammarOf(fs, patterns, lang) == Some(Join(p.dir, e.name.value))
  {
    var n := |patterns| - 1;
    var last := patterns[n];
    if Offers(fs, last, RegularFile, lang) {
      e :| e in fs.listing[last.dir] && HasKind(e, RegularFile) && e.name == Some(Substitute(last.name, lang));
      assert last in patterns;
    } else {
      e := GrammarIsAListedFile(fs, patterns[..n], lang);
      assert forall p :: p in patterns[..n] ==> p in patterns;
    }
  }

  // ---------------------------------------------------------------- queries

  datatype QueryFile = Highlights | Injections | Locals | TextObjects

  function Filename(file: QueryFile): string {
    match file
    case Highlights => "highlights.scm"
    case Injections => "injections.scm"
    case Locals => "locals.scm"
    case TextObjects => "textobjects.scm"
  }

  const ALL_QUERY_FILES := [Highlights, Injections, Locals, TextObjects]

  type QueryMap = map<string, map<QueryFile, Path>>

  function QueryIn(queries: QueryMap, lang: string, file: QueryFile): Option<Path> {
    if lang in queries then LookUp(queries[lang], file) else None
  }

  /** The pattern offers a query directory for the language, and the file is in it. */
  ghost predicate OffersQuery(fs: FileSystem, pattern: Pattern, lang: string, file: QueryFile) {
    Offers(fs, pattern, Directory, lang) && Join(PathFor(pattern, lang), Filename(file)) in fs.existing
  }

  /** Each query file comes from the last pattern that has that file, file by file. */
  ghost function QueryOf(fs: FileSystem, patterns: seq<Pattern>, lang: string, file: QueryFile): Option<Path> {
    if patterns == [] then None
    else
      var last := patterns[|patterns| - 1];
      if OffersQuery(fs, last, lang, file) then Some(Join(PathFor(last, lang), Filename(file)))
      else QueryOf(fs, patterns[..|patterns| - 1], lang, file)
  }

  /** Decided file by file: a later directory without the file leaves an earlier one's file in place. */
  lemma {:induction false} QueryIsTheLastOffered(fs: FileSystem, patterns: seq<Pattern>, i: nat,
                                                 lang: string, file: QueryFile)
    requires i < |patterns| && OffersQuery(fs, patterns[i], lang, file)
    requires forall j :: i < j < |patterns| ==> !OffersQuery(fs, patterns[j], lang, file)
    ensures QueryOf(fs, patterns, lang, file) == Some(Join(PathFor(patterns[i], lang), Filename(file)))
  {
    if i < |patterns| - 1 {
      QueryIsTheLastOffered(fs, patterns[..|patterns| - 1], i, lang, file);
    }
  }

  ghost predicate QueriesAre(fs: FileSystem, patterns: seq<Pattern>, queries: QueryMap) {
    forall lang, file :: QueryIn(queries, lang, file) == QueryOf(fs, patterns, lang, file)
  }

  method AddQueryFiles(fs: FileSystem, dir: Path, entry: map<QueryFile, Path>) returns (added: map<QueryFile, Path>)
    ensures forall file: QueryFile ::
              LookUp(added, file)
              == if Join(dir, Filename(file)) in fs.existing then Some(Join(dir, Filename(file)))
                 else LookUp(entry, file)
  {
    added := entry;
    for i := 0 to |ALL_QUERY_FILES|
      invariant forall file ::
                  LookUp(added, file)
                  == if file in ALL_QUERY_FILES[..i] && Join(dir, Filename(file)) in fs.existing
                     then Some(Join(dir, Filename(file)))
                     else LookUp(entry, file)
    {
      var path := Join(dir, Filename(ALL_QUERY_FILES[i]));
      if path in fs.existing {
        added := added[ALL_QUERY_FILES[i] := path];
      }
      assert ALL_QUERY_FILES[..i + 1] == ALL_QUERY_FILES[..i] + [ALL_QUERY_FILES[i]];
    }
    forall file: QueryFile
      ensures file in ALL_QUERY_FILES[..|ALL_QUERY_FILES|]
    {
      var k := match file case Highlights => 0 case Injections => 1 case Locals => 2 case TextObjects => 3;
      assert ALL_QUERY_FILES[..|ALL_QUERY_FILES|][k] == file;
    }
  }

  /** A query file once the directories found for one pattern are laid over an earlier map. */
  ghost function Overlay(fs: FileSystem, pattern: Pattern, found: seq<(string, Path)>, before: QueryMap,
                         lang: string, file: QueryFile): Option<Path>
  {
    if Found(found, lang) && HasPlaceholder(pattern.name) && Join(PathFor(pattern, lang), Filename(file)) in fs.existing
    then Some(Join(PathFor(pattern, lang), Filename(file)))
    else QueryIn(before, lang, file)
  }

  ghost predicate Overlaid(fs: FileSystem, pattern: Pattern, found: seq<(string, Path)>,
                           before: QueryMap, after: QueryMap) {
    forall lang, file :: QueryIn(after, lang, file) == Overlay(fs, pattern, found, before, lang, file)
  }

  lemma OverlayMore(fs: FileSystem, pattern: Pattern, found: seq<(string, Path)>, before: QueryMap,
                    now: QueryMap, lang: string, entry: map<QueryFile, Path>)
    requires Overlaid(fs, pattern, found, before, now)
    requires HasPlaceholder(pattern.name)
    requires forall file :: LookUp(entry, file) == Overlay(fs, pattern, [(lang, "")], now, lang, file)
    ensures Overlaid(fs, pattern, found + [(lang, PathFor(pattern, lang))], before, now[lang := entry])
  {
    var more := found + [(lang, PathFor(pattern, lang))];
    FoundMore(found, lang, PathFor(pattern, lang));
    assert Found([(lang, "")], lang) by {
      assert [(lang, "")][0].0 == lang;
    }
    forall l, file
      ensures QueryIn(now[lang := entry], l, file) == Overlay(fs, pattern, more, before, l, file)
    {
      assert QueryIn(now, l, file) == Overlay(fs, pattern, found, before, l, file);
      if l == lang {
        assert LookUp(entry, file) == Overlay(fs, pattern, [(lang, "")], now, lang, file);
      }
    }
  }

  method DiscoverQueries(fs: FileSystem, patterns: seq<Pattern>) returns (queries: QueryMap)
    ensures QueriesAre(fs, patterns, queries)
  {
    queries := map[];
    for i := 0 to |patterns|
      invariant QueriesAre(fs, patterns[..i], queries)
    {
      var pattern := patterns[i];
      var found := ScanPattern(fs, pattern, Directory);
      ghost var before := queries;
      for j := 0 to |found|
        invariant Overlaid(fs, pattern, found[..j], before, queries)
      {
        var (lang, dir) := found[j];
        ScanFinds(fs, pattern, Directory, lang, dir);
        var entry := if lang in queries then queries[lang] else map[];
        entry := AddQueryFiles(fs, dir, entry);
        assert Found([(lang, "")], lang) by {
          assert [(lang, "")][0].0 == lang;
        }
        OverlayMore(fs, pattern, found[..j], before, queries, lang, entry);
        assert found[..j + 1] == found[..j] + [found[j]];
        queries := queries[lang := entry];
      }
      assert found[..|found|] == found;
      OverlayIsNextPattern(fs, patterns[..i], pattern, before, queries);
      assert patterns[..i + 1] == patterns[..i] + [pattern];
    }
    assert patterns[..|patterns|] == patterns;
  }

  lemma OverlayIsNextPattern(fs: FileSystem, patterns: seq<Pattern>, pattern: Pattern,
                             before: QueryMap, after: QueryMap)
    requires QueriesAre(fs, patterns, before)
    requires Overlaid(fs, pattern, ScanPattern(fs, pattern, Directory), before, after)
    ensures QueriesAre(fs, patterns + [pattern], after)
  {
    forall lang, file
      ensures QueryIn(after, lang, file) == QueryOf(fs, patterns + [pattern], lang, file)
    {
      FoundIffOffered(fs, pattern, Directory, lang);
      assert (patterns + [pattern])[..|patterns|] == patterns;
    }
  }

  // ---------------------------------------------------------------- languages

  datatype LanguageConfig =
    LanguageConfig(grammar: Option<string>, queryLang: Option<string>, overrides: map<QueryFile, Path>)

  datatype Config =
    Config(grammarPaths: seq<Pattern>, queryPaths: seq<Pattern>, languages: map<string, LanguageConfig>)

  datatype DiscoveredLang = DiscoveredLang(
    grammarPath: Path,
    highlights: Path,
    injections: Option<Path>,
    locals: Option<Path>,
    textobjects: Option<Path>)

  function GrammarName(config: Config, lang: string): string {
    if lang in config.languages && config.languages[lang].grammar.Some?
    then config.languages[lang].grammar.value
    else lang
  }

  function QueryName(config: Config, lang: string): string {
    if lang in config.languages && config.languages[lang].queryLang.Some?
    then config.languages[lang].queryLang.value
    else GrammarName(config, lang)
  }

  function OverrideOf(config: Config, lang: string, file: QueryFile): Option<Path> {
    if lang in config.languages then LookUp(config.languages[lang].overrides, file) else None
  }

  function OrElse<T>(first: Option<T>, second: Option<T>): Option<T> {
    if first.Some? then first else second
  }

  /** The query file a language uses: the configured one, else the discovered one. */
  ghost function ChosenQuery(config: Config, fs: FileSystem, lang: string, file: QueryFile): Option<Path> {
    OrElse(OverrideOf(config, lang, file), QueryOf(fs, config.queryPaths, QueryName(config, lang), file))
  }

  /** What discovery owes for a name, said of that name alone. */
  ghost function Expected(config: Config, fs: FileSystem, lang: string): Option<DiscoveredLang> {
    var grammar := GrammarOf(fs, config.grammarPaths, GrammarName(config, lang));
    var highlights := ChosenQuery(config, fs, lang, Highlights);
    if grammar.None? || highlights.None? then None
    else Some(DiscoveredLang(grammar.value, highlights.value,
                             ChosenQuery(config, fs, lang, Injections),
                             ChosenQuery(config, fs, lang, Locals),
                             ChosenQuery(config, fs, lang, TextObjects)))
  }

  /**
   * A language is enabled exactly when some pattern offers the grammar it is redirected to
   * and its highlights are configured or offered by some pattern.
   */
  lemma EnabledIff(config: Config, fs: FileSystem, lang: string)
    ensures Expected(config, fs, lang).Some?
            <==> && (exists p :: p in config.grammarPaths && Offers(fs, p, RegularFile, GrammarName(config, lang)))
                 && (|| OverrideOf(config, lang, Highlights).Some?
                     || exists p :: p in config.queryPaths && OffersQuery(fs, p, QueryName(config, lang), Highlights))
  {
    SomeGrammarIff(fs, config.grammarPaths, GrammarName(config, lang));
    SomeQueryIff(fs, config.queryPaths, QueryName(config, lang), Highlights);
  }

  /** The path is that of the last pattern that has the file for the name; there is none if no pattern has it. */
  ghost predicate ComesFrom(fs: FileSystem, patterns: seq<Pattern>, lang: string, file: QueryFile, path: Option<Path>) {
    match path
    case Some(p) =>
      exists i: nat ::
        && i < |patterns| && OffersQuery(fs, patterns[i], lang, file)
        && p == Join(PathFor(patterns[i], lang), Filename(file))
        && forall j :: i < j < |patterns| ==> !OffersQuery(fs, patterns[j], lang, file)
    case None =>
      forall i :: 0 <= i < |patterns| ==> !OffersQuery(fs, patterns[i], lang, file)
  }

  lemma QueryComesFrom(fs: FileSystem, patterns: seq<Pattern>, lang: string, file: QueryFile)
    ensures ComesFrom(fs, patterns, lang, file, QueryOf(fs, patterns, lang, file))
  {
    SomeQueryIff(fs, patterns, lang, file);
    if QueryOf(fs, patterns, lang, file).Some? {
      var offers := seq(|patterns|, i requires 0 <= i < |patterns| => OffersQuery(fs, patterns[i], lang, file));
      var k :| 0 <= k < |patterns| && OffersQuery(fs, patterns[k], lang, file);
      assert offers[k];
      var i := LastTrue(offers);
      forall j | i < j < |patterns|
        ensures !OffersQuery(fs, patterns[j], lang, file)
      {
        assert !offers[j];
      }
      QueryIsTheLastOffered(fs, patterns, i, lang, file);
    }
  }

  /** A query file that is found exists, and lies in a listed directory of one of the searched ones. */
  lemma QueryIsInAListedDirectory(fs: FileSystem, patterns: seq<Pattern>, lang: string, file: QueryFile)
    returns (p: Pattern, e: DirEntry)
    requires QueryOf(fs, patterns, lang, file).Some?
    ensures p in patterns && p.dir in fs.listing && e in fs.listing[p.dir] && e.isDir && e.name.Some?
    ensures QueryOf(fs, patterns, lang, file).value == Join(Join(p.dir, e.name.value), Filename(file))
    ensures QueryOf(fs, patterns, lang, file).value in fs.existing
  {
    QueryComesFrom(fs, patterns, lang, file);
    var i: nat :| && i < |patterns| && OffersQuery(fs, patterns[i], lang, file)
                  && QueryOf(fs, patterns, lang, file).value == Join(PathFor(patterns[i], lang), Filename(file));
    p := patterns[i];
    e :| e in fs.listing[p.dir] && HasKind(e, Directory) && e.name == Some(Substitute(p.name, lang));
  }

  lemma {:induction false} LastTrue(s: seq<bool>) returns (i: nat)
    requires true in s
    ensures i < |s| && s[i] && forall j :: i < j < |s| ==> !s[j]
  {
    i := |s| - 1;
    if !s[i] {
      i := LastTrue(s[..i]);
    }
  }

  /** A configured path is used as it is; otherwise the name to look under is the configured one, if any. */
  ghost predicate UsesFile(config: Config, fs: FileSystem, lang: string, file: QueryFile, path: Option<Path>) {
    if lang !in config.languages then ComesFrom(fs, config.queryPaths, lang, file, path)
    else
      var entry := config.languages[lang];
      if file in entry.overrides then path == Some(entry.overrides[file])
      else match (entry.queryLang, entry.grammar)
        case (Some(name), _) => ComesFrom(fs, config.queryPaths, name, file, path)
        case (None, Some(name)) => ComesFrom(fs, config.queryPaths, name, file, path)
        case (None, None) => ComesFrom(fs, config.queryPaths, lang, file, path)
  }

  /** All paths of an enabled language, each in its own place. */
  lemma PathsOfEnabled(config: Config, fs: FileSystem, lang: string)
    requires Expected(config, fs, lang).Some?
    ensures var d := Expected(config, fs, lang).value;
            && UsesFile(config, fs, lang, Highlights, Some(d.highlights))
            && UsesFile(config, fs, lang, Injections, d.injections)
            && UsesFile(config, fs, lang, Locals, d.locals)
            && UsesFile(config, fs, lang, TextObjects, d.textobjects)
            && Some(d.grammarPath)
               == GrammarOf(fs, config.grammarPaths,
                            if lang in config.languages && config.languages[lang].grammar.Some?
                            then config.languages[lang].grammar.value else lang)
  {
    forall file
      ensures UsesFile(config, fs, lang, file, ChosenQuery(config, fs, lang, file))
    {
      QueryComesFrom(fs, config.queryPaths, QueryName(config, lang), file);
    }
  }

  /** The names of the files in a query directory. */
  lemma QueryFilenames(file: QueryFile, name: string)
    requires (file, name) in [(Highlights, "highlights.scm"), (Injections, "injections.scm"),
                              (Locals, "locals.scm"), (TextObjects, "textobjects.scm")]
    ensures Filename(file) == name
  {
  }

  /** A language that only redirects its grammar is found with the grammar and the queries of that other name. */
  lemma RedirectBorrowsBoth(config: Config, fs: FileSystem, lang: string, other: string)
    requires lang in config.languages && config.languages[lang] == LanguageConfig(Some(other), None, map[])
    requires other !in config.languages
    ensures Expected(config, fs, lang) == Expected(config, fs, other)
  {
    forall file
      ensures ChosenQuery(config, fs, lang, file) == ChosenQuery(config, fs, other, file)
    {
    }
  }

  /** With a query redirect as well, the queries come from there and only the grammar from the other name. */
  lemma QueryRedirectWins(config: Config, fs: FileSystem, lang: string, grammar: string, queries: string)
    requires lang in config.languages
    requires config.languages[lang] == LanguageConfig(Some(grammar), Some(queries), map[])
    requires grammar !in config.languages && queries !in config.languages
    requires Expected(config, fs, lang).Some?
    ensures Expected(config, fs, lang).value.grammarPath == GrammarOf(fs, config.grammarPaths, grammar).value
    ensures forall file :: ChosenQuery(config, fs, lang, file) == ChosenQuery(config, fs, queries, file)
  {
  }

  lemma {:induction false} SomeGrammarIff(fs: FileSystem, patterns: seq<Pattern>, lang: string)
    ensures GrammarOf(fs, patterns, lang).Some? <==> exists p :: p in patterns && Offers(fs, p, RegularFile, lang)
  {
    if patterns != [] {
      var n := |patterns| - 1;
      SomeGrammarIff(fs, patterns[..n], lang);
      assert patterns == patterns[..n] + [patterns[n]];
    }
  }

  lemma {:induction false} SomeQueryIff(fs: FileSystem, patterns: seq<Pattern>, lang: string, file: QueryFile)
    ensures QueryOf(fs, patterns, lang, file).Some? <==> exists p :: p in patterns && OffersQuery(fs, p, lang, file)
  {
    if patterns != [] {
      var n := |patterns| - 1;
      SomeQueryIff(fs, patterns[..n], lang, file);
      assert patterns == patterns[..n] + [patterns[n]];
    }
  }

  /** One turn of the loop over the candidates. */
  method Resolve(config: Config, ghost fs: FileSystem, grammars: map<string, Path>, queries: QueryMap, lang: string)
    returns (resolved: Option<DiscoveredLang>)
    requires GrammarsAre(fs, config.grammarPaths, grammars)
    requires QueriesAre(fs, config.queryPaths, queries)
    ensures resolved == Expected(config, fs, lang)
  {
    var grammarPath := LookUp(grammars, GrammarName(config, lang));
    if grammarPath.None? {
      return None;
    }
    var queryName := QueryName(config, lang);
    var highlights := OrElse(OverrideOf(config, lang, Highlights), QueryIn(queries, queryName, Highlights));
    if highlights.None? {
      return None;
    }
    resolved := Some(DiscoveredLang(
      grammarPath.value,
      highlights.value,
      OrElse(OverrideOf(config, lang, Injections), QueryIn(queries, queryName, Injections)),
      OrElse(OverrideOf(config, lang, Locals), QueryIn(queries, queryName, Locals)),
      OrElse(OverrideOf(config, lang, TextObjects), QueryIn(queries, queryName, TextObjects))));
  }

  lemma ExpectedIsACandidate(config: Config, fs: FileSystem, grammars: map<string, Path>, lang: string)
    requires GrammarsAre(fs, config.grammarPaths, grammars)
    requires lang !in grammars && lang !in config.languages
    ensures Expected(config, fs, lang) == None
  {
    assert LookUp(grammars, lang) == GrammarOf(fs, config.grammarPaths, lang);
  }

  ghost predicate Settled(config: Config, fs: FileSystem, discovered: map<string, DiscoveredLang>, lang: string) {
    LookUp(discovered, lang) == Expected(config, fs, lang)
  }

  function Enable(discovered: map<string, DiscoveredLang>, lang: string, resolved: Option<DiscoveredLang>)
    : map<string, DiscoveredLang>
  {
    if resolved.Some? then discovered[lang := resolved.value] else discovered
  }

  lemma EnableSettles(config: Config, fs: FileSystem, discovered: map<string, DiscoveredLang>, lang: string)
    requires lang !in discovered
    ensures var after := Enable(discovered, lang, Expected(config, fs, lang));
            && after.Keys <= discovered.Keys + {lang}
            && Settled(config, fs, after, lang)
            && forall other :: Settled(config, fs, discovered, other) ==> Settled(config, fs, after, other)
  {
    var resolved := Expected(config, fs, lang);
    var after := Enable(discovered, lang, resolved);
    forall other | other != lang && Settled(config, fs, discovered, other)
      ensures Settled(config, fs, after, other)
    {
      assert LookUp(after, other) == LookUp(discovered, other);
    }
  }

  method Discover(config: Config, fs: FileSystem) returns (discovered: map<string, DiscoveredLang>)
    ensures forall lang :: Settled(config, fs, discovered, lang)
  {
    var grammars := DiscoverGrammars(fs, config.grammarPaths);
    var queries := DiscoverQueries(fs, config.queryPaths);
    var candidates := grammars.Keys + queries.Keys + config.languages.Keys;
    discovered := map[];
    var todo := candidates;
    while todo != {}
      invariant todo <= candidates
      invariant discovered.Keys <= candidates - todo
      invariant forall lang :: lang in candidates - todo ==> Settled(config, fs, discovered, lang)
      decreases |todo|
    {
      var lang :| lang in todo;
      todo := todo - {lang};
      var resolved := Resolve(config, fs, grammars, queries, lang);
      EnableSettles(config, fs, discovered, lang);
      discovered := Enable(discovered, lang, resolved);
    }
    forall lang | lang !in candidates
      ensures Settled(config, fs, discovered, lang)
    {
      ExpectedIsACandidate(config, fs, grammars, lang);
    }
  }

  // ---------------------------------------------------------------- order of listings

  /** The same directories with the same entries, listed in any order and any number of times. */
  ghost predicate SameEntries(fs: FileSystem, other: FileSystem) {
    && fs.existing == other.existing
    && fs.listing.Keys == other.listing.Keys
    && forall dir, e :: dir in fs.listing ==> (e in fs.listing[dir] <==> e in other.listing[dir])
  }

  lemma {:induction false} GrammarIgnoresOrder(fs: FileSystem, other: FileSystem, patterns: seq<Pattern>, lang: string)
    requires SameEntries(fs, other)
    ensures GrammarOf(fs, patterns, lang) == GrammarOf(other, patterns, lang)
  {
    if patterns != [] {
      OffersIgnoresOrder(fs, other, patterns[|patterns| - 1], RegularFile, lang);
      GrammarIgnoresOrder(fs, other, patterns[..|patterns| - 1], lang);
    }
  }

  lemma OffersIgnoresOrder(fs: FileSystem, other: FileSystem, pattern: Pattern, kind: Kind, lang: string)
    requires SameEntries(fs, other)
    ensures Offers(fs, pattern, kind, lang) == Offers(other, pattern, kind, lang)
  {
  }

  lemma {:induction false} QueryIgnoresOrder(fs: FileSystem, other: FileSystem, patterns: seq<Pattern>,
                                             lang: string, file: QueryFile)
    requires SameEntries(fs, other)
    ensures QueryOf(fs, patterns, lang, file) == QueryOf(other, patterns, lang, file)
  {
    if patterns != [] {
      OffersIgnoresOrder(fs, other, patterns[|patterns| - 1], Directory, lang);
      QueryIgnoresOrder(fs, other, patterns[..|patterns| - 1], lang, file);
    }
  }

  /** The order in which a directory is listed does not reach the result. */
  lemma DiscoveryIgnoresListingOrder(config: Config, fs: FileSystem, other: FileSystem, lang: string)
    requires SameEntries(fs, other)
    ensures Expected(config, fs, lang) == Expected(config, other, lang)
  {
    GrammarIgnoresOrder(fs, other, config.grammarPaths, GrammarName(config, lang));
    forall file
      ensures ChosenQuery(config, fs, lang, file) == ChosenQuery(config, other, lang, file)
    {
      QueryIgnoresOrder(fs, other, config.queryPaths, QueryName(config, lang), file);
    }
  }
}
