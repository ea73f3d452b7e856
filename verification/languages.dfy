/** Languages: loaded on first use, with their grammars cached by the path of the shared object. */
module LanguageCache {
  import opened Options
  import opened StringOrder
  import opened Paths
  import CaptureNames
  import Discovery

  type DiscoveredLang = Discovery.DiscoveredLang

  /**
   * The loader and the file system as a load sees them: the grammar a symbol has in a shared object,
   * and the queries compiled against a grammar.
   */
  datatype Env<!G, !C> = Env(
    open: (string, Path) -> Option<G>,
    compile: (G, DiscoveredLang) -> Option<C>)

  datatype Language<+C> = Language(name: string, id: nat, config: C)

  /** A lazy cell: what it captured before it is forced, what came out of it afterwards. */
  datatype LazyLang<+C> = Pending(disc: DiscoveredLang, id: nat) | Forced(loaded: Option<Language<C>>)

  datatype Error = UnknownLang(lang: string) | TriedLoadingOnceLang(lang: string)

  // ---------------------------------------------------------------- symbols

  function Underscored(s: string): string {
    CaptureNames.Replace(s, {'.', '-'}, '_')
  }

  function StripLibrary(stem: string): string {
    match Discovery.StripPrefix(stem, "libtree-sitter-")
    case Some(rest) => rest
    case None =>
      match Discovery.StripPrefix(stem, "tree-sitter-")
      case Some(rest) => rest
      case None =>
        match Discovery.StripPrefix(stem, "lib")
        case Some(rest) => rest
        case None => stem
  }

  function Symbol(lang: string, path: Path): string {
    match FileStem(path)
    case Some(stem) => Underscored(StripLibrary(stem))
    case None => Underscored(lang)
  }

  /** A grammar file named in one of the usual ways has the symbol of its language, whoever asks for it. */
  lemma ConventionalSymbol(dir: Path, prefix: string, lang: string, asking: string)
    requires prefix in ["libtree-sitter-", "tree-sitter-", "lib", ""] && '/' !in lang
    requires prefix == "lib" ==> !("tree-sitter-" <= lang)
    requires prefix == "" ==> lang != "" && !("tree-sitter-" <= lang) && !("lib" <= lang)
    ensures Symbol(asking, Join(dir, prefix + lang + ".so")) == Underscored(lang)
    ensures forall i :: 0 <= i < |Underscored(lang)| ==> Underscored(lang)[i] != '.' && Underscored(lang)[i] != '-'
  {
    var stem := prefix + lang;
    assert stem + "." + "so" == prefix + lang + ".so";
    JoinedStem(dir, stem, "so");
    assert stem[|prefix|..] == lang;
    if prefix == "tree-sitter-" {
      assert stem[0] == 't' && "libtree-sitter-"[0] == 'l';
    } else if prefix == "lib" {
      assert "tree-sitter-" == "libtree-sitter-"[3..];
      assert stem[0] == 'l' && "tree-sitter-"[0] == 't';
    } else if prefix == "" {
      assert stem == lang;
      assert "libtree-sitter-"[..3] == "lib";
    }
  }

  // ---------------------------------------------------------------- loading without a cache

  function FreshGrammar<G, C>(env: Env<G, C>, lang: string, disc: DiscoveredLang): Option<G> {
    env.open(Symbol(lang, disc.grammarPath), disc.grammarPath)
  }

  function Finish<G, C>(env: Env<G, C>, grammar: G, lang: string, disc: DiscoveredLang, id: nat): Option<Language<C>> {
    match env.compile(grammar, disc)
    case None => None
    case Some(config) => Some(Language(lang, id, config))
  }

  function FreshLoad<G, C>(env: Env<G, C>, lang: string, disc: DiscoveredLang, id: nat): Option<Language<C>> {
    match FreshGrammar(env, lang, disc)
    case None => None
    case Some(grammar) => Finish(env, grammar, lang, disc, id)
  }

  /** Without a cache, a language loads exactly when its grammar opens and its queries compile against that. */
  lemma LoadsIff<G, C>(env: Env<G, C>, lang: string, disc: DiscoveredLang, id: nat, config: C)
    ensures FreshLoad(env, lang, disc, id) == Some(Language(lang, id, config))
            <==> exists grammar ::
                   && env.open(Symbol(lang, disc.grammarPath), disc.grammarPath) == Some(grammar)
                   && env.compile(grammar, disc) == Some(config)
    ensures FreshLoad(env, lang, disc, id).Some? ==> FreshLoad(env, lang, disc, id).value.name == lang
  {
    if FreshGrammar(env, lang, disc).Some? {
      var grammar := FreshGrammar(env, lang, disc).value;
      assert env.open(Symbol(lang, disc.grammarPath), disc.grammarPath) == Some(grammar);
    }
  }

  // ---------------------------------------------------------------- loading with the cache

  /** `loads` is the log of the loads attempted, and `opens` that of the symbols asked for and the paths opened. */
  datatype State<G, C> = State(
    langs: map<string, LazyLang<C>>,
    langIds: seq<string>,
    grammars: map<Path, G>,
    loads: seq<string>,
    opens: seq<(string, Path)>)

  function LoadThrough<G, C>(env: Env<G, C>, grammars: map<Path, G>, lang: string, disc: DiscoveredLang, id: nat)
    : (Option<Language<C>>, map<Path, G>, seq<(string, Path)>)
  {
    var asked := [(Symbol(lang, disc.grammarPath), disc.grammarPath)];
    if disc.grammarPath in grammars then (Finish(env, grammars[disc.grammarPath], lang, disc, id), grammars, [])
    else match FreshGrammar(env, lang, disc)
      case None => (None, grammars, asked)
      case Some(grammar) => (Finish(env, grammar, lang, disc, id), grammars[disc.grammarPath := grammar], asked)
  }

  function Force<G, C>(env: Env<G, C>, s: State<G, C>, lang: string): State<G, C> {
    if lang !in s.langs || s.langs[lang].Forced? then s
    else
      var (loaded, grammars, asked) := LoadThrough(env, s.grammars, lang, s.langs[lang].disc, s.langs[lang].id);
      State(s.langs[lang := Forced(loaded)], s.langIds, grammars, s.loads + [lang], s.opens + asked)
  }

  function Answer<G, C>(s: State<G, C>, lang: string): Result<Language<C>, Error> {
    if lang in s.langs && s.langs[lang].Forced? then
      match s.langs[lang].loaded
      case Some(language) => Ok(language)
      case None => Err(TriedLoadingOnceLang(lang))
    else Err(UnknownLang(lang))
  }

  datatype Request = Get(lang: string) | GetConfig(id: nat)

  function Serve<G, C>(env: Env<G, C>, s: State<G, C>, request: Request): State<G, C> {
    match request
    case Get(lang) => Force(env, s, lang)
    case GetConfig(id) => if id < |s.langIds| then Force(env, s, s.langIds[id]) else s
  }

  function ServeAll<G, C>(env: Env<G, C>, s: State<G, C>, requests: seq<Request>): State<G, C> {
    if requests == [] then s
    else Serve(env, ServeAll(env, s, requests[..|requests| - 1]), requests[|requests| - 1])
  }

  // ---------------------------------------------------------------- the start

  ghost predicate IdsOf(discovered: map<string, DiscoveredLang>, langIds: seq<string>) {
    Sorted(Ascending, langIds) && forall lang :: lang in langIds <==> lang in discovered
  }

  ghost predicate Start<G, C>(discovered: map<string, DiscoveredLang>, s: State<G, C>) {
    && IdsOf(discovered, s.langIds)
    && s.langs.Keys == discovered.Keys
    && (forall i :: 0 <= i < |s.langIds| ==>
          s.langIds[i] in discovered && s.langs[s.langIds[i]] == Pending(discovered[s.langIds[i]], i))
    && s.grammars == map[] && s.loads == [] && s.opens == []
  }

  /** There is one start: the order in which the discovered names were listed is gone. */
  lemma StartIsUnique<G, C>(discovered: map<string, DiscoveredLang>, s: State<G, C>, t: State<G, C>)
    requires Start(discovered, s) && Start(discovered, t)
    ensures s == t
  {
    SortedIsUnique(Ascending, s.langIds, t.langIds);
    forall lang | lang in discovered
      ensures s.langs[lang] == t.langs[lang]
    {
      assert lang in s.langIds;
    }
  }

  // ---------------------------------------------------------------- invariants over all runs

  ghost predicate HasId(s: seq<string>, id: nat, lang: string) {
    id < |s| && s[id] == lang
  }

  ghost predicate CellInv<G, C>(discovered: map<string, DiscoveredLang>, s: State<G, C>, lang: string)
    requires lang in s.langs && lang in discovered
  {
    match s.langs[lang]
    case Pending(disc, id) => disc == discovered[lang] && HasId(s.langIds, id, lang) && lang !in s.loads
    case Forced(loaded) =>
      && lang in s.loads
      && (loaded.Some? ==> loaded.value.name == lang && HasId(s.langIds, loaded.value.id, lang))
  }

  ghost predicate CellsInv<G, C>(discovered: map<string, DiscoveredLang>, s: State<G, C>) {
    && s.langs.Keys == discovered.Keys
    && forall lang :: lang in discovered ==> CellInv(discovered, s, lang)
  }

  ghost predicate OpenedBy<G, C>(env: Env<G, C>, discovered: map<string, DiscoveredLang>,
                                 path: Path, grammar: G, lang: string) {
    && lang in discovered && discovered[lang].grammarPath == path
    && FreshGrammar(env, lang, discovered[lang]) == Some(grammar)
  }

  ghost predicate CacheInv<G, C>(env: Env<G, C>, discovered: map<string, DiscoveredLang>, grammars: map<Path, G>) {
    forall path :: path in grammars ==> exists lang :: OpenedBy(env, discovered, path, grammars[path], lang)
  }

  ghost predicate Inv<G, C>(env: Env<G, C>, discovered: map<string, DiscoveredLang>, s: State<G, C>) {
    && IdsOf(discovered, s.langIds)
    && CellsInv(discovered, s)
    && CacheInv(env, discovered, s.grammars)
    && Distinct(s.loads)
    && OpensInv(env, s.grammars, s.opens)
  }

  /** What was opened successfully is in the cache, and nothing is opened again after that. */
  ghost predicate OpensInv<G, C>(env: Env<G, C>, grammars: map<Path, G>, opens: seq<(string, Path)>) {
    && (forall i :: 0 <= i < |opens| && env.open(opens[i].0, opens[i].1).Some? ==> opens[i].1 in grammars)
    && (forall i, j :: 0 <= i < j < |opens| && opens[i].1 == opens[j].1 ==>
          env.open(opens[i].0, opens[i].1).None?)
  }

  lemma StartInv<G, C>(env: Env<G, C>, discovered: map<string, DiscoveredLang>, s: State<G, C>)
    requires Start(discovered, s)
    ensures Inv(env, discovered, s)
  {
    forall lang | lang in discovered
      ensures CellInv(discovered, s, lang)
    {
      assert lang in s.langIds;
    }
  }

  lemma ForceKeepsInv<G, C>(env: Env<G, C>, discovered: map<string, DiscoveredLang>, s: State<G, C>, lang: string)
    requires Inv(env, discovered, s)
    ensures Inv(env, discovered, Force(env, s, lang))
  {
    if lang in s.langs && s.langs[lang].Pending? {
      forall other | other in discovered
        ensures CellInv(discovered, Force(env, s, lang), other)
      {
        ForceKeepsCell(env, discovered, s, lang, other);
      }
      assert CellInv(discovered, s, lang);
      LoadKeepsCacheInv(env, discovered, s.grammars, lang, s.langs[lang].id);
      LoadKeepsOpensInv(env, s.grammars, s.opens, lang, s.langs[lang].disc, s.langs[lang].id);
    }
  }

  lemma LoadKeepsOpensInv<G, C>(env: Env<G, C>, grammars: map<Path, G>, opens: seq<(string, Path)>,
                                lang: string, disc: DiscoveredLang, id: nat)
    requires OpensInv(env, grammars, opens)
    ensures var (_, grammars', asked) := LoadThrough(env, grammars, lang, disc, id);
            OpensInv(env, grammars', opens + asked)
  {
  }

  lemma ForceKeepsCell<G, C>(env: Env<G, C>, discovered: map<string, DiscoveredLang>, s: State<G, C>,
                             lang: string, other: string)
    requires s.langs.Keys == discovered.Keys && lang in discovered && other in discovered
    requires CellInv(discovered, s, lang) && CellInv(discovered, s, other)
    ensures CellInv(discovered, Force(env, s, lang), other)
  {
  }

  lemma LoadKeepsCacheInv<G, C>(env: Env<G, C>, discovered: map<string, DiscoveredLang>, grammars: map<Path, G>,
                                lang: string, id: nat)
    requires CacheInv(env, discovered, grammars) && lang in discovered
    ensures CacheInv(env, discovered, LoadThrough(env, grammars, lang, discovered[lang], id).1)
  {
    var after := LoadThrough(env, grammars, lang, discovered[lang], id).1;
    forall path | path in after
      ensures exists owner :: OpenedBy(env, discovered, path, after[path], owner)
    {
      if path in grammars {
        var owner :| OpenedBy(env, discovered, path, grammars[path], owner);
        assert OpenedBy(env, discovered, path, after[path], owner);
      } else {
        assert OpenedBy(env, discovered, path, after[path], lang);
      }
    }
  }

  lemma {:induction false} RunInv<G, C>(env: Env<G, C>, discovered: map<string, DiscoveredLang>,
                                        start: State<G, C>, requests: seq<Request>)
    requires Start(discovered, start)
    ensures Inv(env, discovered, ServeAll(env, start, requests))
    ensures ServeAll(env, start, requests).langIds == start.langIds
  {
    if requests == [] {
      StartInv(env, discovered, start);
    } else {
      var n := |requests| - 1;
      RunInv(env, discovered, start, requests[..n]);
      ServeKeepsInv(env, discovered, ServeAll(env, start, requests[..n]), requests[n]);
    }
  }

  lemma ServeKeepsInv<G, C>(env: Env<G, C>, discovered: map<string, DiscoveredLang>, s: State<G, C>, request: Request)
    requires Inv(env, discovered, s)
    ensures Inv(env, discovered, Serve(env, s, request)) && Serve(env, s, request).langIds == s.langIds
  {
    match request
    case Get(lang) => ForceKeepsInv(env, discovered, s, lang);
    case GetConfig(id) =>
      if id < |s.langIds| {
        ForceKeepsInv(env, discovered, s, s.langIds[id]);
      }
  }

  /** Whatever is asked, and however often, no language is loaded twice; a failed one is not tried again. */
  lemma LoadedAtMostOnce<G, C>(env: Env<G, C>, discovered: map<string, DiscoveredLang>,
                               start: State<G, C>, requests: seq<Request>, lang: string)
    requires Start(discovered, start)
    ensures multiset(ServeAll(env, start, requests).loads)[lang] <= 1
  {
    RunInv(env, discovered, start, requests);
    DistinctCounts(ServeAll(env, start, requests).loads, lang);
  }

  /** A shared object that was opened once is never opened again, however many languages share it. */
  lemma OpenedAtMostOnce<G, C>(env: Env<G, C>, discovered: map<string, DiscoveredLang>,
                               start: State<G, C>, requests: seq<Request>, i: nat, j: nat)
    requires Start(discovered, start)
    requires i < j < |ServeAll(env, start, requests).opens|
    ensures var opens := ServeAll(env, start, requests).opens;
            opens[i].1 == opens[j].1 ==> env.open(opens[i].0, opens[i].1) == None
  {
    RunInv(env, discovered, start, requests);
  }

  lemma {:induction false} DistinctCounts(s: seq<string>, x: string)
    requires Distinct(s)
    ensures multiset(s)[x] <= 1
  {
    if s != [] {
      var n := |s| - 1;
      assert s == s[..n] + [s[n]];
      DistinctCounts(s[..n], x);
      if x == s[n] {
        assert forall i :: 0 <= i < n ==> s[..n][i] != x;
        assert x !in s[..n];
      }
    }
  }

  function ConfigOf<G, C>(s: State<G, C>, id: nat): Option<C> {
    if id < |s.langIds| then
      match Answer(s, s.langIds[id])
      case Ok(language) => Some(language.config)
      case Err(_) => None
    else None
  }

  /** Asking by index is asking for the language of that index; an index out of range answers nothing. */
  lemma GetConfigIsGet<G, C>(env: Env<G, C>, s: State<G, C>, id: nat)
    ensures if id < |s.langIds| then
              && Serve(env, s, GetConfig(id)) == Serve(env, s, Get(s.langIds[id]))
              && (ConfigOf(Serve(env, s, GetConfig(id)), id).Some?
                  <==> Answer(Serve(env, s, Get(s.langIds[id])), s.langIds[id]).Ok?)
            else
              Serve(env, s, GetConfig(id)) == s && ConfigOf(s, id) == None
  {
  }

  /** A language that was handed out carries the index under which its own configuration is found. */
  lemma ConfigIsItsOwn<G, C>(env: Env<G, C>, discovered: map<string, DiscoveredLang>,
                             start: State<G, C>, requests: seq<Request>, lang: string)
    requires Start(discovered, start)
    requires Answer(ServeAll(env, start, requests), lang).Ok?
    ensures var s := ServeAll(env, start, requests);
            var language := Answer(s, lang).value;
            language.name == lang && ConfigOf(s, language.id) == Some(language.config)
  {
    RunInv(env, discovered, start, requests);
    var s := ServeAll(env, start, requests);
    assert CellInv(discovered, s, lang);
  }

  // ---------------------------------------------------------------- transparency

  /** Languages that share a shared object ask it for the same symbol. */
  ghost predicate SymbolsAgree(discovered: map<string, DiscoveredLang>) {
    forall a, b :: a in discovered && b in discovered && discovered[a].grammarPath == discovered[b].grammarPath ==>
      Symbol(a, discovered[a].grammarPath) == Symbol(b, discovered[b].grammarPath)
  }

  /** They do when stems can be read, and otherwise exactly when the names differ in punctuation at most. */
  lemma SymbolsAgreeIff(discovered: map<string, DiscoveredLang>)
    ensures SymbolsAgree(discovered)
            <==> forall a, b :: a in discovered && b in discovered
                   && discovered[a].grammarPath == discovered[b].grammarPath
                   && FileStem(discovered[a].grammarPath).None?
                   ==> Underscored(a) == Underscored(b)
  {
  }

  ghost predicate CellIsFresh<G, C>(env: Env<G, C>, discovered: map<string, DiscoveredLang>,
                                    s: State<G, C>, lang: string)
    requires lang in s.langs && lang in discovered
  {
    s.langs[lang].Forced? ==>
      exists id :: HasId(s.langIds, id, lang) && s.langs[lang].loaded == FreshLoad(env, lang, discovered[lang], id)
  }

  ghost predicate AllFresh<G, C>(env: Env<G, C>, discovered: map<string, DiscoveredLang>, s: State<G, C>)
    requires Inv(env, discovered, s)
  {
    forall lang :: lang in discovered ==> CellIsFresh(env, discovered, s, lang)
  }

  lemma ForceKeepsFresh<G, C>(env: Env<G, C>, discovered: map<string, DiscoveredLang>, s: State<G, C>, lang: string)
    requires Inv(env, discovered, s) && AllFresh(env, discovered, s) && SymbolsAgree(discovered)
    ensures Inv(env, discovered, Force(env, s, lang)) && AllFresh(env, discovered, Force(env, s, lang))
  {
    ForceKeepsInv(env, discovered, s, lang);
    var t := Force(env, s, lang);
    forall other | other in discovered
      ensures CellIsFresh(env, discovered, t, other)
    {
      assert CellIsFresh(env, discovered, s, other);
      if other == lang && s.langs[lang].Pending? {
        assert CellInv(discovered, s, lang);
        CachedIsFresh(env, discovered, s.grammars, lang, s.langs[lang].id);
        assert HasId(t.langIds, s.langs[lang].id, lang);
      }
    }
  }

  lemma CachedIsFresh<G, C>(env: Env<G, C>, discovered: map<string, DiscoveredLang>, grammars: map<Path, G>,
                            lang: string, id: nat)
    requires CacheInv(env, discovered, grammars) && lang in discovered && SymbolsAgree(discovered)
    ensures LoadThrough(env, grammars, lang, discovered[lang], id).0 == FreshLoad(env, lang, discovered[lang], id)
  {
    var path := discovered[lang].grammarPath;
    if path in grammars {
      var owner :| OpenedBy(env, discovered, path, grammars[path], owner);
      assert FreshGrammar(env, lang, discovered[lang]) == Some(grammars[path]);
    }
  }

  lemma StartIsFresh<G, C>(env: Env<G, C>, discovered: map<string, DiscoveredLang>, s: State<G, C>)
    requires Start(discovered, s) && Inv(env, discovered, s)
    ensures AllFresh(env, discovered, s)
  {
    forall lang | lang in discovered
      ensures CellIsFresh(env, discovered, s, lang)
    {
      assert lang in s.langIds;
    }
  }

  lemma {:induction false} RunIsFresh<G, C>(env: Env<G, C>, discovered: map<string, DiscoveredLang>,
                                            start: State<G, C>, requests: seq<Request>)
    requires Start(discovered, start) && SymbolsAgree(discovered)
    ensures Inv(env, discovered, ServeAll(env, start, requests))
    ensures AllFresh(env, discovered, ServeAll(env, start, requests))
  {
    if requests == [] {
      StartInv(env, discovered, start);
      StartIsFresh(env, discovered, start);
    } else {
      var n := |requests| - 1;
      RunIsFresh(env, discovered, start, requests[..n]);
      ServeKeepsFresh(env, discovered, ServeAll(env, start, requests[..n]), requests[n]);
    }
  }

  lemma ServeKeepsFresh<G, C>(env: Env<G, C>, discovered: map<string, DiscoveredLang>, s: State<G, C>, request: Request)
    requires Inv(env, discovered, s) && AllFresh(env, discovered, s) && SymbolsAgree(discovered)
    ensures Inv(env, discovered, Serve(env, s, request)) && AllFresh(env, discovered, Serve(env, s, request))
  {
    match request
    case Get(lang) => ForceKeepsFresh(env, discovered, s, lang);
    case GetConfig(id) =>
      if id < |s.langIds| {
        ForceKeepsFresh(env, discovered, s, s.langIds[id]);
      }
  }

  function IdOf(langIds: seq<string>, lang: string): (id: nat)
    requires lang in langIds
    ensures HasId(langIds, id, lang)
  {
    if langIds[0] == lang then 0 else IdOf(langIds[1..], lang) + 1
  }

  /** What a request for a language answers when every load opens its grammar anew. */
  ghost function Uncached<G, C>(env: Env<G, C>, discovered: map<string, DiscoveredLang>, langIds: seq<string>,
                                lang: string): Result<Language<C>, Error>
    requires IdsOf(discovered, langIds)
  {
    if lang !in discovered then Err(UnknownLang(lang))
    else
      match FreshLoad(env, lang, discovered[lang], IdOf(langIds, lang))
      case Some(language) => Ok(language)
      case None => Err(TriedLoadingOnceLang(lang))
  }

  lemma IdIsUnique(langIds: seq<string>, i: nat, j: nat, lang: string)
    requires Sorted(Ascending, langIds) && HasId(langIds, i, lang) && HasId(langIds, j, lang)
    ensures i == j
  {
    SortedIsDistinct(Ascending, langIds);
  }

  /** After any requests, a language is answered as if there were no cache. */
  ghost predicate Transparent<G, C>(env: Env<G, C>, discovered: map<string, DiscoveredLang>,
                                    start: State<G, C>, requests: seq<Request>, lang: string)
    requires IdsOf(discovered, start.langIds)
  {
    Answer(ServeAll(env, start, requests + [Get(lang)]), lang) == Uncached(env, discovered, start.langIds, lang)
  }

  lemma CacheIsTransparent<G, C>(env: Env<G, C>, discovered: map<string, DiscoveredLang>,
                                 start: State<G, C>, requests: seq<Request>, lang: string)
    requires Start(discovered, start) && SymbolsAgree(discovered)
    ensures Transparent(env, discovered, start, requests, lang)
  {
    var all := requests + [Get(lang)];
    assert all[..|all| - 1] == requests;
    RunIsFresh(env, discovered, start, all);
    RunInv(env, discovered, start, all);
    assert ServeAll(env, start, all) == Force(env, ServeAll(env, start, requests), lang);
    ForcedAnswersFresh(env, discovered, ServeAll(env, start, requests), start.langIds, lang);
  }

  lemma ForcedAnswersFresh<G, C>(env: Env<G, C>, discovered: map<string, DiscoveredLang>, before: State<G, C>,
                                 langIds: seq<string>, lang: string)
    requires Inv(env, discovered, Force(env, before, lang)) && AllFresh(env, discovered, Force(env, before, lang))
    requires Force(env, before, lang).langIds == langIds && IdsOf(discovered, langIds)
    ensures Answer(Force(env, before, lang), lang) == Uncached(env, discovered, langIds, lang)
  {
    var s := Force(env, before, lang);
    if lang in discovered {
      assert CellIsFresh(env, discovered, s, lang);
      assert s.langs[lang].Forced?;
      var id :| HasId(langIds, id, lang) && s.langs[lang].loaded == FreshLoad(env, lang, discovered[lang], id);
      IdIsUnique(langIds, id, IdOf(langIds, lang), lang);
    }
  }

  /**
   * The cache is transparent. For the languages that discovery returns, whatever is on disk, in the
   * configuration and in the shared objects, every language is answered as if each load opened its grammar.
   */
  lemma DiscoveredIsTransparent<G, C>(env: Env<G, C>, config: Discovery.Config, fs: Discovery.FileSystem,
                                      discovered: map<string, DiscoveredLang>,
                                      start: State<G, C>, requests: seq<Request>, lang: string)
    requires Discovery.RealNames(fs)
    requires forall name :: Discovery.Settled(config, fs, discovered, name)
    requires Start(discovered, start)
    ensures Transparent(env, discovered, start, requests, lang)
  {
    forall name | name in discovered
      ensures FileStem(discovered[name].grammarPath).Some?
    {
      assert Discovery.Settled(config, fs, discovered, name);
      Discovery.GrammarHasStem(fs, config.grammarPaths, Discovery.GrammarName(config, name));
    }
    SymbolsAgreeIff(discovered);
    CacheIsTransparent(env, discovered, start, requests, lang);
  }

  // What would happen to languages that discovery does not return: ones whose path has no stem to read.

  /** The loader that tells symbols apart: the grammar is the symbol, and so is the configuration. */
  function NamingEnv(): Env<string, string> {
    Env((symbol: string, path: Path) => Some(symbol), (grammar: string, disc: DiscoveredLang) => Some(grammar))
  }

  /** With two languages that disagree on a symbol, the one asked for second would get the grammar of the first. */
  lemma SecondGetsTheFirstOnesGrammar(discovered: map<string, DiscoveredLang>, start: State<string, string>,
                                      a: string, b: string)
    requires Start(discovered, start)
    requires a in discovered && b in discovered && discovered[a].grammarPath == discovered[b].grammarPath
    requires Symbol(a, discovered[a].grammarPath) != Symbol(b, discovered[b].grammarPath)
    ensures !Transparent(NamingEnv(), discovered, start, [Get(a)], b)
  {
    var env := NamingEnv();
    var requests := [Get(a)] + [Get(b)];
    assert a in start.langIds && b in start.langIds;
    assert requests[..1] == [Get(a)] && [Get(a)][..0] == [];
    assert ServeAll(env, start, [Get(a)]) == Force(env, start, a);
    var s := Force(env, start, a);
    assert ServeAll(env, start, requests) == Force(env, s, b);
    assert s.grammars[discovered[b].grammarPath] == Symbol(a, discovered[a].grammarPath);
    assert Answer(Force(env, s, b), b).value.config == Symbol(a, discovered[a].grammarPath);
    assert Uncached(env, discovered, start.langIds, b).value.config == Symbol(b, discovered[b].grammarPath);
  }

  /** For a map of languages from anywhere, symbols agreeing is exactly what transparency needs. */
  lemma TransparentIffSymbolsAgree(discovered: map<string, DiscoveredLang>, start: State<string, string>)
    requires Start(discovered, start)
    ensures SymbolsAgree(discovered)
            <==> forall requests, lang :: Transparent(NamingEnv(), discovered, start, requests, lang)
  {
    if SymbolsAgree(discovered) {
      forall requests, lang
        ensures Transparent(NamingEnv(), discovered, start, requests, lang)
      {
        CacheIsTransparent(NamingEnv(), discovered, start, requests, lang);
      }
    } else {
      var a, b :| a in discovered && b in discovered && discovered[a].grammarPath == discovered[b].grammarPath
        && Symbol(a, discovered[a].grammarPath) != Symbol(b, discovered[b].grammarPath);
      SecondGetsTheFirstOnesGrammar(discovered, start, a, b);
    }
  }

  // ---------------------------------------------------------------- the object

  method SortedNames(discovered: map<string, DiscoveredLang>) returns (sorted: seq<string>)
    ensures IdsOf(discovered, sorted)
  {
    var names := [];
    var todo := discovered.Keys;
    while todo != {}
      invariant todo <= discovered.Keys
      invariant forall name :: name in names <==> name in discovered && name !in todo
      invariant Distinct(names)
      decreases |todo|
    {
      var name :| name in todo;
      ghost var before := names;
      names := names + [name];
      forall other
        ensures other in names <==> other in before || other == name
      {
        assert names[|before|] == name;
        assert forall i :: 0 <= i < |before| ==> names[i] == before[i];
      }
      todo := todo - {name};
    }
    sorted := Sort(Ascending, names);
    SortSorts(Ascending, names);
    forall name
      ensures name in sorted <==> name in discovered
    {
      SortHolds(Ascending, names, name);
    }
  }

  /** Each name takes its entry out of the map of discovered languages. */
  method Cells<C>(discovered: map<string, DiscoveredLang>, names: seq<string>) returns (langs: map<string, LazyLang<C>>)
    requires IdsOf(discovered, names)
    ensures langs.Keys == discovered.Keys
    ensures forall i :: 0 <= i < |names| ==>
              names[i] in discovered && langs[names[i]] == Pending(discovered[names[i]], i)
  {
    SortedIsDistinct(Ascending, names);
    langs := map[];
    var left := discovered;
    for i := 0 to |names|
      invariant forall j :: i <= j < |names| ==> names[j] in left
      invariant forall name :: name in left ==> name in discovered && left[name] == discovered[name]
      invariant langs.Keys <= discovered.Keys
      invariant forall j :: 0 <= j < i ==>
                  names[j] in langs && names[j] in discovered && langs[names[j]] == Pending(discovered[names[j]], j)
    {
      var name := names[i];
      var disc := left[name];
      left := left - {name};
      langs := langs[name := Pending(disc, i)];
    }
    forall name | name in discovered
      ensures name in langs
    {
      assert name in names;
    }
  }

  class Languages<G, C> {
    const env: Env<G, C>
    var langs: map<string, LazyLang<C>>
    var langIds: seq<string>
    var grammars: map<Path, G>
    var loads: seq<string>
    var opens: seq<(string, Path)>

    function Value(): State<G, C>
      reads this
    {
      State(langs, langIds, grammars, loads, opens)
    }

    constructor (env: Env<G, C>, discovered: map<string, DiscoveredLang>)
      ensures this.env == env
      ensures Start(discovered, Value())
    {
      this.env := env;
      langs, langIds, grammars, loads, opens := map[], [], map[], [], [];
      new;
      var names := SortedNames(discovered);
      langs := Cells(discovered, names);
      langIds := names;
    }

    method LoadLang(lang: string, disc: DiscoveredLang, id: nat) returns (loaded: Option<Language<C>>)
      modifies `grammars, `loads, `opens
      ensures var (result, cache, asked) := LoadThrough(env, old(grammars), lang, disc, id);
              loaded == result && grammars == cache && opens == old(opens) + asked
      ensures loads == old(loads) + [lang]
    {
      loads := loads + [lang];
      var symbol := Symbol(lang, disc.grammarPath);
      var grammar;
      if disc.grammarPath in grammars {
        grammar := grammars[disc.grammarPath];
      } else {
        var found := env.open(symbol, disc.grammarPath);
        opens := opens + [(symbol, disc.grammarPath)];
        if found.None? {
          return None;
        }
        grammar := found.value;
        grammars := grammars[disc.grammarPath := grammar];
      }
      var config := env.compile(grammar, disc);
      if config.None? {
        return None;
      }
      loaded := Some(Language(lang, id, config.value));
    }

    method Get(lang: string) returns (answer: Result<Language<C>, Error>)
      modifies this
      ensures Value() == Force(env, old(Value()), lang)
      ensures answer == Answer(Value(), lang)
    {
      if lang !in langs {
        return Err(UnknownLang(lang));
      }
      if langs[lang].Pending? {
        var loaded := LoadLang(lang, langs[lang].disc, langs[lang].id);
        langs := langs[lang := Forced(loaded)];
      }
      match langs[lang].loaded
      case Some(language) => answer := Ok(language);
      case None => answer := Err(TriedLoadingOnceLang(lang));
    }

    method GetConfig(id: nat) returns (config: Option<C>)
      modifies this
      ensures Value() == Serve(env, old(Value()), Request.GetConfig(id))
      ensures config == ConfigOf(Value(), id)
    {
      if |langIds| <= id {
        return None;
      }
      var answer := Get(langIds[id]);
      match answer
      case Ok(language) => config := Some(language.config);
      case Err(_) => config := None;
    }
  }
}
