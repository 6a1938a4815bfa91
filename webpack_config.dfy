/**
  The decisions the webpack configuration of `cli-service` takes from the
  build flags and the project configuration: the output file names, the
  public path, the source-map mode, the chain of style loaders, which rules
  the `oneOf` list keeps, and which HTML pages are generated. The plugins and
  loaders themselves are foreign libraries; each is represented by the
  options the configuration hands it.
 */
module WebpackConfig {

  import opened Wrappers
  import opened Strings
  import opened Dicts
  import ClientEnv

  /** The flags webpack passes in `webpackEnv`; the code reads them independently. */
  datatype BuildEnv = BuildEnv(development: bool, production: bool)

  // ---------------------------------------------------------------------------
  // Output names, public path and source maps

  const UnhashedName: string := "[name]"
  const HashedName: string := "[name].[contenthash:5]"

  /** `outputFilename`: the chunk name, followed by a content hash unless building for development or hashing is off. */
  function OutputFilename(env: BuildEnv, filenameHashing: bool): (name: string)
    ensures StartsWith(name, UnhashedName)
    ensures name == UnhashedName <==> env.development || !filenameHashing
    ensures name != UnhashedName ==> name == HashedName
  {
    if env.development || !filenameHashing then UnhashedName else HashedName
  }

  /** `publicPath`: `/` in development, otherwise `publicUrl` with a `/` appended when it does not end with one. */
  function PublicPath(env: BuildEnv, publicUrl: string): (path: string)
    ensures EndsWith(path, "/")
    ensures env.development ==> path == "/"
    ensures !env.development ==> StartsWith(path, publicUrl) && |path| <= |publicUrl| + 1
    ensures !env.development && EndsWith(publicUrl, "/") ==> path == publicUrl
  {
    if env.development then "/"
    else if EndsWith(publicUrl, "/") then publicUrl
    else
      var path := publicUrl + "/";
      assert path[..|publicUrl|] == publicUrl;
      path
  }

  /** Normalising a public path a second time changes nothing. */
  lemma PublicPathIdempotent(env: BuildEnv, publicUrl: string)
    ensures PublicPath(BuildEnv(false, env.production), PublicPath(env, publicUrl)) == PublicPath(env, publicUrl)
  {
  }

  /** The `PUBLIC_URL` the browser bundle sees always ends with `/`, whatever `publicUrl` says. */
  lemma ClientPublicUrlEndsWithSlash(env: BuildEnv, publicUrl: string, vars: Dict<string>)
    requires vars.Valid()
    ensures var client := ClientEnv.GetClientEnvironment(vars, PublicPath(env, publicUrl));
      EndsWith(client.raw.vals[ClientEnv.PublicUrlKey], "/")
  {
    ClientEnv.PublicUrlKept(vars, PublicPath(env, publicUrl));
  }

  /** The `devtool` setting; `false` turns source maps off. */
  datatype Devtool = Eval | SourceMap | NoDevtool

  /** `devtool`: `eval` in development, full source maps when `sourceMap` is set, none otherwise. */
  function DevtoolOf(env: BuildEnv, sourceMap: bool): (d: Devtool)
    ensures d == Eval <==> env.development
    ensures d == SourceMap <==> !env.development && sourceMap
    ensures d == NoDevtool <==> !env.development && !sourceMap
  {
    if env.development then Eval else if sourceMap then SourceMap else NoDevtool
  }

  // ---------------------------------------------------------------------------
  // The style-loader chain

  /** A value inside a loader's `options` object. */
  datatype LoaderOption = Flag(bool) | Text(string)

  /** The second argument of `getStyleLoaders`: a loader name and its options. */
  datatype PreProcessor = PreProcessor(loader: string, options: map<string, LoaderOption>)

  /** A loader of the chain, with the options the configuration sets. */
  datatype Loader =
    | StyleLoader
    | ExtractLoader
    | CssLoader(importLoaders: nat, sourceMap: bool, modules: Option<string>)
    | PostcssLoader(sourceMap: bool)
    | ResolveUrlLoader
    | PreProcessorLoader(loader: string, options: map<string, LoaderOption>)

  /** The class-name pattern of CSS modules. */
  const LocalIdentName: string := "[folder]-[local]__[hash:base64:5]"

  /** The options of the preprocessor: `sourceMap`, then the given options, which win. */
  function PreProcessorOptions(env: BuildEnv, sourceMap: bool, pre: PreProcessor): (options: map<string, LoaderOption>)
    ensures options.Keys == pre.options.Keys + {"sourceMap"}
    ensures forall k :: k in pre.options ==> options[k] == pre.options[k]
    ensures "sourceMap" !in pre.options ==> options["sourceMap"] == Flag(env.production && sourceMap)
  {
    map["sourceMap" := Flag(env.production && sourceMap)] + pre.options
  }

  /**
    The chain `getStyleLoaders({modules}, preProcessor)` returns: the
    injecting or extracting loader, `css-loader`, `postcss-loader`,
    `resolve-url-loader` and the preprocessor, if any, last.
   */
  function StyleLoaderChain(env: BuildEnv, sourceMap: bool, modules: bool, pre: Option<PreProcessor>): (loaders: seq<Loader>)
    ensures |loaders| == if pre.Some? then 5 else 4
    ensures loaders[1].CssLoader?
  {
    var base := FixedLoaders(env, sourceMap, modules, pre.Some?);
    match pre
    case None => base
    case Some(p) => base + [PreProcessorLoader(p.loader, PreProcessorOptions(env, sourceMap, p))]
  }

  /** The array literal of `getStyleLoaders`: the four loaders every chain starts with. */
  function FixedLoaders(env: BuildEnv, sourceMap: bool, modules: bool, hasPre: bool): (loaders: seq<Loader>)
    ensures |loaders| == 4
  {
    var mapped := env.production && sourceMap;
    [
      if env.development then StyleLoader else ExtractLoader,
      CssLoader(if hasPre then 3 else 2, mapped, if modules then Some(LocalIdentName) else None),
      PostcssLoader(mapped),
      ResolveUrlLoader
    ]
  }

  /** `getStyleLoaders`: the fixed four loaders, and the preprocessor pushed after them when there is one. */
  method StyleLoaders(env: BuildEnv, sourceMap: bool, modules: bool, pre: Option<PreProcessor>) returns (loaders: seq<Loader>)
    ensures loaders == StyleLoaderChain(env, sourceMap, modules, pre)
  {
    loaders := FixedLoaders(env, sourceMap, modules, pre.Some?);
    if pre.Some? {
      loaders := loaders + [PreProcessorLoader(pre.value.loader, PreProcessorOptions(env, sourceMap, pre.value))];
    }
  }

  /** `css-loader` is second, and its `importLoaders` counts exactly the loaders that follow it. */
  lemma ImportLoadersCountsFollowers(env: BuildEnv, sourceMap: bool, modules: bool, pre: Option<PreProcessor>)
    ensures var loaders := StyleLoaderChain(env, sourceMap, modules, pre);
      loaders[1].importLoaders == |loaders| - 2
      && (pre.None? ==> loaders[1].importLoaders == 2)
      && (pre.Some? ==> loaders[1].importLoaders == 3)
  {
  }

  /** The chain's order: CSS is injected in development and extracted otherwise; the preprocessor runs first, as the last loader. */
  lemma StyleLoaderOrder(env: BuildEnv, sourceMap: bool, modules: bool, pre: Option<PreProcessor>)
    ensures var loaders := StyleLoaderChain(env, sourceMap, modules, pre);
      && (loaders[0] == StyleLoader <==> env.development)
      && (loaders[0] == ExtractLoader <==> !env.development)
      && loaders[2] == PostcssLoader(env.production && sourceMap)
      && loaders[3] == ResolveUrlLoader
      && (pre.Some? ==> loaders[4].PreProcessorLoader? && loaders[4].loader == pre.value.loader)
      && (loaders[1].modules.Some? <==> modules)
  {
  }

  /** Source maps are produced by every loader exactly in a production build with `sourceMap` set. */
  lemma StyleSourceMaps(env: BuildEnv, sourceMap: bool, modules: bool, pre: Option<PreProcessor>)
    requires pre.Some? ==> "sourceMap" !in pre.value.options
    ensures var loaders := StyleLoaderChain(env, sourceMap, modules, pre);
      && loaders[1].sourceMap == (env.production && sourceMap)
      && loaders[2].sourceMap == (env.production && sourceMap)
      && (pre.Some? ==> loaders[4].options["sourceMap"] == Flag(env.production && sourceMap))
  {
  }

  // ---------------------------------------------------------------------------
  // The `oneOf` rules

  /** The regular expressions of the style rules. */
  datatype StylePattern = CssFiles | CssModuleFiles | SassFiles | SassModuleFiles

  /**
    A rule of the `oneOf` list. A style rule holds the arguments its `use`
    passes to `getStyleLoaders`; `Use` gives the chain.
   */
  datatype Rule =
    | BabelRule
    | StyleRule(test: StylePattern, exclude: Option<StylePattern>, modules: bool, pre: Option<PreProcessor>)
    | UrlRule(limit: Option<nat>)
    | FileRule

  /** The sass preprocessor, with the user's `css.loaderOptions.sass`, if any. */
  function SassLoader(sassOptions: Option<map<string, LoaderOption>>): PreProcessor {
    PreProcessor("sass-loader", sassOptions.GetOr(map[]))
  }

  /** The rule for `.css` files, which leaves `.module.css` files alone unless `css.modules` is on. */
  function CssRule(env: BuildEnv, sourceMap: bool, cssModules: bool): Rule {
    StyleRule(CssFiles, if !cssModules then Some(CssModuleFiles) else None, cssModules, None)
  }

  /** The rule for `.module.css` files, always compiled as CSS modules. */
  function CssModuleRule(env: BuildEnv, sourceMap: bool): Rule {
    StyleRule(CssModuleFiles, None, true, None)
  }

  /** The rule for `.scss` and `.sass` files, which leaves module files alone unless `css.modules` is on. */
  function SassRule(env: BuildEnv, sourceMap: bool, cssModules: bool, sassOptions: Option<map<string, LoaderOption>>): Rule {
    StyleRule(SassFiles, if !cssModules then Some(SassModuleFiles) else None, cssModules, Some(SassLoader(sassOptions)))
  }

  /** The rule for `.module.scss` and `.module.sass` files, always compiled as CSS modules. */
  function SassModuleRule(env: BuildEnv, sourceMap: bool, sassOptions: Option<map<string, LoaderOption>>): Rule {
    StyleRule(SassModuleFiles, None, true, Some(SassLoader(sassOptions)))
  }

  /** The image rule: inlined up to 10000 bytes in production, never inlined otherwise. */
  function ImageRule(env: BuildEnv): Rule {
    UrlRule(if env.production then Some(10000) else None)
  }

  /** The array literal of `oneOf`, with the `!css.modules && {...}` entries that evaluate to `false` as `None`. */
  function OneOfEntries(env: BuildEnv, sourceMap: bool, cssModules: bool, sassOptions: Option<map<string, LoaderOption>>): seq<Option<Rule>> {
    [
      Some(BabelRule),
      Some(CssRule(env, sourceMap, cssModules)),
      if !cssModules then Some(CssModuleRule(env, sourceMap)) else None,
      Some(SassRule(env, sourceMap, cssModules, sassOptions)),
      if !cssModules then Some(SassModuleRule(env, sourceMap, sassOptions)) else None,
      Some(ImageRule(env)),
      Some(FileRule)
    ]
  }

  /** `.filter(Boolean)`: the entries that are rules, in their order. */
  function Present(entries: seq<Option<Rule>>): (rules: seq<Rule>)
    ensures |rules| <= |entries|
  {
    if entries == [] then []
    else
      var rest := Present(entries[1..]);
      match entries[0]
      case None => rest
      case Some(r) => [r] + rest
  }

  /** The loaders a style rule uses. */
  function Use(env: BuildEnv, sourceMap: bool, rule: Rule): seq<Loader>
    requires rule.StyleRule?
  {
    StyleLoaderChain(env, sourceMap, rule.modules, rule.pre)
  }

  /** The rules of `oneOf`. */
  function OneOfRules(env: BuildEnv, sourceMap: bool, cssModules: bool, sassOptions: Option<map<string, LoaderOption>>): seq<Rule> {
    Present(OneOfEntries(env, sourceMap, cssModules, sassOptions))
  }

  /** The filter keeps a rule in the first entry, then filters the rest. */
  lemma {:induction false} PresentKeep(r: Rule, rest: seq<Option<Rule>>)
    ensures Present([Some(r)] + rest) == [r] + Present(rest)
  {
    assert ([Some(r)] + rest)[1..] == rest;
  }

  /** The filter drops a `false` first entry, then filters the rest. */
  lemma {:induction false} PresentSkip(rest: seq<Option<Rule>>)
    ensures Present([None] + rest) == Present(rest)
  {
    assert ([None] + rest)[1..] == rest;
  }

  /** The filter over the last two entries of `oneOf`. */
  lemma PresentTail(image: Rule)
    ensures Present([Some(image), Some(FileRule)]) == [image, FileRule]
  {
    PresentKeep(FileRule, []);
    PresentKeep(image, [Some(FileRule)]);
    assert [Some(image), Some(FileRule)] == [Some(image)] + [Some(FileRule)];
  }

  /** With `css.modules` on, the two module-only entries are `false` and dropped. */
  lemma OneOfRulesWithModules(env: BuildEnv, sourceMap: bool, sassOptions: Option<map<string, LoaderOption>>)
    ensures var css, sass, image := CssRule(env, sourceMap, true), SassRule(env, sourceMap, true, sassOptions), ImageRule(env);
      OneOfRules(env, sourceMap, true, sassOptions) == [BabelRule, css, sass, image, FileRule]
  {
    var css, sass, image := CssRule(env, sourceMap, true), SassRule(env, sourceMap, true, sassOptions), ImageRule(env);
    var t5 := [Some(image), Some(FileRule)];
    var t4 := [None] + t5;
    var t3 := [Some(sass)] + t4;
    var t2 := [None] + t3;
    var t1 := [Some(css)] + t2;
    var t0 := [Some(BabelRule)] + t1;
    assert OneOfEntries(env, sourceMap, true, sassOptions) == t0;
    PresentTail(image);
    PresentSkip(t5);
    PresentKeep(sass, t4);
    assert Present(t3) == [sass, image, FileRule];
    PresentSkip(t3);
    PresentKeep(css, t2);
    assert Present(t1) == [css, sass, image, FileRule];
    PresentKeep(BabelRule, t1);
  }

  /** With `css.modules` off, each module rule follows its general rule. */
  lemma OneOfRulesWithoutModules(env: BuildEnv, sourceMap: bool, sassOptions: Option<map<string, LoaderOption>>)
    ensures var css, sass, image := CssRule(env, sourceMap, false), SassRule(env, sourceMap, false, sassOptions), ImageRule(env);
      OneOfRules(env, sourceMap, false, sassOptions) ==
        [BabelRule, css, CssModuleRule(env, sourceMap), sass, SassModuleRule(env, sourceMap, sassOptions), image, FileRule]
  {
    var css, sass, image := CssRule(env, sourceMap, false), SassRule(env, sourceMap, false, sassOptions), ImageRule(env);
    var sassModule, cssModule := SassModuleRule(env, sourceMap, sassOptions), CssModuleRule(env, sourceMap);
    var t5 := [Some(image), Some(FileRule)];
    var t4 := [Some(sassModule)] + t5;
    var t3 := [Some(sass)] + t4;
    var t2 := [Some(cssModule)] + t3;
    var t1 := [Some(css)] + t2;
    var t0 := [Some(BabelRule)] + t1;
    assert OneOfEntries(env, sourceMap, false, sassOptions) == t0;
    PresentTail(image);
    PresentKeep(sassModule, t5);
    assert Present(t4) == [sassModule, image, FileRule];
    PresentKeep(sass, t4);
    assert Present(t3) == [sass, sassModule, image, FileRule];
    PresentKeep(cssModule, t3);
    assert Present(t2) == [cssModule, sass, sassModule, image, FileRule];
    PresentKeep(css, t2);
    assert Present(t1) == [css, cssModule, sass, sassModule, image, FileRule];
    PresentKeep(BabelRule, t1);
    assert Present(t0) == [BabelRule, css, cssModule, sass, sassModule, image, FileRule];
  }

  /**
    The rules in order: with `css.modules` on, the module-only rules are
    dropped; with it off, each follows its general rule.
   */
  lemma OneOfRulesInOrder(env: BuildEnv, sourceMap: bool, cssModules: bool, sassOptions: Option<map<string, LoaderOption>>)
    ensures var css, sass, image := CssRule(env, sourceMap, cssModules), SassRule(env, sourceMap, cssModules, sassOptions), ImageRule(env);
      OneOfRules(env, sourceMap, cssModules, sassOptions) ==
        if cssModules then [BabelRule, css, sass, image, FileRule]
        else [BabelRule, css, CssModuleRule(env, sourceMap), sass, SassModuleRule(env, sourceMap, sassOptions), image, FileRule]
  {
    if cssModules {
      OneOfRulesWithModules(env, sourceMap, sassOptions);
    } else {
      OneOfRulesWithoutModules(env, sourceMap, sassOptions);
    }
  }

  /** The rules of `oneOf`, position by position. */
  lemma RulesAt(env: BuildEnv, sourceMap: bool, cssModules: bool, sassOptions: Option<map<string, LoaderOption>>)
    ensures var rules := OneOfRules(env, sourceMap, cssModules, sassOptions);
      && |rules| == (if cssModules then 5 else 7)
      && rules[0] == BabelRule && rules[1] == CssRule(env, sourceMap, cssModules)
      && (cssModules ==> rules[2] == SassRule(env, sourceMap, cssModules, sassOptions))
      && (!cssModules ==>
            && rules[2] == CssModuleRule(env, sourceMap)
            && rules[3] == SassRule(env, sourceMap, cssModules, sassOptions)
            && rules[4] == SassModuleRule(env, sourceMap, sassOptions))
  {
    OneOfRulesInOrder(env, sourceMap, cssModules, sassOptions);
  }

  /**
    With `css.modules` on, the general CSS and Sass rules compile every file
    as a module and no module-only rule is left; with it off, the general
    rules exclude module files.
   */
  lemma ModuleRulesDropped(env: BuildEnv, sourceMap: bool, cssModules: bool, sassOptions: Option<map<string, LoaderOption>>)
    ensures var rules := OneOfRules(env, sourceMap, cssModules, sassOptions);
      && |rules| == (if cssModules then 5 else 7)
      && (cssModules <==> forall r :: r in rules && r.StyleRule? ==> r.test == CssFiles || r.test == SassFiles)
      && (forall r :: r in rules && r.StyleRule? && (r.test == CssFiles || r.test == SassFiles) ==>
            (r.exclude.None? <==> cssModules) && (Use(env, sourceMap, r)[1].modules.Some? <==> cssModules))
  {
    OneOfRulesInOrder(env, sourceMap, cssModules, sassOptions);
    if !cssModules {
      assert OneOfRules(env, sourceMap, cssModules, sassOptions)[2] == CssModuleRule(env, sourceMap);
    }
  }

  // ---------------------------------------------------------------------------
  // Which rule a file meets

  /** A module file webpack resolves: its name and whether it lies under the application's `src` directory. */
  datatype Resource = Resource(name: string, inAppSrc: bool)

  predicate IsCssName(name: string) { EndsWith(name, ".css") }
  predicate IsCssModuleName(name: string) { EndsWith(name, ".module.css") }
  predicate IsSassName(name: string) { EndsWith(name, ".scss") || EndsWith(name, ".sass") }
  predicate IsSassModuleName(name: string) { EndsWith(name, ".module.scss") || EndsWith(name, ".module.sass") }

  predicate TestsStyle(p: StylePattern, name: string) {
    match p
    case CssFiles => IsCssName(name)
    case CssModuleFiles => IsCssModuleName(name)
    case SassFiles => IsSassName(name)
    case SassModuleFiles => IsSassModuleName(name)
  }

  /** The names `file-loader` leaves to the other tools. */
  predicate IsCodeName(name: string) {
    || EndsWith(name, ".js") || EndsWith(name, ".mjs") || EndsWith(name, ".jsx")
    || EndsWith(name, ".ts") || EndsWith(name, ".tsx") || EndsWith(name, ".html") || EndsWith(name, ".json")
  }

  /** A rule's `test`, `include` and `exclude` conditions all hold for the file. */
  predicate Matches(rule: Rule, file: Resource) {
    match rule
    case BabelRule => (EndsWith(file.name, ".js") || EndsWith(file.name, ".jsx")) && file.inAppSrc
    case StyleRule(test, exclude, _, _) =>
      TestsStyle(test, file.name) && !(exclude.Some? && TestsStyle(exclude.value, file.name))
    case UrlRule(_) =>
      || EndsWith(file.name, ".jpg") || EndsWith(file.name, ".jpeg")
      || EndsWith(file.name, ".png") || EndsWith(file.name, ".gif")
    case FileRule => !IsCodeName(file.name)
  }

  /** `oneOf`: the first rule the file meets. */
  function FirstMatch(rules: seq<Rule>, file: Resource): (r: Option<Rule>)
    ensures r.Some? ==> r.value in rules && Matches(r.value, file)
    ensures r.None? ==> forall rule :: rule in rules ==> !Matches(rule, file)
  {
    if rules == [] then None
    else if Matches(rules[0], file) then Some(rules[0])
    else FirstMatch(rules[1..], file)
  }

  /** The first rule a file meets is the one after all those it misses. */
  lemma {:induction false} FirstMatchAt(rules: seq<Rule>, file: Resource, k: nat)
    requires k < |rules| && Matches(rules[k], file)
    requires forall j :: 0 <= j < k ==> !Matches(rules[j], file)
    ensures FirstMatch(rules, file) == Some(rules[k])
  {
    if k > 0 {
      assert forall j :: 0 <= j < k - 1 ==> rules[1..][j] == rules[j + 1];
      FirstMatchAt(rules[1..], file, k - 1);
    }
  }

  /** The file meets none of the first `k` rules, written out rule by rule. */
  predicate MissesBefore(rules: seq<Rule>, file: Resource, k: nat)
    requires k <= |rules|
  {
    k == 0 || (!Matches(rules[k - 1], file) && MissesBefore(rules, file, k - 1))
  }

  /** `MissesBefore` says that no rule before position `k` matches. */
  lemma {:induction false} MissesBeforeAll(rules: seq<Rule>, file: Resource, k: nat)
    requires k <= |rules|
    ensures MissesBefore(rules, file, k) <==> forall j :: 0 <= j < k ==> !Matches(rules[j], file)
  {
    if k > 0 {
      MissesBeforeAll(rules, file, k - 1);
    }
  }

  /** The first rule a file meets, when the rules before it are each known to miss. */
  lemma {:induction false} FirstMatchAfterMisses(rules: seq<Rule>, file: Resource, k: nat)
    requires k < |rules| && Matches(rules[k], file) && MissesBefore(rules, file, k)
    ensures FirstMatch(rules, file) == Some(rules[k])
  {
    MissesBeforeAll(rules, file, k);
    FirstMatchAt(rules, file, k);
  }

  /**
    A file that meets none of the other rules is taken by `file-loader`,
    unless it is a script, a page or JSON, which then no rule takes.
   */
  lemma {:induction false} FileRuleTakesTheRest(env: BuildEnv, sourceMap: bool, cssModules: bool,
                                                 sassOptions: Option<map<string, LoaderOption>>, file: Resource)
    requires forall j :: 0 <= j < |OneOfRules(env, sourceMap, cssModules, sassOptions)| - 1 ==>
      !Matches(OneOfRules(env, sourceMap, cssModules, sassOptions)[j], file)
    ensures FirstMatch(OneOfRules(env, sourceMap, cssModules, sassOptions), file) ==
      if IsCodeName(file.name) then None else Some(FileRule)
  {
    OneOfRulesInOrder(env, sourceMap, cssModules, sassOptions);
    var rules := OneOfRules(env, sourceMap, cssModules, sassOptions);
    var n := |rules| - 1;
    assert rules[n] == FileRule;
    if IsCodeName(file.name) {
      assert forall j :: 0 <= j < |rules| ==> !Matches(rules[j], file);
    } else {
      MissesBeforeAll(rules, file, n);
      FirstMatchAfterMisses(rules, file, n);
    }
  }

  /** The last characters of a name that ends with `p`. */
  lemma SuffixAt(s: string, p: string, i: nat)
    requires i < |p|
    ensures EndsWith(s, p) ==> s[|s| - |p| + i] == p[i]
  {
    if EndsWith(s, p) {
      assert s[|s| - |p|..][i] == p[i];
    }
  }

  /** A `.css` file is no script; `babel-loader` never takes it. */
  lemma CssIsNoScript(name: string)
    requires IsCssName(name)
    ensures !EndsWith(name, ".js") && !EndsWith(name, ".jsx")
  {
    SuffixAt(name, ".css", 2);
    SuffixAt(name, ".css", 3);
    SuffixAt(name, ".js", 1);
    SuffixAt(name, ".jsx", 3);
  }

  /** A `.module.css` name is a `.css` name. */
  lemma ModuleCssIsCss(name: string)
    ensures IsCssModuleName(name) ==> IsCssName(name)
  {
    if IsCssModuleName(name) {
      var n := |name|;
      assert name[n - 4..] == name[n - 11..][7..];
    }
  }

  /** A file named `*.module.css` is always compiled as a CSS module, whether `css.modules` is on or off. */
  lemma {:induction false} ModuleCssUsesModules(env: BuildEnv, sourceMap: bool, cssModules: bool, sassOptions: Option<map<string, LoaderOption>>, file: Resource)
    requires IsCssModuleName(file.name)
    ensures var m := FirstMatch(OneOfRules(env, sourceMap, cssModules, sassOptions), file);
      m.Some? && m.value.StyleRule? && Use(env, sourceMap, m.value) == StyleLoaderChain(env, sourceMap, true, None)
  {
    ModuleCssIsCss(file.name);
    CssIsNoScript(file.name);
    RulesAt(env, sourceMap, cssModules, sassOptions);
    var rules := OneOfRules(env, sourceMap, cssModules, sassOptions);
    assert !Matches(rules[0], file);
    if cssModules {
      FirstMatchAfterMisses(rules, file, 1);
    } else {
      assert !Matches(rules[1], file) && Matches(rules[2], file);
      FirstMatchAfterMisses(rules, file, 2);
    }
  }

  /** Any other `.css` file uses CSS modules exactly when `css.modules` is on. */
  lemma {:induction false} PlainCssFollowsFlag(env: BuildEnv, sourceMap: bool, cssModules: bool, sassOptions: Option<map<string, LoaderOption>>, file: Resource)
    requires IsCssName(file.name) && !IsCssModuleName(file.name)
    ensures var m := FirstMatch(OneOfRules(env, sourceMap, cssModules, sassOptions), file);
      m.Some? && m.value.StyleRule? && Use(env, sourceMap, m.value) == StyleLoaderChain(env, sourceMap, cssModules, None)
  {
    CssIsNoScript(file.name);
    RulesAt(env, sourceMap, cssModules, sassOptions);
    var rules := OneOfRules(env, sourceMap, cssModules, sassOptions);
    assert !Matches(rules[0], file) && Matches(rules[1], file);
    FirstMatchAfterMisses(rules, file, 1);
  }

  /** A Sass file is neither a script nor a `.css` file. */
  lemma SassIsNoScriptOrCss(name: string)
    requires IsSassName(name)
    ensures !EndsWith(name, ".js") && !EndsWith(name, ".jsx") && !IsCssName(name) && !IsCssModuleName(name)
  {
    SuffixAt(name, ".scss", 1);
    SuffixAt(name, ".scss", 4);
    SuffixAt(name, ".sass", 1);
    SuffixAt(name, ".sass", 4);
    SuffixAt(name, ".js", 1);
    SuffixAt(name, ".jsx", 3);
    SuffixAt(name, ".css", 0);
    ModuleCssIsCss(name);
  }

  /** A `.module.scss` or `.module.sass` name is a Sass name. */
  lemma ModuleSassIsSass(name: string)
    requires IsSassModuleName(name)
    ensures IsSassName(name)
  {
    var n := |name|;
    assert name[n - 5..] == name[n - 12..][7..];
  }

  /** A file named `*.module.scss` or `*.module.sass` is always compiled as a CSS module, with the Sass loader last. */
  lemma {:induction false} ModuleSassUsesModules(env: BuildEnv, sourceMap: bool, cssModules: bool, sassOptions: Option<map<string, LoaderOption>>, file: Resource)
    requires IsSassModuleName(file.name)
    ensures var m := FirstMatch(OneOfRules(env, sourceMap, cssModules, sassOptions), file);
      m.Some? && m.value.StyleRule?
      && Use(env, sourceMap, m.value) == StyleLoaderChain(env, sourceMap, true, Some(SassLoader(sassOptions)))
  {
    ModuleSassIsSass(file.name);
    SassIsNoScriptOrCss(file.name);
    RulesAt(env, sourceMap, cssModules, sassOptions);
    var rules := OneOfRules(env, sourceMap, cssModules, sassOptions);
    assert !Matches(rules[0], file) && !Matches(rules[1], file);
    if cssModules {
      FirstMatchAfterMisses(rules, file, 2);
    } else {
      assert MissesBefore(rules, file, 2);
      assert !Matches(rules[2], file) && !Matches(rules[3], file) && Matches(rules[4], file);
      FirstMatchAfterMisses(rules, file, 4);
    }
  }

  /** Any other Sass file uses CSS modules exactly when `css.modules` is on. */
  lemma {:induction false} PlainSassFollowsFlag(env: BuildEnv, sourceMap: bool, cssModules: bool, sassOptions: Option<map<string, LoaderOption>>, file: Resource)
    requires IsSassName(file.name) && !IsSassModuleName(file.name)
    ensures var m := FirstMatch(OneOfRules(env, sourceMap, cssModules, sassOptions), file);
      m.Some? && m.value.StyleRule?
      && Use(env, sourceMap, m.value) == StyleLoaderChain(env, sourceMap, cssModules, Some(SassLoader(sassOptions)))
  {
    SassIsNoScriptOrCss(file.name);
    RulesAt(env, sourceMap, cssModules, sassOptions);
    var rules := OneOfRules(env, sourceMap, cssModules, sassOptions);
    assert !Matches(rules[0], file) && !Matches(rules[1], file);
    if cssModules {
      FirstMatchAfterMisses(rules, file, 2);
    } else {
      assert MissesBefore(rules, file, 2);
      assert !Matches(rules[2], file) && Matches(rules[3], file);
      FirstMatchAfterMisses(rules, file, 3);
    }
  }

  // ---------------------------------------------------------------------------
  // HTML pages

  /** The page names that become `index.html`. */
  const IndexPageNames: seq<string> := ["index", "main", "home", "homepage"]

  /** The default page template, `public/index.html`. */
  const DefaultTemplate: string := "index.html"

  /**
    An `HtmlWebpackPlugin`: the page it writes (`None` for its default), the
    file under `public/` it starts from, and the chunks it includes (`None`
    for all).
   */
  datatype HtmlPlugin = HtmlPlugin(filename: Option<string>, template: string, chunks: Option<seq<string>>)

  /** The page a chunk is written to. */
  function HtmlFilename(chunk: string): (filename: string)
    ensures filename == DefaultTemplate <==> chunk in IndexPageNames
    ensures chunk !in IndexPageNames ==> filename == chunk + ".html"
  {
    if chunk in IndexPageNames then DefaultTemplate
    else
      var filename := chunk + ".html";
      assert filename[..|chunk|] == chunk;
      assert DefaultTemplate[..5] == "index";
      filename
  }

  /** The plugin of a page whose entry exists: its own template under `public/` when there is one, else the default. */
  function PagePlugin(chunk: string, templateExists: string -> bool): (p: HtmlPlugin)
    ensures p.filename == Some(HtmlFilename(chunk)) && p.chunks == Some([chunk])
    ensures templateExists(HtmlFilename(chunk)) ==> p.template == HtmlFilename(chunk)
    ensures !templateExists(HtmlFilename(chunk)) ==> p.template == DefaultTemplate
  {
    var filename := HtmlFilename(chunk);
    HtmlPlugin(Some(filename), if templateExists(filename) then filename else DefaultTemplate, Some([chunk]))
  }

  /** The page names whose entry file is missing. */
  function MissingEntries(pages: map<string, string>, entryExists: string -> bool): set<string> {
    set c | c in pages && !entryExists(pages[c])
  }

  /** The pages among `chunks` whose entry file exists, in their order. */
  function ExistingChunks(chunks: seq<string>, pages: map<string, string>, entryExists: string -> bool): (kept: seq<string>)
    requires forall j :: 0 <= j < |chunks| ==> chunks[j] in pages
    ensures forall c :: c in kept <==> c in chunks && entryExists(pages[c])
    ensures |kept| <= |chunks|
    ensures kept == Without(chunks, MissingEntries(pages, entryExists))
    decreases |chunks|
  {
    if chunks == [] then []
    else
      var init, last := chunks[..|chunks| - 1], chunks[|chunks| - 1];
      assert forall j :: 0 <= j < |init| ==> init[j] == chunks[j];
      assert forall c :: c in chunks <==> c in init || c == last;
      assert chunks == init + [last];
      WithoutAppend(init, [last], MissingEntries(pages, entryExists));
      ExistingChunks(init, pages, entryExists) + (if entryExists(pages[last]) then [last] else [])
  }

  /** The plugins the `reduce` over the page names accumulates. */
  function PagePlugins(chunks: seq<string>, pages: map<string, string>, entryExists: string -> bool,
                       templateExists: string -> bool): (plugins: seq<HtmlPlugin>)
    requires forall j :: 0 <= j < |chunks| ==> chunks[j] in pages
    decreases |chunks|
  {
    if chunks == [] then []
    else
      var init, last := chunks[..|chunks| - 1], chunks[|chunks| - 1];
      assert forall j :: 0 <= j < |init| ==> init[j] == chunks[j];
      PagePlugins(init, pages, entryExists, templateExists)
        + (if entryExists(pages[last]) then [PagePlugin(last, templateExists)] else [])
  }

  /** One plugin per page whose entry exists, in the order of the page names. */
  lemma {:induction false} PagePluginsOfExisting(chunks: seq<string>, pages: map<string, string>,
                                                  entryExists: string -> bool, templateExists: string -> bool)
    requires forall j :: 0 <= j < |chunks| ==> chunks[j] in pages
    ensures var plugins, kept := PagePlugins(chunks, pages, entryExists, templateExists), ExistingChunks(chunks, pages, entryExists);
      |plugins| == |kept| && forall j :: 0 <= j < |kept| ==> plugins[j] == PagePlugin(kept[j], templateExists)
    decreases |chunks|
  {
    if chunks != [] {
      var init := chunks[..|chunks| - 1];
      assert forall j :: 0 <= j < |init| ==> init[j] == chunks[j];
      PagePluginsOfExisting(init, pages, entryExists, templateExists);
    }
  }

  /**
    `getHtmlWebpackPlugins`: with no `pages`, one plugin from the default
    template; otherwise one plugin per page whose entry file exists.
    `entryExists` tells whether a page's entry path resolves to a file and
    `templateExists` whether `public/` holds a file of that name.
   */
  method HtmlWebpackPlugins(pages: Option<Dict<string>>, entryExists: string -> bool, templateExists: string -> bool)
    returns (plugins: seq<HtmlPlugin>)
    requires pages.Some? ==> pages.value.Valid()
    ensures pages.None? ==> plugins == [HtmlPlugin(None, DefaultTemplate, None)]
    ensures pages.Some? ==> plugins == PagePlugins(pages.value.keys, pages.value.vals, entryExists, templateExists)
  {
    if pages.None? {
      return [HtmlPlugin(None, DefaultTemplate, None)];
    }
    var chunks := pages.value.keys;
    plugins := [];
    var i := 0;
    while i < |chunks|
      invariant 0 <= i <= |chunks|
      invariant plugins == PagePlugins(chunks[..i], pages.value.vals, entryExists, templateExists)
    {
      var chunk := chunks[i];
      assert chunks[..i + 1][..i] == chunks[..i];
      if entryExists(pages.value.vals[chunk]) {
        var filename := if chunk in IndexPageNames then DefaultTemplate else chunk + ".html";
        var template := filename;
        if !templateExists(template) {
          template := DefaultTemplate;
        }
        plugins := plugins + [HtmlPlugin(Some(filename), template, Some([chunk]))];
      }
      i := i + 1;
    }
    assert chunks[..i] == chunks;
  }
}
