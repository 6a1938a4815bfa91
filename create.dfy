/**
  `hammal create <name>`, without its I/O: the project and package names
  derived from `<name>`, the flags read from the chosen template's record, the
  repository the template is downloaded from, and the rewrite of the
  template's `package.json` before it is written back.
 */
module Create {

  import opened Wrappers
  import opened Dicts
  import opened Strings
  import opened TemplateHelper

  // ---------------------------------------------------------------------------
  // Project and package names

  /** `s` without its trailing `/` characters. */
  function TrimTrailingSlashes(s: string): (r: string)
    ensures |r| <= |s| && r == s[..|r|]
    ensures forall i :: |r| <= i < |s| ==> s[i] == '/'
    ensures r == [] || r[|r| - 1] != '/'
    decreases |s|
  {
    if s != [] && s[|s| - 1] == '/' then TrimTrailingSlashes(s[..|s| - 1]) else s
  }

  /** The part of `s` after its last `/` (all of `s` when it has none). */
  function LastSegment(s: string): (r: string)
    ensures |r| <= |s| && r == s[|s| - |r|..]
    ensures '/' !in r
    ensures |r| == |s| || s[|s| - |r| - 1] == '/'
    decreases |s|
  {
    if s == [] || s[|s| - 1] == '/' then []
    else
      var r := LastSegment(s[..|s| - 1]) + [s[|s| - 1]];
      assert s[..|s| - 1][|s| - |r|..] + [s[|s| - 1]] == s[|s| - |r|..];
      r
  }

  /** `path.basename(path.resolve(name))`: the last non-empty segment of `name`. */
  function ProjectName(name: string): string {
    LastSegment(TrimTrailingSlashes(name))
  }

  /** The directory `dir/seg` (with any number of trailing slashes) is named `seg`. */
  lemma ProjectNameOfPath(dir: string, seg: string, trail: string)
    requires dir == [] || dir[|dir| - 1] == '/'
    requires seg != [] && '/' !in seg
    requires forall i :: 0 <= i < |trail| ==> trail[i] == '/'
    ensures ProjectName(dir + seg + trail) == seg
  {
    var s := dir + seg + trail;
    var t := TrimTrailingSlashes(s);
    assert s[|dir + seg| - 1] == seg[|seg| - 1] != '/';
    assert forall i :: |dir + seg| <= i < |s| ==> s[i] == trail[i - |dir + seg|];
    assert forall i :: 0 <= i < |t| ==> t[i] == s[i];
    assert |t| == |dir + seg|;
    assert t == dir + seg;
    var r := LastSegment(t);
    assert forall i :: |dir| <= i < |t| ==> t[i] == seg[i - |dir|];
    assert dir != [] ==> t[|dir| - 1] == '/';
    assert forall j :: 0 <= j < |r| ==> r[j] == t[|t| - |r| + j];
    assert |r| == |seg|;
    assert t[|t| - |r|..] == seg;
  }

  /**
    `/^@[^\/]+\/(.+)$/`: an `@`, a non-empty scope up to the first `/`, then
    a non-empty rest without line terminators (what `.+` cannot match).
   */
  predicate IsScoped(name: string) {
    |name| >= 1 && name[0] == '@' &&
    match IndexOf(name, '/', 1)
    case None => false
    case Some(slash) => slash >= 2 && slash + 1 < |name| && NoLineTerminator(name[slash + 1..])
  }

  /** Every `@scope/rest` with a non-empty scope free of `/` passes the test. */
  lemma ScopedAccepted(scope: string, rest: string)
    requires scope != [] && '/' !in scope
    requires rest != [] && NoLineTerminator(rest)
    ensures IsScoped("@" + scope + "/" + rest)
  {
    var name := "@" + scope + "/" + rest;
    var slash := |scope| + 1;
    forall k | 1 <= k < slash ensures name[k] != '/' {
      assert name[k] == scope[k - 1];
    }
    assert name[slash] == '/';
    assert IndexOf(name, '/', 1) == Some(slash);
    assert name[slash + 1..] == rest;
  }

  /** Every name that passes the test is `@scope/rest` with such parts. */
  lemma ScopedDecomposed(name: string) returns (scope: string, rest: string)
    requires IsScoped(name)
    ensures scope != [] && '/' !in scope
    ensures rest != [] && NoLineTerminator(rest)
    ensures name == "@" + scope + "/" + rest
  {
    var slash := IndexOf(name, '/', 1).value;
    scope, rest := name[1..slash], name[slash + 1..];
    forall k | 0 <= k < |scope| ensures scope[k] != '/' {
      assert scope[k] == name[k + 1];
    }
    assert name == name[..1] + name[1..slash] + [name[slash]] + name[slash + 1..];
  }

  /** The `name` field of the new project: a scoped name whole, otherwise the project name. */
  function PkgName(name: string): string {
    if IsScoped(name) then name else ProjectName(name)
  }

  /** A scoped package keeps its whole name, `/` and all. */
  lemma ScopedPkgName(scope: string, rest: string)
    requires scope != [] && '/' !in scope
    requires rest != [] && NoLineTerminator(rest)
    ensures PkgName("@" + scope + "/" + rest) == "@" + scope + "/" + rest
  {
    ScopedAccepted(scope, rest);
  }

  /** A name that does not start with `@` is named after its last segment. */
  lemma PlainPkgName(dir: string, seg: string, trail: string)
    requires dir == [] || dir[|dir| - 1] == '/'
    requires seg != [] && '/' !in seg
    requires forall i :: 0 <= i < |trail| ==> trail[i] == '/'
    requires (dir + seg)[0] != '@'
    ensures PkgName(dir + seg + trail) == seg
  {
    assert (dir + seg + trail)[0] == (dir + seg)[0];
    ProjectNameOfPath(dir, seg, trail);
  }

  // ---------------------------------------------------------------------------
  // The chosen template

  /** The fields `create` destructures from the template's record, defaults applied. */
  datatype Config = Config(url: string, custom: bool, hasService: bool, isLibrary: bool)

  /** `const { url, custom = false, hasService = false, isLibrary = false } = record`. */
  function FindConfig(t: Template): (c: Config)
    ensures c.url == t.url
    ensures c.custom <==> t.custom == Some(true)
    ensures c.hasService <==> t.hasService == Some(true)
    ensures c.isLibrary <==> t.isLibrary == Some(true)
  {
    Config(t.url, t.custom.GetOr(false), t.hasService.GetOr(false), t.isLibrary.GetOr(false))
  }

  /** What `download-git-repo` is asked for: the repository and whether to clone it. */
  datatype Download = Download(repository: string, clone: bool)

  function DownloadOf(c: Config): (d: Download)
    ensures d.clone == c.custom
    ensures d.repository == "direct:" + c.url <==> c.custom
    ensures !c.custom ==> d.repository == c.url
  {
    Download(if c.custom then "direct:" + c.url else c.url, c.custom)
  }

  /** A template only the user registered is cloned from its exact URL. */
  lemma CustomTemplateCloned(builtins: Dict<Template>, custom: Dict<Template>, name: string)
    requires builtins.Valid() && custom.Valid()
    requires name in custom.vals && name !in builtins.vals
    ensures name in Registry(builtins, custom).vals
    ensures DownloadOf(FindConfig(Registry(builtins, custom).vals[name])) == Download("direct:" + custom.vals[name].url, true)
  {
    CustomOnlyMarked(builtins, custom, name);
  }

  /** A built-in template that is not itself marked custom is downloaded by its shorthand, whatever the user stored under its name. */
  lemma BuiltinTemplateDownloaded(builtins: Dict<Template>, custom: Dict<Template>, name: string)
    requires builtins.Valid() && custom.Valid()
    requires name in builtins.vals && builtins.vals[name].custom != Some(true)
    ensures name in Registry(builtins, custom).vals
    ensures DownloadOf(FindConfig(Registry(builtins, custom).vals[name])) == Download(builtins.vals[name].url, false)
  {
    BuiltinWins(builtins, custom, name);
  }

  // ---------------------------------------------------------------------------
  // The manifest

  /** A JSON value as `require` reads it from `package.json`. Numbers are integers here. */
  datatype Json = JNull | JBool(b: bool) | JNumber(n: int) | JString(s: string) | JArray(items: seq<Json>) | JObject(fields: Dict<Json>)

  /** The `browserslist` every new project gets. */
  const DefaultBrowsers: Json := JObject(Dict(["production", "development"], map[
    "production" := JArray([JString("> 1%"), JString("last 2 versions")]),
    "development" := JArray([JString("last 1 chrome version"), JString("last 1 firefox version"), JString("last 1 safari version")])]))

  const PublicAccess: Json := JObject(Dict(["access"], map["access" := JString("public")]))

  /** What the rewrite depends on besides the manifest itself. */
  datatype Options = Options(
    pkgName: string,
    projectName: string,
    template: string,
    isScoped: bool,
    isLibrary: bool,
    eslint: bool,
    didGitInit: bool,
    author: string)

  /**
    The options of `create <name>`: the package name, the project name and
    the scoped test computed from the argument, then the template, its
    `isLibrary` flag, the eslint answer, whether `git init` ran and the author.
   */
  function CliOptions(name: string, template: string, isLibrary: bool, eslint: bool, didGitInit: bool, author: string): (opts: Options)
    ensures opts.isScoped == IsScoped(name)
    ensures opts.isScoped ==> opts.pkgName == name
    ensures !opts.isScoped ==> opts.pkgName == opts.projectName
    ensures '/' !in opts.projectName
    ensures opts.template == template && opts.isLibrary == isLibrary && opts.eslint == eslint
    ensures opts.didGitInit == didGitInit && opts.author == author
  {
    Options(PkgName(name), ProjectName(name), template, IsScoped(name), isLibrary, eslint, didGitInit, author)
  }

  /** The exception the rewrite can throw: `devDependencies` is `undefined` or `null`. */
  datatype PatchError = DevDependenciesMissing

  /** The fields the rewrite may write or delete; every other field is carried over. */
  const PatchedFields: set<string> := {
    "name", "version", "private", "browserslist", "author", "main", "module", "style",
    "publishConfig", "eslintConfig", "lint-staged", "husky", "devDependencies" }

  /** The field names the rewrite touches are pairwise different (they differ in their first letters or lengths). */
  lemma FieldNamesDistinct()
    ensures "private" != "author" && "private" != "main" && "private" != "module" && "private" != "style"
    ensures "private" != "publishConfig" && "author" != "main" && "author" != "module" && "author" != "style"
    ensures "author" != "publishConfig" && "main" != "module" && "main" != "style" && "main" != "publishConfig"
    ensures "module" != "style" && "module" != "publishConfig" && "style" != "publishConfig"
    ensures "eslintConfig" != "devDependencies" && "lint-staged" != "husky" && "lint-staged" != "devDependencies"
    ensures "husky" != "devDependencies" && "name" != "main" && "version" != "private" && "style" != "husky"
    ensures "browserslist" != "eslintConfig"
  {
    assert "private"[0] == 'p' && "author"[0] == 'a' && "main"[0] == 'm' && "module"[1] == 'o' && "main"[1] == 'a';
    assert "style"[0] == 's' && "publishConfig"[1] == 'u' && "eslintConfig"[0] == 'e' && "devDependencies"[0] == 'd';
    assert "lint-staged"[0] == 'l' && "husky"[0] == 'h' && "name"[0] == 'n' && "version"[0] == 'v';
    assert "browserslist"[0] == 'b';
  }

  /** The manifest holds `devDependencies` as something `Object.keys` accepts. */
  predicate HasDevDependencies(fields: map<string, Json>) {
    "devDependencies" in fields && fields["devDependencies"] != JNull
  }

  /** An object under `devDependencies` is itself well formed. */
  ghost predicate DevDependenciesValid(fields: map<string, Json>) {
    "devDependencies" in fields && fields["devDependencies"].JObject? ==> fields["devDependencies"].fields.Valid()
  }

  /** The development dependencies to drop: those naming eslint, when eslint is off, and the git hooks tools, when they go. */
  function DroppedDependencies(deps: Dict<Json>, opts: Options): (names: set<string>)
    ensures forall k :: k in names <==> (k in deps.vals &&
      ((!opts.eslint && Contains(k, "eslint")) || ((!opts.eslint || !opts.didGitInit) && (k == "lint-staged" || k == "husky"))))
  {
    set k | k in deps.vals &&
      ((!opts.eslint && Contains(k, "eslint")) || ((!opts.eslint || !opts.didGitInit) && (k == "lint-staged" || k == "husky")))
  }

  /** The `devDependencies` field once pruned; anything but an object is left as it is. */
  function PrunedDevDependencies(v: Json, opts: Options): Json
    requires v.JObject? ==> v.fields.Valid()
  {
    if v.JObject? then JObject(RemoveAll(v.fields, DroppedDependencies(v.fields, opts))) else v
  }

  /** Pruning keeps every other dependency, unchanged and in its order, and removes the dropped ones. */
  lemma PrunedDependencies(deps: Dict<Json>, opts: Options, k: string)
    requires deps.Valid()
    ensures var p := PrunedDevDependencies(JObject(deps), opts).fields;
      p.keys == Without(deps.keys, DroppedDependencies(deps, opts)) &&
      (k in p.vals <==> k in deps.vals && k !in DroppedDependencies(deps, opts)) &&
      (k in p.vals ==> p.vals[k] == deps.vals[k])
  {
  }

  /** The keys of `deps` that name eslint. */
  function EslintNames(deps: Dict<Json>): (names: set<string>)
    ensures forall k :: k in names <==> k in deps.vals && Contains(k, "eslint")
  {
    set k | k in deps.vals && Contains(k, "eslint")
  }

  /** The `forEach` over `Object.keys(devDependencies)` that deletes every name matching `/eslint/`. */
  method DropEslintDependencies(deps: Dict<Json>) returns (kept: Dict<Json>)
    requires deps.Valid()
    ensures kept == RemoveAll(deps, EslintNames(deps))
  {
    ghost var b := EslintNames(deps);
    kept := deps;
    var names := deps.keys;
    ghost var removed: set<string> := {};
    var i := 0;
    WithoutNone(names, {});
    assert deps.vals - {} == deps.vals;
    while i < |names|
      invariant 0 <= i <= |names|
      invariant StripProgress(deps, b, i, kept, removed)
    {
      ghost var kept0, removed0 := kept, removed;
      var name := names[i];
      if Contains(name, "eslint") {
        kept := Remove(kept, name);
        removed := removed + {name};
      }
      StripAdvance(deps, b, i, kept0, removed0);
      i := i + 1;
    }
    StripDone(deps, b, kept, removed);
  }

  /** The fields spread over the template's manifest. */
  function BaseFields(pkgName: string): (base: Dict<Json>)
    ensures base.Valid()
  {
    Dict(["name", "version", "private", "browserslist"], map[
      "name" := JString(pkgName), "version" := JString("0.1.0"),
      "private" := JBool(true), "browserslist" := DefaultBrowsers])
  }

  /** Field `k` of `fields`, if it has one. */
  function Lookup(fields: map<string, Json>, k: string): Option<Json> {
    if k in fields then Some(fields[k]) else None
  }

  /**
    Field `k` of the rewritten manifest, field by field: the four fields every
    project gets (`private` only when it is not a library), the entry points,
    author, style sheet and publishing access of a library, the configuration
    the eslint and git hook choices remove, the pruned development
    dependencies, and every other field as the template had it.
   */
  function PatchedField(app: map<string, Json>, opts: Options, k: string): Option<Json>
    requires DevDependenciesValid(app)
  {
    if k == "name" then Some(JString(opts.pkgName))
    else if k == "version" then Some(JString("0.1.0"))
    else if k == "browserslist" then Some(DefaultBrowsers)
    else if k == "private" then if opts.isLibrary then None else Some(JBool(true))
    else if opts.isLibrary && k == "author" then Some(JString(opts.author))
    else if opts.isLibrary && k == "main" then Some(JString("dist/" + opts.projectName + ".cjs.js"))
    else if opts.isLibrary && k == "module" then Some(JString("dist/" + opts.projectName + ".esm.js"))
    else if opts.isLibrary && k == "style" && StartsWith(opts.template, "react") then Some(JString("dist/" + opts.projectName + ".css"))
    else if opts.isLibrary && k == "publishConfig" && opts.isScoped then Some(PublicAccess)
    else if !opts.eslint && k == "eslintConfig" then None
    else if (!opts.eslint || !opts.didGitInit) && (k == "lint-staged" || k == "husky") then None
    else if k == "devDependencies" && k in app then Some(PrunedDevDependencies(app[k], opts))
    else Lookup(app, k)
  }

  /** The rewrite leaves every field it does not name as the template had it. */
  lemma OtherFieldsKept(app: map<string, Json>, opts: Options, k: string)
    requires DevDependenciesValid(app) && k !in PatchedFields
    ensures PatchedField(app, opts, k) == Lookup(app, k)
  {
  }

  /** The dependencies left by the eslint loop; anything but an object is left as it is. */
  function WithoutEslint(v: Json): (w: Json)
    requires v.JObject? ==> v.fields.Valid()
    ensures w.JObject? ==> w.fields.Valid()
  {
    if v.JObject? then JObject(RemoveAll(v.fields, EslintNames(v.fields))) else v
  }

  /** The dependencies left by deleting the two hook tools; anything but an object is left as it is. */
  function WithoutHooks(v: Json): (w: Json)
    requires v.JObject? ==> v.fields.Valid()
    ensures w.JObject? ==> w.fields.Valid()
  {
    if v.JObject? then JObject(Remove(Remove(v.fields, "lint-staged"), "husky")) else v
  }

  /** The fields after the `isLibrary` branch. */
  function LibraryStep(fields: map<string, Json>, opts: Options): map<string, Json> {
    var m := (fields - {"private"})["author" := JString(opts.author)]
      ["main" := JString("dist/" + opts.projectName + ".cjs.js")]["module" := JString("dist/" + opts.projectName + ".esm.js")];
    var m' := if StartsWith(opts.template, "react") then m["style" := JString("dist/" + opts.projectName + ".css")] else m;
    if opts.isScoped then m'["publishConfig" := PublicAccess] else m'
  }

  /** The fields after the `!eslint` branch, when it does not throw. */
  function EslintStep(fields: map<string, Json>): map<string, Json>
    requires DevDependenciesValid(fields) && HasDevDependencies(fields)
  {
    (fields - {"eslintConfig"})["devDependencies" := WithoutEslint(fields["devDependencies"])]
  }

  /** The fields after the `!eslint || !didGitInit` branch, when it does not throw. */
  function HooksStep(fields: map<string, Json>): map<string, Json>
    requires DevDependenciesValid(fields) && HasDevDependencies(fields)
  {
    (fields - {"lint-staged", "husky"})["devDependencies" := WithoutHooks(fields["devDependencies"])]
  }

  /** The statement `obj[k] = v` on the manifest. */
  method SetField(obj: Dict<Json>, k: string, v: Json) returns (r: Dict<Json>)
    requires obj.Valid()
    ensures r.Valid() && r.vals == obj.vals[k := v]
  {
    r := Put(obj, k, v);
  }

  /** The statement `delete obj[k]` on the manifest. */
  method DeleteField(obj: Dict<Json>, k: string) returns (r: Dict<Json>)
    requires obj.Valid()
    ensures r.Valid() && r.vals == obj.vals - {k}
  {
    r := Remove(obj, k);
  }

  /** `{...obj, ...fields}` */
  method Spread(obj: Dict<Json>, fields: Dict<Json>) returns (r: Dict<Json>)
    requires obj.Valid() && fields.Valid()
    ensures r.Valid() && r.vals == obj.vals + fields.vals
  {
    r := Assign(obj, fields);
  }

  /** The `isLibrary` branch: `private` goes; the author, the entry points, the style sheet of a React template and public access for a scoped name are set. */
  method AddLibraryFields(obj: Dict<Json>, opts: Options) returns (r: Dict<Json>)
    requires obj.Valid()
    ensures r.Valid() && r.vals == LibraryStep(obj.vals, opts)
  {
    r := DeleteField(obj, "private");
    r := SetField(r, "author", JString(opts.author));
    r := SetField(r, "main", JString("dist/" + opts.projectName + ".cjs.js"));
    r := SetField(r, "module", JString("dist/" + opts.projectName + ".esm.js"));
    if StartsWith(opts.template, "react") {
      r := SetField(r, "style", JString("dist/" + opts.projectName + ".css"));
    }
    if opts.isScoped {
      r := SetField(r, "publishConfig", PublicAccess);
    }
  }

  /** The `!eslint` branch: `eslintConfig` goes and the eslint dependencies are pruned, which throws when there are none. */
  method RemoveEslint(obj: Dict<Json>) returns (r: Result<Dict<Json>, PatchError>)
    requires obj.Valid() && DevDependenciesValid(obj.vals)
    ensures r.Failure? <==> !HasDevDependencies(obj.vals)
    ensures r.Success? ==> r.value.Valid() && r.value.vals == EslintStep(obj.vals)
  {
    var out := DeleteField(obj, "eslintConfig");
    if !HasDevDependencies(out.vals) {
      return Failure(DevDependenciesMissing);
    }
    var deps := out.vals["devDependencies"];
    if deps.JObject? {
      var kept := DropEslintDependencies(deps.fields);
      out := SetField(out, "devDependencies", JObject(kept));
    } else {
      assert out.vals == out.vals["devDependencies" := deps];
    }
    return Success(out);
  }

  /** The `!eslint || !didGitInit` branch: `lint-staged` and `husky` go, at the top and from the dependencies, which throws when there are none. */
  method RemoveGitHooks(obj: Dict<Json>) returns (r: Result<Dict<Json>, PatchError>)
    requires obj.Valid() && DevDependenciesValid(obj.vals)
    ensures r.Failure? <==> !HasDevDependencies(obj.vals)
    ensures r.Success? ==> r.value.Valid() && r.value.vals == HooksStep(obj.vals)
  {
    var out := DeleteField(obj, "lint-staged");
    out := DeleteField(out, "husky");
    assert out.vals == obj.vals - {"lint-staged", "husky"};
    if !HasDevDependencies(out.vals) {
      return Failure(DevDependenciesMissing);
    }
    var deps := out.vals["devDependencies"];
    if deps.JObject? {
      var pruned := Remove(deps.fields, "lint-staged");
      pruned := Remove(pruned, "husky");
      out := SetField(out, "devDependencies", JObject(pruned));
    } else {
      assert out.vals == out.vals["devDependencies" := deps];
    }
    return Success(out);
  }

  /** With eslint off, the names to drop are the eslint ones and the two hook tools, as far as `d` has them. */
  lemma DroppedWithoutEslint(d: Dict<Json>, opts: Options)
    requires !opts.eslint
    ensures (EslintNames(d) + {"lint-staged"} + {"husky"}) * d.vals.Keys == DroppedDependencies(d, opts) * d.vals.Keys
  {
  }

  /** Without git, but with eslint, the names to drop are the two hook tools, as far as `d` has them. */
  lemma DroppedWithoutGit(d: Dict<Json>, opts: Options)
    requires opts.eslint && !opts.didGitInit
    ensures ({"lint-staged"} + {"husky"}) * d.vals.Keys == DroppedDependencies(d, opts) * d.vals.Keys
  {
  }

  /** Deleting the two hook tools one after the other is removing both. */
  lemma RemoveTwo(d: Dict<Json>, a: set<string>)
    requires d.Valid()
    ensures Remove(Remove(RemoveAll(d, a), "lint-staged"), "husky") == RemoveAll(d, a + {"lint-staged"} + {"husky"})
  {
    var ls := {"lint-staged"};
    assert Remove(RemoveAll(d, a), "lint-staged") == RemoveAll(d, a + ls) by {
      RemoveIsRemoveAll(RemoveAll(d, a), "lint-staged");
      RemoveAllTwice(d, a, ls);
    }
    RemoveIsRemoveAll(RemoveAll(d, a + ls), "husky");
    RemoveAllTwice(d, a + ls, {"husky"});
  }

  /**
    With eslint off, the eslint loop followed by the deletes of the two hook
    tools drops exactly the names `DroppedDependencies` names.
   */
  lemma PruneWithoutEslint(d: Dict<Json>, opts: Options)
    requires d.Valid() && !opts.eslint
    ensures Remove(Remove(RemoveAll(d, EslintNames(d)), "lint-staged"), "husky") == RemoveAll(d, DroppedDependencies(d, opts))
  {
    var e := EslintNames(d);
    RemoveTwo(d, e);
    assert RemoveAll(d, e + {"lint-staged"} + {"husky"}) == RemoveAll(d, DroppedDependencies(d, opts)) by {
      DroppedWithoutEslint(d, opts);
      RemoveAllOnKeys(d, e + {"lint-staged"} + {"husky"}, DroppedDependencies(d, opts));
    }
  }

  /** With eslint on but no git repository, the two deletes drop exactly the names `DroppedDependencies` names. */
  lemma PruneWithoutGit(d: Dict<Json>, opts: Options)
    requires d.Valid() && opts.eslint && !opts.didGitInit
    ensures Remove(Remove(d, "lint-staged"), "husky") == RemoveAll(d, DroppedDependencies(d, opts))
  {
    RemoveAllNone(d);
    RemoveTwo(d, {});
    assert RemoveAll(d, {} + {"lint-staged"} + {"husky"}) == RemoveAll(d, DroppedDependencies(d, opts)) by {
      DroppedWithoutGit(d, opts);
      assert {} + {"lint-staged"} + {"husky"} == {"lint-staged"} + {"husky"};
      RemoveAllOnKeys(d, {"lint-staged"} + {"husky"}, DroppedDependencies(d, opts));
    }
  }

  /** With eslint on and a git repository, nothing is dropped. */
  lemma PruneNothing(d: Dict<Json>, opts: Options)
    requires d.Valid() && opts.eslint && opts.didGitInit
    ensures d == RemoveAll(d, DroppedDependencies(d, opts))
  {
    RemoveAllNone(d);
    RemoveAllOnKeys(d, {}, DroppedDependencies(d, opts));
  }

  /**
    The maps the rewrite goes through: `spread` is the manifest's fields with
    the four fields spread over them, and each later map is the one before it
    after a branch, or the same map when the branch does not run; each branch
    that runs finds `devDependencies`.
   */
  ghost predicate Steps(app: map<string, Json>, opts: Options,
      spread: map<string, Json>, library: map<string, Json>, linted: map<string, Json>, hooked: map<string, Json>)
  {
    && DevDependenciesValid(app)
    && (!opts.eslint || !opts.didGitInit ==> HasDevDependencies(app))
    && spread == app + BaseFields(opts.pkgName).vals
    && library == (if opts.isLibrary then LibraryStep(spread, opts) else spread)
    && DevDependenciesValid(library) && (!opts.eslint ==> HasDevDependencies(library))
    && linted == (if !opts.eslint then EslintStep(library) else library)
    && DevDependenciesValid(linted) && (!opts.eslint || !opts.didGitInit ==> HasDevDependencies(linted))
    && hooked == (if !opts.eslint || !opts.didGitInit then HooksStep(linted) else linted)
  }

  /** The steps, composed, give the field table. */
  lemma StepsGivePatchedFields(app: map<string, Json>, opts: Options,
      spread: map<string, Json>, library: map<string, Json>, linted: map<string, Json>, hooked: map<string, Json>)
    requires Steps(app, opts, spread, library, linted, hooked)
    ensures forall k :: Lookup(hooked, k) == PatchedField(app, opts, k)
  {
    forall k ensures Lookup(hooked, k) == PatchedField(app, opts, k) {
      FieldNamesDistinct();
      if k in {"name", "version", "browserslist", "private", "author", "main", "module", "style", "publishConfig"} {
        BranchesKeep(app, opts, spread, library, linted, hooked, k);
        assert library == Staged(app, opts);
        if k in {"name", "version", "browserslist"} {
          BaseFieldPatched(app, opts, k);
        } else if k == "private" {
          PrivatePatched(app, opts);
        } else if k in {"author", "main", "module"} {
          LibraryFieldPatched(app, opts, k);
        } else {
          OptionalFieldPatched(app, opts, k);
        }
      } else if k in {"eslintConfig", "lint-staged", "husky"} {
        ConfigFieldPatched(app, opts, spread, library, linted, hooked, k);
      } else if k == "devDependencies" {
        DependenciesPatched(app, opts, spread, library, linted, hooked);
      } else {
        assert k !in PatchedFields;
        OtherFieldPatched(app, opts, spread, library, linted, hooked, k);
      }
    }
  }

  lemma SpreadKeeps(m: map<string, Json>, opts: Options, k: string)
    requires k !in {"name", "version", "private", "browserslist"}
    ensures Lookup(m + BaseFields(opts.pkgName).vals, k) == Lookup(m, k)
  {
  }

  lemma LibraryStepKeeps(m: map<string, Json>, opts: Options, k: string)
    requires k !in {"private", "author", "main", "module", "style", "publishConfig"}
    ensures Lookup(LibraryStep(m, opts), k) == Lookup(m, k)
  {
  }

  lemma EslintStepKeeps(m: map<string, Json>, k: string)
    requires DevDependenciesValid(m) && HasDevDependencies(m)
    requires k != "eslintConfig" && k != "devDependencies"
    ensures Lookup(EslintStep(m), k) == Lookup(m, k)
  {
  }

  lemma HooksStepKeeps(m: map<string, Json>, k: string)
    requires DevDependenciesValid(m) && HasDevDependencies(m)
    requires k != "lint-staged" && k != "husky" && k != "devDependencies"
    ensures Lookup(HooksStep(m), k) == Lookup(m, k)
  {
  }

  /** Two maps with the same `devDependencies` agree on everything the branches ask of it. */
  lemma SameDependencies(a: map<string, Json>, b: map<string, Json>)
    requires Lookup(a, "devDependencies") == Lookup(b, "devDependencies")
    ensures HasDevDependencies(a) <==> HasDevDependencies(b)
    ensures DevDependenciesValid(a) <==> DevDependenciesValid(b)
  {
  }

  /** A field neither the eslint nor the hooks branch touches comes out of them as it went in. */
  lemma BranchesKeep(app: map<string, Json>, opts: Options,
      spread: map<string, Json>, library: map<string, Json>, linted: map<string, Json>, hooked: map<string, Json>, k: string)
    requires Steps(app, opts, spread, library, linted, hooked)
    requires k !in {"eslintConfig", "lint-staged", "husky", "devDependencies"}
    ensures Lookup(hooked, k) == Lookup(library, k)
  {
    if !opts.eslint {
      EslintStepKeeps(library, k);
    }
    if !opts.eslint || !opts.didGitInit {
      HooksStepKeeps(linted, k);
    }
  }

  /** The fields after the spread and the `isLibrary` branch. */
  function Staged(app: map<string, Json>, opts: Options): map<string, Json> {
    var spread := app + BaseFields(opts.pkgName).vals;
    if opts.isLibrary then LibraryStep(spread, opts) else spread
  }

  lemma BaseFieldPatched(app: map<string, Json>, opts: Options, k: string)
    requires DevDependenciesValid(app)
    requires k in {"name", "version", "browserslist"}
    ensures Lookup(Staged(app, opts), k) == PatchedField(app, opts, k)
  {
    FieldNamesDistinct();
    LibraryStepKeeps(app + BaseFields(opts.pkgName).vals, opts, k);
  }

  lemma PrivatePatched(app: map<string, Json>, opts: Options)
    requires DevDependenciesValid(app)
    ensures Lookup(Staged(app, opts), "private") == PatchedField(app, opts, "private")
  {
  }

  lemma LibraryFieldPatched(app: map<string, Json>, opts: Options, k: string)
    requires DevDependenciesValid(app)
    requires k in {"author", "main", "module"}
    ensures Lookup(Staged(app, opts), k) == PatchedField(app, opts, k)
  {
    SpreadKeeps(app, opts, k);
    if k == "main" {
      assert "main"[0] != "name"[0];
      assert Lookup(Staged(app, opts), "main") == PatchedField(app, opts, "main");
    } else {
      assert "author"[0] != "module"[0];
    }
  }

  lemma OptionalFieldPatched(app: map<string, Json>, opts: Options, k: string)
    requires DevDependenciesValid(app)
    requires k in {"style", "publishConfig"}
    ensures Lookup(Staged(app, opts), k) == PatchedField(app, opts, k)
  {
    SpreadKeeps(app, opts, k);
    if k == "style" {
      assert Lookup(Staged(app, opts), "style") == PatchedField(app, opts, "style");
    }
  }

  lemma ConfigFieldPatched(app: map<string, Json>, opts: Options,
      spread: map<string, Json>, library: map<string, Json>, linted: map<string, Json>, hooked: map<string, Json>, k: string)
    requires Steps(app, opts, spread, library, linted, hooked)
    requires k in {"eslintConfig", "lint-staged", "husky"}
    ensures Lookup(hooked, k) == PatchedField(app, opts, k)
  {
    assert "eslintConfig"[0] != "browserslist"[0] && "husky"[0] != "style"[0];
    SpreadKeeps(app, opts, k);
    LibraryStepKeeps(spread, opts, k);
    if k != "eslintConfig" && !opts.eslint {
      EslintStepKeeps(library, k);
    }
    if k == "eslintConfig" && (!opts.eslint || !opts.didGitInit) {
      HooksStepKeeps(linted, k);
    }
  }

  lemma DependenciesPatched(app: map<string, Json>, opts: Options,
      spread: map<string, Json>, library: map<string, Json>, linted: map<string, Json>, hooked: map<string, Json>)
    requires Steps(app, opts, spread, library, linted, hooked)
    ensures Lookup(hooked, "devDependencies") == PatchedField(app, opts, "devDependencies")
  {
    var k := "devDependencies";
    SpreadKeeps(app, opts, k);
    LibraryStepKeeps(spread, opts, k);
    assert Lookup(library, k) == Lookup(app, k);
    if k in app && app[k].JObject? {
      var d := app[k].fields;
      if !opts.eslint {
        PruneWithoutEslint(d, opts);
      } else if !opts.didGitInit {
        PruneWithoutGit(d, opts);
      } else {
        PruneNothing(d, opts);
      }
    }
  }

  lemma OtherFieldPatched(app: map<string, Json>, opts: Options,
      spread: map<string, Json>, library: map<string, Json>, linted: map<string, Json>, hooked: map<string, Json>, k: string)
    requires Steps(app, opts, spread, library, linted, hooked)
    requires k !in PatchedFields
    ensures Lookup(hooked, k) == PatchedField(app, opts, k)
  {
    BranchesKeep(app, opts, spread, library, linted, hooked, k);
    SpreadKeeps(app, opts, k);
    LibraryStepKeeps(spread, opts, k);
  }

  /**
    The rewrite of `package.json` (the part of `create` between reading the
    manifest and writing it back): spread the four fields over it, then apply
    the library, eslint and git hook branches in turn, deleting and adding
    fields and pruning `devDependencies` in place. Deleting from
    `devDependencies` when it is `undefined` or `null` throws.
   */
  method PatchManifest(app: Dict<Json>, opts: Options) returns (r: Result<Dict<Json>, PatchError>)
    requires app.Valid() && DevDependenciesValid(app.vals)
    ensures r.Failure? <==> !HasDevDependencies(app.vals) && (!opts.eslint || !opts.didGitInit)
    ensures r.Success? ==> r.value.Valid()
    ensures r.Success? ==> forall k :: Lookup(r.value.vals, k) == PatchedField(app.vals, opts, k)
  {
    FieldNamesDistinct();
    var appPackage := Spread(app, BaseFields(opts.pkgName));
    ghost var spread := appPackage.vals;
    if opts.isLibrary {
      appPackage := AddLibraryFields(appPackage, opts);
    }
    ghost var library := appPackage.vals;
    assert Lookup(library, "devDependencies") == Lookup(app.vals, "devDependencies") by {
      SpreadKeeps(app.vals, opts, "devDependencies");
      if opts.isLibrary {
        LibraryStepKeeps(spread, opts, "devDependencies");
      }
    }
    SameDependencies(app.vals, library);
    if !opts.eslint {
      var patched := RemoveEslint(appPackage);
      if patched.Failure? {
        return patched;
      }
      appPackage := patched.value;
    }
    ghost var linted := appPackage.vals;
    if !opts.eslint || !opts.didGitInit {
      var patched := RemoveGitHooks(appPackage);
      if patched.Failure? {
        return patched;
      }
      appPackage := patched.value;
    }
    assert Steps(app.vals, opts, spread, library, linted, appPackage.vals);
    StepsGivePatchedFields(app.vals, opts, spread, library, linted, appPackage.vals);
    return Success(appPackage);
  }

  /**
    `create @scope/rest` of a library: the manifest is named `@scope/rest`
    and published with public access.
   */
  lemma ScopedLibraryManifest(app: map<string, Json>, scope: string, rest: string,
                              template: string, eslint: bool, didGitInit: bool, author: string)
    requires DevDependenciesValid(app)
    requires scope != [] && '/' !in scope && rest != [] && NoLineTerminator(rest)
    ensures var opts := CliOptions("@" + scope + "/" + rest, template, true, eslint, didGitInit, author);
      && PatchedField(app, opts, "name") == Some(JString("@" + scope + "/" + rest))
      && PatchedField(app, opts, "publishConfig") == Some(PublicAccess)
  {
    var name := "@" + scope + "/" + rest;
    ScopedAccepted(scope, rest);
    var opts := CliOptions(name, template, true, eslint, didGitInit, author);
    assert opts.isScoped && opts.isLibrary && opts.pkgName == name;
    OtherPatchedNames();
  }

  /**
    `create dir/seg/` of a library: the manifest is named `seg`, its entry
    points are `dist/seg.cjs.js` and `dist/seg.esm.js`, and its publishing
    configuration is the template's own.
   */
  lemma PlainLibraryManifest(app: map<string, Json>, dir: string, seg: string, trail: string,
                             template: string, eslint: bool, didGitInit: bool, author: string)
    requires DevDependenciesValid(app)
    requires dir == [] || dir[|dir| - 1] == '/'
    requires seg != [] && '/' !in seg
    requires forall i :: 0 <= i < |trail| ==> trail[i] == '/'
    requires (dir + seg)[0] != '@'
    ensures var opts := CliOptions(dir + seg + trail, template, true, eslint, didGitInit, author);
      && PatchedField(app, opts, "name") == Some(JString(seg))
      && PatchedField(app, opts, "main") == Some(JString("dist/" + seg + ".cjs.js"))
      && PatchedField(app, opts, "module") == Some(JString("dist/" + seg + ".esm.js"))
      && PatchedField(app, opts, "publishConfig") == Lookup(app, "publishConfig")
  {
    PlainPkgName(dir, seg, trail);
    ProjectNameOfPath(dir, seg, trail);
    assert (dir + seg + trail)[0] == (dir + seg)[0];
    OtherPatchedNames();
  }

  /** The field names the library branch and the later branches test differ from `publishConfig`. */
  lemma OtherPatchedNames()
    ensures "publishConfig" != "name" && "publishConfig" != "version" && "publishConfig" != "browserslist"
    ensures "publishConfig" != "private" && "publishConfig" != "author" && "publishConfig" != "main"
    ensures "publishConfig" != "module" && "publishConfig" != "style" && "publishConfig" != "eslintConfig"
    ensures "publishConfig" != "lint-staged" && "publishConfig" != "husky" && "publishConfig" != "devDependencies"
  {
    assert "publishConfig"[0] == 'p' && "private"[1] == 'r' && "publishConfig"[1] == 'u';
  }
}
