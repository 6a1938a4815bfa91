/**
  The template registry of the `hammal` command line tool: the built-in
  templates shipped with the tool, the custom templates a user registered
  (persisted in the `.hamalrc` file of the home directory), the merged view
  that `list` and `create` read, and the `add` and `del` commands that edit
  the custom set.
 */
module TemplateHelper {

  import opened Wrappers
  import opened Dicts
  import opened Strings

  /**
    One template record. `custom`, `hasService` and `isLibrary` are `None`
    when the record has no such key; readers default them to false.
   */
  datatype Template = Template(
    url: string,
    description: Option<string>,
    custom: Option<bool>,
    hasService: Option<bool>,
    isLibrary: Option<bool>)

  /** The templates that produce a runnable application; the registry marks them `hasService`. */
  const ServiceTemplates: seq<string> := ["pure-mpa", "react-mpa", "react-spa", "react-redux-spa"]

  /**
    The properties every plain object inherits from `Object.prototype`: a
    lookup `templates[name]` or `custom[name]` of one of these names finds a
    function (or, for `__proto__`, the prototype itself), so it is truthy.
   */
  const ObjectPrototypeNames: set<string> := {
    "constructor", "hasOwnProperty", "isPrototypeOf", "propertyIsEnumerable",
    "toLocaleString", "toString", "valueOf", "__proto__",
    "__defineGetter__", "__defineSetter__", "__lookupGetter__", "__lookupSetter__"}

  /** The names for which `templates[name]` is truthy: the built-in names and the inherited ones. */
  function ReservedNames(builtins: Dict<Template>): (names: set<string>)
    ensures forall n :: n in names <==> n in builtins.vals || n in ObjectPrototypeNames
  {
    builtins.vals.Keys + ObjectPrototypeNames
  }

  /** What `add` and `del` report (the messages they print). */
  datatype Outcome = Added | Deleted | AlreadyExists | NotSshUrl | BuiltInProtected | DoesNotExist

  // ---------------------------------------------------------------------------
  // Repository URLs accepted by `add`: /^git@([^:]+):([^/]+)\/.*\.git$/

  /**
    The URL test of `add`, written out: `git@`, a non-empty host up to the
    first `:`, a non-empty owner up to the next `/`, then a rest that ends in
    `.git` and holds no line terminator (what `.*` cannot match).
   */
  predicate IsSshUrl(url: string) {
    StartsWith(url, "git@") &&
    match IndexOf(url, ':', 4)
    case None => false
    case Some(colon) =>
      colon > 4 &&
      match IndexOf(url, '/', colon + 1)
      case None => false
      case Some(slash) =>
        slash > colon + 1 && |url| >= slash + 5 && EndsWith(url, ".git") && NoLineTerminator(url[slash + 1..])
  }

  /** An SSH remote assembled from its parts. */
  function SshUrl(host: string, owner: string, path: string): string {
    "git@" + host + ":" + owner + "/" + path + ".git"
  }

  /** The parts the pattern's groups and `.*` can match. */
  predicate SshParts(host: string, owner: string, path: string) {
    |host| > 0 && ':' !in host && |owner| > 0 && '/' !in owner && NoLineTerminator(path)
  }

  /** Every well-formed SSH remote passes the test of `add`. */
  lemma SshUrlAccepted(host: string, owner: string, path: string)
    requires SshParts(host, owner, path)
    ensures IsSshUrl(SshUrl(host, owner, path))
  {
    var url := SshUrl(host, owner, path);
    var colon := 4 + |host|;
    var slash := colon + 1 + |owner|;
    assert url[..4] == "git@";
    SshColon(host, owner, path);
    SshSlash(host, owner, path);
    SshTail(host, owner, path);
  }

  /** After the owner's `/` come the path and `.git`. */
  lemma SshTail(host: string, owner: string, path: string)
    ensures var url := SshUrl(host, owner, path);
      && url[|url| - 4..] == ".git"
      && url[5 + |host| + |owner| + 1..] == path + ".git"
  {
    var url := SshUrl(host, owner, path);
    assert url == ("git@" + host + ":" + owner + "/") + (path + ".git");
  }

  /** The first `:` after `git@` ends the host. */
  lemma SshColon(host: string, owner: string, path: string)
    requires SshParts(host, owner, path)
    ensures IndexOf(SshUrl(host, owner, path), ':', 4) == Some(4 + |host|)
  {
    var url := SshUrl(host, owner, path);
    var colon := 4 + |host|;
    assert url[colon] == ':';
    forall k | 4 <= k < colon ensures url[k] != ':' {
      assert url[k] == host[k - 4];
    }
  }

  /** The first `/` after the host's `:` ends the owner. */
  lemma SshSlash(host: string, owner: string, path: string)
    requires SshParts(host, owner, path)
    ensures IndexOf(SshUrl(host, owner, path), '/', 5 + |host|) == Some(5 + |host| + |owner|)
  {
    var url := SshUrl(host, owner, path);
    var colon := 4 + |host|;
    var slash := colon + 1 + |owner|;
    assert url[slash] == '/';
    forall k | colon + 1 <= k < slash ensures url[k] != '/' {
      assert url[k] == owner[k - colon - 1];
    }
  }

  /** Every URL that passes the test of `add` is a well-formed SSH remote. */
  lemma SshUrlDecomposed(url: string)
    requires IsSshUrl(url)
    ensures exists host, owner, path :: SshParts(host, owner, path) && url == SshUrl(host, owner, path)
  {
    var colon := IndexOf(url, ':', 4).value;
    var slash := IndexOf(url, '/', colon + 1).value;
    var host, owner, path := url[4..colon], url[colon + 1..slash], url[slash + 1..|url| - 4];
    assert ':' !in host by {
      forall k | 0 <= k < |host| ensures host[k] != ':' { assert host[k] == url[4 + k]; }
    }
    assert '/' !in owner by {
      forall k | 0 <= k < |owner| ensures owner[k] != '/' { assert owner[k] == url[colon + 1 + k]; }
    }
    assert NoLineTerminator(path) by {
      forall k | 0 <= k < |path| ensures !IsLineTerminator(path[k]) {
        assert path[k] == url[slash + 1..][k];
      }
    }
    SshUrlSplit(url, colon, slash);
  }

  /** A URL cut at its `:` and its `/` is the remote assembled from the pieces. */
  lemma SshUrlSplit(url: string, colon: nat, slash: nat)
    requires 4 < colon < slash && |url| >= slash + 5
    requires url[..4] == "git@" && url[colon] == ':' && url[slash] == '/' && url[|url| - 4..] == ".git"
    ensures url == SshUrl(url[4..colon], url[colon + 1..slash], url[slash + 1..|url| - 4])
  {
    assert url == url[..4] + url[4..colon] + [url[colon]] + url[colon + 1..slash] + [url[slash]]
      + url[slash + 1..|url| - 4] + url[|url| - 4..];
  }

  // ---------------------------------------------------------------------------
  // The merged registry

  /** The record `add` stores: the URL, and the description only when it is non-empty (truthy). */
  function NewEntry(url: string, description: Option<string>): (t: Template)
    ensures t.url == url
    ensures t.description.Some? <==> description.Some? && description.value != ""
    ensures t.description.Some? ==> t.description == description
    ensures t.custom.None? && t.hasService.None? && t.isLibrary.None?
  {
    Template(url, if description.Some? && description.value != "" then description else None, None, None, None)
  }

  /**
    The registry entry of `name` once the merge has run: the built-in record
    when the name is built-in (a custom record of the same name is discarded),
    the custom record marked `custom` otherwise; service names are then marked
    `hasService`.
   */
  function Annotate(name: string, builtins: Dict<Template>, custom: Dict<Template>): Template
    requires name in builtins.vals || name in custom.vals
  {
    var t :=
      if name in builtins.vals then builtins.vals[name]
      else custom.vals[name].(custom := Some(true));
    if name in ServiceTemplates then t.(hasService := Some(true)) else t
  }

  /** The registry `getAllTemplates` returns: `{...builtins, ...custom}`, each entry annotated. */
  function Registry(builtins: Dict<Template>, custom: Dict<Template>): (all: Dict<Template>)
    requires builtins.Valid() && custom.Valid()
    ensures all.Valid()
  {
    var spread := Assign(builtins, custom);
    Dict(spread.keys, map name | name in spread.vals :: Annotate(name, builtins, custom))
  }

  /** The registry lists the built-in names in their order, then the custom-only names in theirs. */
  lemma RegistryNames(builtins: Dict<Template>, custom: Dict<Template>)
    requires builtins.Valid() && custom.Valid()
    ensures Registry(builtins, custom).keys == builtins.keys + Without(custom.keys, builtins.vals.Keys)
    ensures forall n :: n in Registry(builtins, custom).vals <==> n in builtins.vals || n in custom.vals
  {
  }

  /** With no custom templates the registry holds exactly the built-in names, in their order. */
  lemma RegistryWithoutCustom(builtins: Dict<Template>)
    requires builtins.Valid()
    ensures Registry(builtins, Empty()).keys == builtins.keys
    ensures forall n :: n in Registry(builtins, Empty()).vals <==> n in builtins.vals
  {
    assert Without(Empty<Template>().keys, builtins.vals.Keys) == [];
  }

  /**
    A built-in name keeps its built-in record whether or not the store also
    holds it: only `hasService` may be added, so `custom` is the built-in's own.
   */
  lemma BuiltinWins(builtins: Dict<Template>, custom: Dict<Template>, name: string)
    requires builtins.Valid() && custom.Valid() && name in builtins.vals
    ensures name in Registry(builtins, custom).vals
    ensures Registry(builtins, custom).vals[name] ==
      if name in ServiceTemplates then builtins.vals[name].(hasService := Some(true)) else builtins.vals[name]
    ensures Registry(builtins, custom).vals[name].custom == builtins.vals[name].custom
  {
  }

  /** A name only the store holds keeps its stored record, marked `custom`. */
  lemma CustomOnlyMarked(builtins: Dict<Template>, custom: Dict<Template>, name: string)
    requires builtins.Valid() && custom.Valid()
    requires name in custom.vals && name !in builtins.vals
    ensures name in Registry(builtins, custom).vals
    ensures Registry(builtins, custom).vals[name].custom == Some(true)
    ensures Registry(builtins, custom).vals[name].url == custom.vals[name].url
    ensures Registry(builtins, custom).vals[name].description == custom.vals[name].description
    ensures Registry(builtins, custom).vals[name].isLibrary == custom.vals[name].isLibrary
  {
  }

  /**
    `hasService` is set on every service name of the registry, and on no
    other name is it changed from the record's own value.
   */
  lemma ServiceMarked(builtins: Dict<Template>, custom: Dict<Template>, name: string)
    requires builtins.Valid() && custom.Valid()
    requires name in builtins.vals || name in custom.vals
    ensures name in ServiceTemplates ==> Registry(builtins, custom).vals[name].hasService == Some(true)
    ensures name !in ServiceTemplates ==>
      Registry(builtins, custom).vals[name].hasService ==
        (if name in builtins.vals then builtins.vals[name] else custom.vals[name]).hasService
  {
  }

  // ---------------------------------------------------------------------------
  // The persisted store

  /** The store holds no inherited name, as every store `add`, `del` and `setCustomTemplates` write. */
  predicate NoInheritedNames(custom: Dict<Template>) {
    forall n :: n in custom.vals ==> n !in ObjectPrototypeNames
  }

  /** What `setCustomTemplates` writes: `config` without the names `templates[name]` finds. */
  function WithoutBuiltins(config: Dict<Template>, builtins: Dict<Template>): (kept: Dict<Template>)
    requires config.Valid()
    ensures kept.Valid()
  {
    RemoveAll(config, ReservedNames(builtins))
  }

  /**
    The written store never holds a built-in or an inherited name, and keeps
    every other entry as it was.
   */
  lemma WrittenStoreHasNoBuiltins(config: Dict<Template>, builtins: Dict<Template>)
    requires config.Valid()
    ensures forall k :: k in WithoutBuiltins(config, builtins).vals <==>
      k in config.vals && k !in builtins.vals && k !in ObjectPrototypeNames
    ensures NoInheritedNames(WithoutBuiltins(config, builtins))
    ensures forall k :: k in WithoutBuiltins(config, builtins).vals ==>
      WithoutBuiltins(config, builtins).vals[k] == config.vals[k]
  {
  }

  /** Writing a fresh custom name after the others: the store gains exactly that entry. */
  lemma {:induction false} AddedToStore(custom: Dict<Template>, builtins: Dict<Template>, name: string, entry: Template)
    requires custom.Valid() && name !in custom.vals && name !in ReservedNames(builtins)
    ensures WithoutBuiltins(Put(custom, name, entry), builtins).keys == WithoutBuiltins(custom, builtins).keys + [name]
    ensures WithoutBuiltins(Put(custom, name, entry), builtins).vals == WithoutBuiltins(custom, builtins).vals[name := entry]
  {
    var b := ReservedNames(builtins);
    var put := Put(custom, name, entry);
    assert put.keys == custom.keys + [name];
    WithoutAppend(custom.keys, [name], b);
    assert Without([name], b) == [name];
    assert put.vals - b == (custom.vals - b)[name := entry];
  }

  /** Writing the store without one custom name: exactly that entry is gone. */
  lemma {:induction false} RemovedFromStore(custom: Dict<Template>, builtins: Dict<Template>, name: string)
    requires custom.Valid()
    ensures WithoutBuiltins(Remove(custom, name), builtins).keys == Without(WithoutBuiltins(custom, builtins).keys, {name})
    ensures WithoutBuiltins(Remove(custom, name), builtins).vals == WithoutBuiltins(custom, builtins).vals - {name}
  {
    var b := ReservedNames(builtins);
    assert Without(Without(custom.keys, {name}), b) == Without(custom.keys, {name} + b) by {
      WithoutTwice(custom.keys, {name}, b);
    }
    assert Without(Without(custom.keys, b), {name}) == Without(custom.keys, b + {name}) by {
      WithoutTwice(custom.keys, b, {name});
    }
    assert {name} + b == b + {name};
  }

  /**
    How far the annotation loop of `getAllTemplates` has got in the spread
    `{...builtins, ...custom}`: the names still in `rest` hold the spread
    value, all others their annotated record.
   */
  ghost predicate MergeProgress(builtins: Dict<Template>, custom: Dict<Template>, spread: map<string, Template>,
                                rest: seq<string>, vals: map<string, Template>)
    requires builtins.Valid() && custom.Valid()
  {
    && spread == builtins.vals + custom.vals && vals.Keys == spread.Keys
    && Distinct(rest) && (forall n | n in rest :: n in spread)
    && (forall n | n in vals :: vals[n] == if n in rest then spread[n] else Annotate(n, builtins, custom))
  }

  lemma MergeStart(builtins: Dict<Template>, custom: Dict<Template>)
    requires builtins.Valid() && custom.Valid()
    ensures var spread := Assign(builtins, custom);
      MergeProgress(builtins, custom, spread.vals, spread.keys, spread.vals)
  {
  }

  /** Annotating the next name keeps the loop's description of every entry. */
  lemma MergeAdvance(builtins: Dict<Template>, custom: Dict<Template>, spread: map<string, Template>,
                     rest: seq<string>, vals: map<string, Template>)
    requires builtins.Valid() && custom.Valid()
    requires MergeProgress(builtins, custom, spread, rest, vals) && rest != []
    ensures rest[0] in vals && vals[rest[0]] == spread[rest[0]]
    ensures MergeProgress(builtins, custom, spread, rest[1..], vals[rest[0] := Annotate(rest[0], builtins, custom)])
  {
    assert rest[0] !in rest[1..] by {
      forall j | 0 <= j < |rest[1..]| ensures rest[1..][j] != rest[0] { assert rest[1..][j] == rest[j + 1]; }
    }
    assert Distinct(rest[1..]) by {
      forall j, k | 0 <= j < k < |rest[1..]| ensures rest[1..][j] != rest[1..][k] {
        assert rest[1..][j] == rest[j + 1] && rest[1..][k] == rest[k + 1];
      }
    }
  }

  lemma MergeDone(builtins: Dict<Template>, custom: Dict<Template>, vals: map<string, Template>)
    requires builtins.Valid() && custom.Valid()
    requires MergeProgress(builtins, custom, builtins.vals + custom.vals, [], vals)
    ensures Dict(Assign(builtins, custom).keys, vals) == Registry(builtins, custom)
  {
  }

  /**
    The store of one user: the built-in catalog, fixed at start-up, and the
    contents of the `.hamalrc` file, `None` while that file does not exist.
   */
  class TemplateStore {
    const builtins: Dict<Template>
    var file: Option<Dict<Template>>

    ghost predicate Valid()
      reads this
    {
      builtins.Valid() && (file.Some? ==> file.value.Valid())
    }

    constructor (builtins: Dict<Template>, file: Option<Dict<Template>>)
      requires builtins.Valid() && (file.Some? ==> file.value.Valid())
      ensures Valid() && this.builtins == builtins && this.file == file
    {
      this.builtins := builtins;
      this.file := file;
    }

    /** `getCustomTemplates`: the parsed file, or no templates at all when the file is missing. */
    function GetCustomTemplates(): (custom: Dict<Template>)
      reads this
      requires Valid()
      ensures custom.Valid()
      ensures file.None? ==> custom.keys == [] && custom.vals == map[]
      ensures file.Some? ==> custom == file.value
    {
      match file
      case None => Empty()
      case Some(contents) => contents
    }

    /**
      `setCustomTemplates`: drops from `config`, one key at a time, every name
      `templates[name]` finds, then writes the file.
     */
    method SetCustomTemplates(config: Dict<Template>)
      requires Valid() && config.Valid()
      modifies this
      ensures Valid()
      ensures file == Some(WithoutBuiltins(config, builtins))
    {
      var b := ReservedNames(builtins);
      var kept := config;
      var names := config.keys;
      ghost var removed: set<string> := {};
      var i := 0;
      WithoutNone(names, {});
      assert config.vals - {} == config.vals;
      while i < |names|
        invariant 0 <= i <= |names|
        invariant StripProgress(config, b, i, kept, removed)
      {
        ghost var kept0, removed0 := kept, removed;
        var name := names[i];
        if name in b {
          kept := Remove(kept, name);
          removed := removed + {name};
        }
        StripAdvance(config, b, i, kept0, removed0);
        i := i + 1;
      }
      StripDone(config, b, kept, removed);
      file := Some(kept);
    }

    /** `getAllTemplates`: spreads the built-ins and the custom set, then annotates every name in turn. */
    method GetAllTemplates() returns (all: Dict<Template>)
      requires Valid()
      ensures all == Registry(builtins, GetCustomTemplates())
    {
      var custom := GetCustomTemplates();
      all := Assign(builtins, custom);
      ghost var spread := all;
      var rest := all.keys;
      MergeStart(builtins, custom);
      while rest != []
        invariant MergeProgress(builtins, custom, spread.vals, rest, all.vals)
        invariant all.keys == spread.keys
        decreases |rest|
      {
        var name := rest[0];
        MergeAdvance(builtins, custom, spread.vals, rest, all.vals);
        var entry := all.vals[name];
        if name in custom.vals {
          if name in builtins.vals {
            entry := builtins.vals[name];
          } else {
            entry := entry.(custom := Some(true));
          }
        }
        if name in ServiceTemplates {
          entry := entry.(hasService := Some(true));
        }
        all := all.(vals := all.vals[name := entry]);
        rest := rest[1..];
      }
      MergeDone(builtins, custom, all.vals);
    }

    /**
      `add`: refuses a name that is built-in, inherited or already stored,
      then a URL that is not an SSH remote; otherwise stores the new record
      and writes the file.
     */
    method Add(name: string, url: string, description: Option<string>) returns (outcome: Outcome)
      requires Valid()
      modifies this
      ensures Valid()
      ensures name in ReservedNames(builtins) || name in old(GetCustomTemplates()).vals ==>
        outcome == AlreadyExists && file == old(file)
      ensures name !in ReservedNames(builtins) && name !in old(GetCustomTemplates()).vals && !IsSshUrl(url) ==>
        outcome == NotSshUrl && file == old(file)
      ensures name !in ReservedNames(builtins) && name !in old(GetCustomTemplates()).vals && IsSshUrl(url) ==>
        outcome == Added &&
        file == Some(WithoutBuiltins(Put(old(GetCustomTemplates()), name, NewEntry(url, description)), builtins))
    {
      var custom := GetCustomTemplates();
      if name in ReservedNames(builtins) || name in custom.vals {
        return AlreadyExists;
      }
      if !IsSshUrl(url) {
        return NotSshUrl;
      }
      var entry := Template(url, None, None, None, None);
      if description.Some? && description.value != "" {
        entry := entry.(description := description);
      }
      custom := Put(custom, name, entry);
      SetCustomTemplates(custom);
      outcome := Added;
    }

    /**
      `del`: refuses a built-in or inherited name, then a name the store does
      not hold; otherwise removes it and writes the file.
     */
    method Del(name: string) returns (outcome: Outcome)
      requires Valid()
      modifies this
      ensures Valid()
      ensures name in ReservedNames(builtins) ==> outcome == BuiltInProtected && file == old(file)
      ensures name !in ReservedNames(builtins) && name !in old(GetCustomTemplates()).vals ==>
        outcome == DoesNotExist && file == old(file)
      ensures name !in ReservedNames(builtins) && name in old(GetCustomTemplates()).vals ==>
        outcome == Deleted && file == Some(WithoutBuiltins(Remove(old(GetCustomTemplates()), name), builtins))
    {
      var custom := GetCustomTemplates();
      if name in ReservedNames(builtins) {
        return BuiltInProtected;
      }
      if name !in custom.vals {
        return DoesNotExist;
      }
      custom := Remove(custom, name);
      SetCustomTemplates(custom);
      outcome := Deleted;
    }
  }

  /** The store `add` writes for a fresh name. */
  function StoreAfterAdd(builtins: Dict<Template>, custom: Dict<Template>, name: string, entry: Template): (stored: Dict<Template>)
    requires custom.Valid()
    ensures stored.Valid()
  {
    WithoutBuiltins(Put(custom, name, entry), builtins)
  }

  /** After a successful `add` the registry lists the new name last, after all the names it listed before. */
  lemma {:induction false} RegistryAfterAddNames(builtins: Dict<Template>, custom: Dict<Template>, name: string, entry: Template)
    requires builtins.Valid() && custom.Valid()
    requires NoInheritedNames(custom) && name !in ReservedNames(builtins) && name !in custom.vals
    ensures Registry(builtins, StoreAfterAdd(builtins, custom, name, entry)).keys == Registry(builtins, custom).keys + [name]
  {
    var b := builtins.vals.Keys;
    var stored := StoreAfterAdd(builtins, custom, name, entry);
    var kept := Without(custom.keys, b);
    assert Without(custom.keys, ReservedNames(builtins)) == kept by {
      WithoutSameOn(custom.keys, ReservedNames(builtins), b);
    }
    assert stored.keys == kept + [name] by { AddedToStore(custom, builtins, name, entry); }
    assert Without(stored.keys, b) == kept + [name] by { WithoutAgainAppend(custom.keys, b, name); }
    assert Registry(builtins, custom).keys == builtins.keys + kept by { RegistryNames(builtins, custom); }
    assert Registry(builtins, stored).keys == builtins.keys + (kept + [name]) by { RegistryNames(builtins, stored); }
    AppendAssociative(builtins.keys, kept, [name]);
  }

  /** Dropping the same keys a second time, after appending one that is kept, only appends it. */
  lemma {:induction false} WithoutAgainAppend(s: seq<string>, ks: set<string>, k: string)
    requires k !in ks
    ensures Without(Without(s, ks) + [k], ks) == Without(s, ks) + [k]
  {
    WithoutAppend(Without(s, ks), [k], ks);
    WithoutTwice(s, ks, ks);
    assert ks + ks == ks;
    assert Without([k], ks) == [k];
  }

  /** After a successful `add` the new name's entry is the stored record, marked `custom`. */
  lemma RegistryAfterAddEntry(builtins: Dict<Template>, custom: Dict<Template>, name: string, entry: Template)
    requires builtins.Valid() && custom.Valid()
    requires name !in ReservedNames(builtins) && name !in custom.vals
    ensures var after := Registry(builtins, StoreAfterAdd(builtins, custom, name, entry));
      name in after.vals && after.vals[name].custom == Some(true) && after.vals[name].url == entry.url
      && after.vals[name].description == entry.description
  {
  }

  /** After a successful `add` every name the registry held before keeps its entry. */
  lemma RegistryAfterAddKeeps(builtins: Dict<Template>, custom: Dict<Template>, name: string, entry: Template, n: string)
    requires builtins.Valid() && custom.Valid()
    requires NoInheritedNames(custom) && name !in ReservedNames(builtins) && name !in custom.vals
    requires n in Registry(builtins, custom).vals
    ensures var after := Registry(builtins, StoreAfterAdd(builtins, custom, name, entry));
      n in after.vals && after.vals[n] == Registry(builtins, custom).vals[n]
  {
    var stored := StoreAfterAdd(builtins, custom, name, entry);
    assert n in builtins.vals || n in custom.vals;
    if n !in builtins.vals {
      assert n !in ObjectPrototypeNames && n != name;
      assert n in stored.vals && stored.vals[n] == custom.vals[n];
    }
    assert Annotate(n, builtins, stored) == Annotate(n, builtins, custom);
  }

  /**
    After a successful `add`, the registry lists the new name last, with the
    given URL and description, marked `custom`, and every other entry is what
    it was.
   */
  lemma RegistryAfterAdd(builtins: Dict<Template>, custom: Dict<Template>, name: string, url: string, description: Option<string>)
    requires builtins.Valid() && custom.Valid()
    requires NoInheritedNames(custom) && name !in ReservedNames(builtins) && name !in custom.vals
    ensures var after := Registry(builtins, StoreAfterAdd(builtins, custom, name, NewEntry(url, description)));
      && after.keys == Registry(builtins, custom).keys + [name]
      && after.vals[name].url == url
      && after.vals[name].custom == Some(true)
      && after.vals[name].description == NewEntry(url, description).description
      && forall n :: n in Registry(builtins, custom).vals ==> n in after.vals && after.vals[n] == Registry(builtins, custom).vals[n]
  {
    var entry := NewEntry(url, description);
    RegistryAfterAddNames(builtins, custom, name, entry);
    RegistryAfterAddEntry(builtins, custom, name, entry);
    forall n | n in Registry(builtins, custom).vals
      ensures var after := Registry(builtins, StoreAfterAdd(builtins, custom, name, entry));
        n in after.vals && after.vals[n] == Registry(builtins, custom).vals[n]
    {
      RegistryAfterAddKeeps(builtins, custom, name, entry, n);
    }
  }

  /** The store `del` writes. */
  function StoreAfterDel(builtins: Dict<Template>, custom: Dict<Template>, name: string): (stored: Dict<Template>)
    requires custom.Valid()
    ensures stored.Valid()
  {
    WithoutBuiltins(Remove(custom, name), builtins)
  }

  /** After a successful `del` every other name the registry held keeps its entry. */
  lemma RegistryAfterDelKeeps(builtins: Dict<Template>, custom: Dict<Template>, name: string, n: string)
    requires builtins.Valid() && custom.Valid()
    requires NoInheritedNames(custom) && name !in builtins.vals && n != name && n in Registry(builtins, custom).vals
    ensures var after := Registry(builtins, StoreAfterDel(builtins, custom, name));
      n in after.vals && after.vals[n] == Registry(builtins, custom).vals[n]
  {
    var stored := StoreAfterDel(builtins, custom, name);
    assert n in builtins.vals || n in custom.vals;
    if n !in builtins.vals {
      assert n !in ObjectPrototypeNames;
      assert n in stored.vals && stored.vals[n] == custom.vals[n];
    }
    assert Annotate(n, builtins, stored) == Annotate(n, builtins, custom);
  }

  /** After a successful `del`, the registry no longer holds the name, and every other entry is what it was. */
  lemma RegistryAfterDel(builtins: Dict<Template>, custom: Dict<Template>, name: string)
    requires builtins.Valid() && custom.Valid()
    requires NoInheritedNames(custom) && name !in builtins.vals && name in custom.vals
    ensures var after := Registry(builtins, StoreAfterDel(builtins, custom, name));
      && name !in after.vals
      && forall n :: n in Registry(builtins, custom).vals && n != name ==>
           n in after.vals && after.vals[n] == Registry(builtins, custom).vals[n]
  {
    forall n | n in Registry(builtins, custom).vals && n != name
      ensures var after := Registry(builtins, StoreAfterDel(builtins, custom, name));
        n in after.vals && after.vals[n] == Registry(builtins, custom).vals[n]
    {
      RegistryAfterDelKeeps(builtins, custom, name, n);
    }
  }
}
