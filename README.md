# hammal core, modelled in Dafny

`hammal` is a command line tool that scaffolds front-end projects from
templates, plus a build service that wraps webpack. This project models the
parts of both that hold decisions rather than I/O, and proves what each must
do.

- **Template registry** (`template_helper.dfy`, module `TemplateHelper`). This covers:
  - the built-in catalog;
  - the user's custom templates, persisted in `~/.hamalrc`;
  - the merged registry, in which built-ins win, custom-only entries are marked `custom`, and the four service templates are marked `hasService`;
  - the `add` and `del` commands.

  The store is a class whose `file` field is the `.hamalrc` contents, or `None` while the file does not exist.
- **`hammal list`** (`list.dfy`, module `TemplateList`). It prints a blank line, then one row per registry name, then another blank line. Each row is the label column (`(custom)` or blanks), the name padded with dashes to one more than the longest name, and the URL.
- **`hammal create`** (`create.dfy`, module `Create`). This covers:
  - the package name, which keeps a scoped name whole and otherwise uses the directory's last segment;
  - the flags read from the template record, with their `false` defaults;
  - the repository a template is downloaded from;
  - the rewrite of the template's `package.json`: four fields spread over it, then the library, eslint and git hook branches, including pruning of `devDependencies` and the exception raised when that field is missing.
- **`getClientEnvironment`** (`env.dfy`, module `ClientEnv`). `raw` is `PUBLIC_URL` plus every `HAMMAL_APP_*` variable, matched case-insensitively. `stringified` holds each of those values as a JSON string. The JSON string encoder and its decoder live in `json_string.dfy`, module `JsonString`. The decoder establishes that every stringified value denotes its raw value.
- **`InterpolateHtmlPlugin`** (`interpolate_html.dfy`, module `InterpolateHtml`). For each key, in order, its `beforeEmit` hook replaces every `<%= KEY %>` in the page with the value. The regular expression `<%=\s*KEY\s*%>` is written out by hand, including the backtracking of the first `\s*`. So are the global scan of `String.prototype.replace` and its `$` patterns.
- **webpack configuration** (`webpack_config.dfy`, module `WebpackConfig`). This covers:
  - `outputFilename`, `publicPath` and `devtool`;
  - the loader chain `getStyleLoaders` builds;
  - the `oneOf` rule list, whose module-only rules drop out when `css.modules` is on;
  - which rule a style file reaches first;
  - the HTML pages `getHtmlWebpackPlugins` generates.

Shared pieces:
- `dicts.dfy`: JavaScript objects as insertion-ordered dictionaries (`Dict`: keys in order plus a map).
- `strings.dfy`: `startsWith`, `endsWith`, `padStart` and `padEnd`.
- `wrappers.dfy`: `Option` and `Result`.

Source code that changes state in place is modelled the same way here:
- `setCustomTemplates`, `getAllTemplates`, `add` and `del` are methods of the `TemplateStore` class. They are proved against the functions `WithoutBuiltins`, `Registry` and `NewEntry`.
- The loops of `list`, `getHtmlWebpackPlugins`, the eslint pruning and the plugin's `beforeEmit` are `while` loops. Each is proved equal to a recursive specification function.

## Model

| member | source | states |
|---|---|---|
| TemplateHelper.IsSshUrl | packages/cli/lib/templateHelper.js:54 | the SSH URL test of `add`, written as a predicate (partners: SshUrlAccepted, SshUrlDecomposed) |
| TemplateHelper.SshUrlAccepted | packages/cli/lib/templateHelper.js:54 | every `git@host:owner/path.git` with a non-empty host free of `:`, a non-empty owner free of `/` and a path without line terminators passes the test |
| TemplateHelper.SshUrlDecomposed | packages/cli/lib/templateHelper.js:54 | every URL that passes the test is `git@host:owner/path.git` with such parts, so the test accepts exactly those URLs |
| TemplateHelper.NewEntry | packages/cli/lib/templateHelper.js:66-70 | the stored record keeps the URL, and holds a description exactly when one was given non-empty |
| TemplateHelper.ReservedNames | packages/cli/lib/templateHelper.js:17 | the names for which `templates[name]` is truthy: exactly the built-in names and the members every object inherits from `Object.prototype` |
| TemplateHelper.Annotate | packages/cli/lib/templateHelper.js:34-46 | the entry of one name after the annotation loop; BuiltinWins, CustomOnlyMarked and ServiceMarked state what it holds |
| TemplateHelper.Registry | packages/cli/lib/templateHelper.js:30-50 | the merged registry is a well-formed object; what each name holds is stated by RegistryNames, BuiltinWins, CustomOnlyMarked and ServiceMarked |
| TemplateHelper.RegistryNames | packages/cli/lib/templateHelper.js:32 | the registry lists the built-in names in order, then the custom-only names in theirs; a name is in it iff it is built-in or custom |
| TemplateHelper.RegistryWithoutCustom | packages/cli/lib/templateHelper.js:25-28 | with no `.hamalrc` the registry holds exactly the built-in names, in order |
| TemplateHelper.BuiltinWins | packages/cli/lib/templateHelper.js:35-39 | a built-in name keeps its built-in record even when the store holds the same name; only `hasService` can be added |
| TemplateHelper.CustomOnlyMarked | packages/cli/lib/templateHelper.js:39-41 | a name only the store holds is marked `custom` and keeps its URL, description and `isLibrary` |
| TemplateHelper.ServiceMarked | packages/cli/lib/templateHelper.js:8-13 | the four service names get `hasService`; on every other name `hasService` is the record's own |
| TemplateHelper.WithoutBuiltins | packages/cli/lib/templateHelper.js:15-23 | the written store is a well-formed object; WrittenStoreHasNoBuiltins states which names it keeps |
| TemplateHelper.WrittenStoreHasNoBuiltins | packages/cli/lib/templateHelper.js:16-20 | the written store holds a name iff the config holds it and `templates[name]` finds nothing, i.e. it is neither built-in nor an `Object.prototype` member; its record is unchanged |
| TemplateHelper.AddedToStore | packages/cli/lib/templateHelper.js:66-71 | after `add` the store holds the new name with its record, and every other name as before |
| TemplateHelper.RemovedFromStore | packages/cli/lib/templateHelper.js:88-89 | after `del` the store no longer holds the name, and keeps every other name as before |
| TemplateHelper.TemplateStore.GetCustomTemplates | packages/cli/lib/templateHelper.js:25-28 | the parsed file, or no templates at all when the file is missing |
| TemplateHelper.TemplateStore.SetCustomTemplates | packages/cli/lib/templateHelper.js:15-23 | the loop that deletes every name `templates[name]` finds leaves the file holding `WithoutBuiltins(config)` |
| TemplateHelper.TemplateStore.GetAllTemplates | packages/cli/lib/templateHelper.js:30-50 | the spread-then-annotate loop returns `Registry(builtins, custom)` |
| TemplateHelper.TemplateStore.Add | packages/cli/lib/templateHelper.js:52-73 | a built-in, inherited or stored name gives AlreadyExists, then a non-SSH URL gives NotSshUrl, with the file untouched; otherwise the file holds the store plus the new record |
| TemplateHelper.TemplateStore.Del | packages/cli/lib/templateHelper.js:75-91 | a built-in or inherited name gives BuiltInProtected, then a name the store lacks gives DoesNotExist, with the file untouched; otherwise the file holds the store without the name |
| TemplateHelper.StoreAfterAdd | packages/cli/lib/templateHelper.js:66-71 | the store `add` writes is well formed |
| TemplateHelper.RegistryAfterAddNames | packages/cli/lib/templateHelper.js:32 | after `add` the registry lists the names it listed before, then the new name |
| TemplateHelper.RegistryAfterAddEntry | packages/cli/lib/templateHelper.js:39-46 | after `add` the registry shows the new name with the given URL and description, marked `custom` |
| TemplateHelper.RegistryAfterAddKeeps | packages/cli/lib/templateHelper.js:30-50 | after `add` every other registry entry is unchanged |
| TemplateHelper.RegistryAfterAdd | packages/cli/lib/templateHelper.js:52-73 | the three statements above together |
| TemplateHelper.StoreAfterDel | packages/cli/lib/templateHelper.js:88-89 | the store `del` writes is well formed |
| TemplateHelper.RegistryAfterDelKeeps | packages/cli/lib/templateHelper.js:30-50 | after `del` every other registry entry is unchanged |
| TemplateHelper.RegistryAfterDel | packages/cli/lib/templateHelper.js:75-91 | after `del` the name is gone from the registry and every other entry is what it was |
| TemplateList.MaxLength | packages/cli/lib/list.js:8 | an upper bound of the name lengths (LongestName shows it is attained) |
| TemplateList.LongestName | packages/cli/lib/list.js:8 | some name is exactly `MaxLength` long |
| TemplateList.NamePads | packages/cli/lib/list.js:8 | the name column is wider than every name |
| TemplateList.LabelCell | packages/cli/lib/list.js:13-17 | the label column is 8 characters; it is `(custom)` iff the record is marked custom, blanks otherwise |
| TemplateList.LabelCellPadded | packages/cli/lib/list.js:17 | the label column is `label.padStart(8, ' ')` |
| TemplateList.Label | packages/cli/lib/list.js:13-14 | the label text, `(custom)` exactly for a record marked custom; LabelCell and LabelCellPadded give its column |
| TemplateList.Row | packages/cli/lib/list.js:15-21 | the label, name and URL cells joined by single spaces; RowColumns states where each cell sits |
| TemplateList.NameCell | packages/cli/lib/list.js:18 | the name column is the name, one space, then dashes up to the width |
| TemplateList.Rows | packages/cli/lib/list.js:12-22 | one line per name |
| TemplateList.RowsAt | packages/cli/lib/list.js:12-22 | line j is the row of the j-th name, in registry order |
| TemplateList.FormatRows | packages/cli/lib/list.js:12-22 | the `forEach` over the names builds exactly `Rows`, one line per name in order |
| TemplateList.List | packages/cli/lib/list.js:4-25 | the output is a blank line, the rows of the registry in its order, and a blank line |
| TemplateList.NameColumnsAligned | packages/cli/lib/list.js:8 | every name column of a listing has the same width, so the URLs line up |
| TemplateList.JoinedColumns | packages/cli/lib/list.js:21 | the three cells joined by single spaces can be read back at their columns |
| TemplateList.CellsAt | packages/cli/lib/list.js:21 | the same, with a prefix of the middle cell |
| TemplateList.RowColumns | packages/cli/lib/list.js:15-21 | a row holds the label, the name and the URL at fixed columns |
| TemplateList.LongestNameHasNoDashes | packages/cli/lib/list.js:8 | the longest name is followed by one space and no dash |
| Create.TrimTrailingSlashes | packages/cli/lib/create.js:158 | a prefix of the input, with only `/` removed, not ending in `/` |
| Create.ProjectName | packages/cli/lib/create.js:158-159 | the project name; ProjectNameOfPath states that `dir/seg` with trailing slashes is named `seg` |
| Create.IsScoped | packages/cli/lib/create.js:160 | the scoped-name test; ScopedAccepted and ScopedDecomposed state that it accepts exactly the `@scope/rest` names |
| Create.PkgName | packages/cli/lib/create.js:161 | the package name; ScopedPkgName and PlainPkgName state its two cases |
| Create.CliOptions | packages/cli/lib/create.js:157-161 | the options of `create <name>`: scoped iff the name passes the test, the package name the whole name when scoped and the project name otherwise, a project name without `/` |
| Create.ScopedLibraryManifest | packages/cli/lib/create.js:203-224 | a library created as `@scope/rest` is named `@scope/rest` and gets `publishConfig` with public access |
| Create.PlainLibraryManifest | packages/cli/lib/create.js:203-224 | a library created as `dir/seg/` is named `seg`, gets `dist/seg.cjs.js` and `dist/seg.esm.js` as entry points, and keeps the template's `publishConfig` |
| Create.LastSegment | packages/cli/lib/create.js:159 | the suffix after the last `/`, holding no `/` |
| Create.ProjectNameOfPath | packages/cli/lib/create.js:158-159 | `dir/seg` with any number of trailing slashes is named `seg` |
| Create.ScopedAccepted | packages/cli/lib/create.js:160 | every `@scope/rest` with a non-empty scope free of `/` and a non-empty rest passes the scoped test |
| Create.ScopedDecomposed | packages/cli/lib/create.js:160 | every name that passes is such an `@scope/rest` |
| Create.ScopedPkgName | packages/cli/lib/create.js:161 | a scoped package keeps its whole name |
| Create.PlainPkgName | packages/cli/lib/create.js:158-161 | any other name takes its last path segment |
| Create.FindConfig | packages/cli/lib/create.js:171-176 | the flags are true exactly when the record holds `true`, and default to false |
| Create.DownloadOf | packages/cli/lib/create.js:180-183 | a custom template is cloned from `direct:` plus its URL; any other is downloaded by its URL |
| Create.CustomTemplateCloned | packages/cli/lib/create.js:129-132 | a custom-only template of the registry is cloned from `direct:` plus its stored URL |
| Create.BuiltinTemplateDownloaded | packages/cli/lib/create.js:129-132 | a built-in template whose record is not itself marked custom is downloaded by its own URL, whatever the store holds under its name |
| Create.DroppedDependencies | packages/cli/lib/create.js:230-244 | a dependency is dropped iff it names eslint with eslint off, or is `lint-staged`/`husky` with eslint off or no git repository |
| Create.PrunedDependencies | packages/cli/lib/create.js:230-244 | pruning keeps the other dependencies in order and unchanged, and removes only the dropped ones |
| Create.EslintNames | packages/cli/lib/create.js:231 | the dependencies whose names contain `eslint` |
| Create.DropEslintDependencies | packages/cli/lib/create.js:230-234 | the delete loop leaves the dependencies without the eslint names |
| Create.BaseFields | packages/cli/lib/create.js:203-209 | the four spread fields form a well-formed object |
| Create.OtherFieldsKept | packages/cli/lib/create.js:203-245 | a field the rewrite does not name keeps the template's value |
| Create.PatchedField | packages/cli/lib/create.js:203-245 | the field table of the rewritten manifest, written independently of the branches; StepsGivePatchedFields and PatchManifest prove the branches produce it |
| Create.LibraryStep | packages/cli/lib/create.js:211-225 | the library branch on the fields; AddLibraryFields computes it and LibraryFieldPatched, OptionalFieldPatched and LibraryStepKeeps state its fields |
| Create.EslintStep | packages/cli/lib/create.js:227-235 | the eslint branch on the fields; RemoveEslint computes it and EslintStepKeeps states that it touches only its fields |
| Create.HooksStep | packages/cli/lib/create.js:239-245 | the git hooks branch on the fields; RemoveGitHooks computes it and HooksStepKeeps states that it touches only its fields |
| Create.PrunedDevDependencies | packages/cli/lib/create.js:230-244 | `devDependencies` without the dropped names; PrunedDependencies states what is kept and DependenciesPatched that the steps give it |
| Create.WithoutEslint | packages/cli/lib/create.js:230-234 | the pruned dependencies stay well formed |
| Create.WithoutHooks | packages/cli/lib/create.js:243-244 | the pruned dependencies stay well formed |
| Create.SetField | packages/cli/lib/create.js:213-222 | `obj[k] = v` changes field k and nothing else |
| Create.DeleteField | packages/cli/lib/create.js:212 | `delete obj[k]` removes field k and nothing else |
| Create.Spread | packages/cli/lib/create.js:203-209 | `{...obj, ...fields}` takes each field from `fields` when present, otherwise from `obj` |
| Create.AddLibraryFields | packages/cli/lib/create.js:211-225 | the library branch gives `LibraryStep` |
| Create.RemoveEslint | packages/cli/lib/create.js:227-235 | throws iff `devDependencies` is missing or null; otherwise gives `EslintStep` |
| Create.RemoveGitHooks | packages/cli/lib/create.js:239-245 | throws iff `devDependencies` is missing or null; otherwise gives `HooksStep` |
| Create.DroppedWithoutEslint | packages/cli/lib/create.js:227-245 | with eslint off the names dropped are the eslint ones plus the two hook tools |
| Create.DroppedWithoutGit | packages/cli/lib/create.js:239-245 | with eslint on and no git the names dropped are the two hook tools |
| Create.RemoveTwo | packages/cli/lib/create.js:243-244 | two successive deletes remove both names |
| Create.PruneWithoutEslint | packages/cli/lib/create.js:230-244 | the loop followed by the two deletes drops exactly `DroppedDependencies` |
| Create.PruneWithoutGit | packages/cli/lib/create.js:243-244 | the two deletes alone drop exactly `DroppedDependencies` |
| Create.PruneNothing | packages/cli/lib/create.js:227-245 | with eslint on and git present nothing is dropped |
| Create.StepsGivePatchedFields | packages/cli/lib/create.js:203-245 | the composed branches give the field table `PatchedField` |
| Create.SpreadKeeps | packages/cli/lib/create.js:203-209 | the spread leaves the other fields alone |
| Create.LibraryStepKeeps | packages/cli/lib/create.js:211-225 | the library branch leaves the other fields alone |
| Create.EslintStepKeeps | packages/cli/lib/create.js:227-235 | the eslint branch leaves the other fields alone |
| Create.HooksStepKeeps | packages/cli/lib/create.js:239-245 | the git hooks branch leaves the other fields alone |
| Create.SameDependencies | packages/cli/lib/create.js:230 | whether the branches throw depends on `devDependencies` only |
| Create.BranchesKeep | packages/cli/lib/create.js:227-245 | the eslint and hooks branches leave the other fields alone |
| Create.BaseFieldPatched | packages/cli/lib/create.js:205-208 | after the spread and the library branch, `name`, `version` and `browserslist` are as the table says |
| Create.PrivatePatched | packages/cli/lib/create.js:207-212 | after the spread and the library branch, `private` is `true` for an application and absent for a library |
| Create.LibraryFieldPatched | packages/cli/lib/create.js:213-215 | after the spread and the library branch, `author`, `main` and `module` are as the table says |
| Create.OptionalFieldPatched | packages/cli/lib/create.js:217-224 | after the spread and the library branch, `style` (React templates) and `publishConfig` (scoped names) are as the table says |
| Create.ConfigFieldPatched | packages/cli/lib/create.js:229-242 | `eslintConfig`, `lint-staged` and `husky` come out as the table says |
| Create.DependenciesPatched | packages/cli/lib/create.js:230-244 | `devDependencies` is pruned of exactly the dropped names |
| Create.OtherFieldPatched | packages/cli/lib/create.js:203-204 | every other field is the template's |
| Create.PatchManifest | packages/cli/lib/create.js:201-245 | throws iff `devDependencies` is missing or null while a pruning branch runs; otherwise every field of the result is `PatchedField` of the template's manifest |
| ClientEnv.AppKeys | packages/cli-service/config/env.js:23-24 | the names kept are exactly those passing the `/^HAMMAL_APP_/i` test, without duplicates |
| ClientEnv.IsAppKey | packages/cli-service/config/env.js:20-24 | the `/^HAMMAL_APP_/i` test; AppKeys and PublicUrlIsNoAppKey state which names pass |
| ClientEnv.PublicUrlIsNoAppKey | packages/cli-service/config/env.js:20-31 | `PUBLIC_URL` never passes the prefix test |
| ClientEnv.Encoded | packages/cli-service/config/env.js:37 | each value JSON-encoded, under the same names |
| ClientEnv.RawEnvironment | packages/cli-service/config/env.js:23-33 | `raw` lists `PUBLIC_URL` then the matching names in order, with their values |
| ClientEnv.StringifyValues | packages/cli-service/config/env.js:35-40 | same names in the same order, each value quoted |
| ClientEnv.GetClientEnvironment | packages/cli-service/config/env.js:22-43 | `raw` and `stringified` as above, together |
| ClientEnv.StringifiedDecodes | packages/cli-service/config/env.js:35-40 | every stringified value decodes back to the raw value |
| ClientEnv.PublicUrlKept | packages/cli-service/config/env.js:26-31 | no environment variable replaces `PUBLIC_URL` |
| JsonString.Hex2 | packages/cli-service/config/env.js:37 | a two-digit lower-case hex string |
| JsonString.EscapeChar | packages/cli-service/config/env.js:37 | the escape of one character, `\uXXXX` only for control characters |
| JsonString.Escape | packages/cli-service/config/env.js:37 | the body of a JSON string literal |
| JsonString.Quote | packages/cli-service/config/env.js:37 | `JSON.stringify` of a string: the escaped body between double quotes |
| JsonString.HexValue | packages/cli-service/config/env.js:37 | the value of a hex digit |
| JsonString.Hex4 | packages/cli-service/config/env.js:37 | the value of four hex digits |
| JsonString.Unescape | packages/cli-service/config/env.js:37 | the decoder of a string body (partner of Escape) |
| JsonString.HexPairDecodes | packages/cli-service/config/env.js:37 | `00` and two digits of values hi and lo decode to hi*16+lo |
| JsonString.Hex2Decodes | packages/cli-service/config/env.js:37 | `00` and the two hex digits of a byte decode back to the byte |
| JsonString.UnicodeEscapeParts | packages/cli-service/config/env.js:37 | the decoder finds `\u`, the four digits and what follows in a `\u00XX` escape |
| JsonString.ShortEscapeDecodes | packages/cli-service/config/env.js:37 | a two-character escape decodes back to its character, with what follows |
| JsonString.ControlEscapeDecodes | packages/cli-service/config/env.js:37 | a `\u00XX` escape of another control character decodes back to it, with what follows |
| JsonString.EscapeCharDecodes | packages/cli-service/config/env.js:37 | one escaped character decodes back, with what follows |
| JsonString.EscapeDecodes | packages/cli-service/config/env.js:37 | an escaped body decodes back to the string |
| JsonString.QuoteRoundTrip | packages/cli-service/config/env.js:37 | `Unquote(Quote(s)) == Some(s)` |
| JsonString.QuoteInjective | packages/cli-service/config/env.js:37 | different strings are stringified differently |
| InterpolateHtml.WsEnd | packages/cli-service/utils/InterpolateHtmlPlugin.js:16 | the greedy `\s*`: all white space up to the first other character |
| InterpolateHtml.IsJsSpace | packages/cli-service/utils/InterpolateHtmlPlugin.js:16 | the characters `\s` matches; WsEnd, WsEndCovers and WsEndStops state the greedy run over them |
| InterpolateHtml.PlaceholderAt | packages/cli-service/utils/InterpolateHtmlPlugin.js:16 | `<%=`, white space, the key, white space, `%>`; MatchSound and MatchComplete state that the pattern matches exactly these |
| InterpolateHtml.Expand | packages/cli-service/utils/InterpolateHtmlPlugin.js:17 | the replacement text with its `$` patterns; ExpandLiteral states that a value without `$` is inserted as it is |
| InterpolateHtml.ReplaceFrom | packages/cli-service/utils/InterpolateHtmlPlugin.js:15-18 | the global scan of `replace`; CopiedUpTo and PlaceholderReplaced state what it does between and at the placeholders |
| InterpolateHtml.ReplaceAll | packages/cli-service/utils/InterpolateHtmlPlugin.js:15-18 | one pass for a key; PageReplaced and NoPlaceholderUnchanged state its result |
| InterpolateHtml.ApplyAll | packages/cli-service/utils/InterpolateHtmlPlugin.js:12-19 | the passes for all keys in order; BeforeEmit computes it, ApplyAllSnoc and NoPlaceholderApplyAll state its properties |
| InterpolateHtml.WsEndCovers | packages/cli-service/utils/InterpolateHtmlPlugin.js:16 | no run of white space goes past it |
| InterpolateHtml.WsEndStops | packages/cli-service/utils/InterpolateHtmlPlugin.js:16 | it stops exactly at the first character that is not white space |
| InterpolateHtml.KeyAt | packages/cli-service/utils/InterpolateHtmlPlugin.js:16 | a match of the key, `\s*` and `%>` ends within the page |
| InterpolateHtml.TryKey | packages/cli-service/utils/InterpolateHtmlPlugin.js:16 | a match found by backtracking the leading `\s*` ends within the page |
| InterpolateHtml.MatchAt | packages/cli-service/utils/InterpolateHtmlPlugin.js:16 | a match is at least the five characters of `<%=%>` |
| InterpolateHtml.TryKeySound | packages/cli-service/utils/InterpolateHtmlPlugin.js:16 | a backtracking match is a placeholder of the key |
| InterpolateHtml.TryKeyComplete | packages/cli-service/utils/InterpolateHtmlPlugin.js:16 | the backtracking finds every placeholder start |
| InterpolateHtml.KeyAtPlaceholder | packages/cli-service/utils/InterpolateHtmlPlugin.js:16 | at the start of its key a placeholder matches through its `%>` |
| InterpolateHtml.MatchSound | packages/cli-service/utils/InterpolateHtmlPlugin.js:16 | every match is `<%=`, white space, the key, white space, `%>` |
| InterpolateHtml.MatchComplete | packages/cli-service/utils/InterpolateHtmlPlugin.js:16 | every such placeholder is a match, so the pattern means exactly that |
| InterpolateHtml.InterpolateHtmlPlugin.BeforeEmit | packages/cli-service/utils/InterpolateHtmlPlugin.js:11-19 | the page becomes one pass of `replace` per key, in key order |
| InterpolateHtml.ApplyAllSnoc | packages/cli-service/utils/InterpolateHtmlPlugin.js:12-19 | one key more is one more pass on the output so far |
| InterpolateHtml.ApplyAllOneMore | packages/cli-service/utils/InterpolateHtmlPlugin.js:12-19 | the same, for the prefix of the keys the loop has done |
| InterpolateHtml.NotContainsNoOpener | packages/cli-service/utils/InterpolateHtmlPlugin.js:16 | a page without `<%=` has no opener anywhere |
| InterpolateHtml.CopiedUpTo | packages/cli-service/utils/InterpolateHtmlPlugin.js:15-18 | where no `<%=` starts, the scan copies the text |
| InterpolateHtml.NoPlaceholderUnchanged | packages/cli-service/utils/InterpolateHtmlPlugin.js:15-18 | a page without `<%=` is left unchanged by a pass |
| InterpolateHtml.NoPlaceholderApplyAll | packages/cli-service/utils/InterpolateHtmlPlugin.js:12-19 | a page without `<%=` is left unchanged by the plugin |
| InterpolateHtml.ExpandLiteral | packages/cli-service/utils/InterpolateHtmlPlugin.js:17 | a value without `$` is inserted literally |
| InterpolateHtml.MatchEndsAtPlaceholder | packages/cli-service/utils/InterpolateHtmlPlugin.js:16 | when the key does not start with white space, the match at a placeholder ends exactly at its `%>` |
| InterpolateHtml.PlaceholderReplaced | packages/cli-service/utils/InterpolateHtmlPlugin.js:15-18 | from any position, the scan copies the text up to the next placeholder when no `<%=` starts before it, writes the expanded value there and resumes after the match |
| InterpolateHtml.FirstPlaceholderReplaced | packages/cli-service/utils/InterpolateHtmlPlugin.js:15-18 | a pass keeps the text before the first placeholder, writes the expanded value in its place and goes on after it |
| InterpolateHtml.LastTextCopied | packages/cli-service/utils/InterpolateHtmlPlugin.js:15-18 | a text without `<%=` that ends the page is copied unchanged |
| InterpolateHtml.PageFrom | packages/cli-service/utils/InterpolateHtmlPlugin.js:15-18 | from the start of a page of texts without `<%=` and placeholders `<%= KEY %>` with any white space, for a key not led by white space and a value without `$`, the scan writes the texts with the value in place of each placeholder, proved by induction over the placeholders |
| InterpolateHtml.PageReplaced | packages/cli-service/utils/InterpolateHtmlPlugin.js:15-18 | one pass over such a page replaces every placeholder of the key by the value and changes nothing else |
| InterpolateHtml.SinglePlaceholder | packages/cli-service/utils/InterpolateHtmlPlugin.js:15-18 | a page with one placeholder `<%= KEY %>` becomes the text before it, the value, and the text after it |
| WebpackConfig.OutputFilename | packages/cli-service/config/webpack.config.js:37 | `[name]` iff development or hashing off, otherwise `[name].[contenthash:5]` |
| WebpackConfig.PublicPath | packages/cli-service/config/webpack.config.js:118-122 | always ends with `/`; `/` in development; otherwise `publicUrl` with at most one `/` added, and `publicUrl` itself when it already ends with one |
| WebpackConfig.PublicPathIdempotent | packages/cli-service/config/webpack.config.js:118-122 | normalising a second time changes nothing |
| WebpackConfig.ClientPublicUrlEndsWithSlash | packages/cli-service/config/webpack.config.js:124 | the `PUBLIC_URL` the bundle sees always ends with `/` |
| WebpackConfig.DevtoolOf | packages/cli-service/config/webpack.config.js:251-255 | `eval` iff development; `source-map` iff not and `sourceMap`; otherwise none |
| WebpackConfig.PreProcessorOptions | packages/cli-service/config/webpack.config.js:73-76 | the user's options win; `sourceMap` is production and `sourceMap` when they lack it |
| WebpackConfig.StyleLoaderChain | packages/cli-service/config/webpack.config.js:39-81 | four loaders, five with a preprocessor, `css-loader` second |
| WebpackConfig.FixedLoaders | packages/cli-service/config/webpack.config.js:41-68 | the array literal: four loaders, which StyleLoaderOrder and ImportLoadersCountsFollowers describe |
| WebpackConfig.StyleLoaders | packages/cli-service/config/webpack.config.js:39-81 | the array literal with the conditional push is `StyleLoaderChain` |
| WebpackConfig.ImportLoadersCountsFollowers | packages/cli-service/config/webpack.config.js:46 | `importLoaders` counts exactly the loaders after `css-loader` |
| WebpackConfig.StyleLoaderOrder | packages/cli-service/config/webpack.config.js:41-78 | injection in development and extraction otherwise, then css, postcss, resolve-url, and the preprocessor last |
| WebpackConfig.StyleSourceMaps | packages/cli-service/config/webpack.config.js:47-74 | every loader maps sources exactly in a production build with `sourceMap` on |
| WebpackConfig.Present | packages/cli-service/config/webpack.config.js:219 | `.filter(Boolean)` keeps at most the given entries |
| WebpackConfig.CssRule | packages/cli-service/config/webpack.config.js:163-169 | the `.css` rule; ModuleRulesDropped, ModuleCssUsesModules and PlainCssFollowsFlag state its exclusion and modules flag |
| WebpackConfig.CssModuleRule | packages/cli-service/config/webpack.config.js:170-175 | the `.module.css` rule; ModuleCssUsesModules states that it always uses CSS modules |
| WebpackConfig.SassRule | packages/cli-service/config/webpack.config.js:176-188 | the Sass rule; PlainSassFollowsFlag states its modules flag and Sass loader |
| WebpackConfig.SassModuleRule | packages/cli-service/config/webpack.config.js:189-200 | the module Sass rule; ModuleSassUsesModules states that it always uses CSS modules and the Sass loader |
| WebpackConfig.ImageRule | packages/cli-service/config/webpack.config.js:201-208 | the image rule, inlined up to 10000 bytes in production only; RulesAt and OneOfRulesInOrder place it |
| WebpackConfig.OneOfEntries | packages/cli-service/config/webpack.config.js:154-219 | the array literal with its `!css.modules &&` entries; OneOfRulesInOrder states what survives the filter |
| WebpackConfig.OneOfRules | packages/cli-service/config/webpack.config.js:154-219 | the `oneOf` rules; OneOfRulesInOrder and RulesAt state them in order |
| WebpackConfig.PresentTail | packages/cli-service/config/webpack.config.js:207-219 | the image and file rules survive the filter, in that order |
| WebpackConfig.OneOfRulesWithModules | packages/cli-service/config/webpack.config.js:154-219 | with `css.modules` on, the rules are babel, css, sass, image, file |
| WebpackConfig.OneOfRulesWithoutModules | packages/cli-service/config/webpack.config.js:154-219 | with `css.modules` off, the module rules follow their general rules: babel, css, css module, sass, sass module, image, file |
| WebpackConfig.OneOfRulesInOrder | packages/cli-service/config/webpack.config.js:154-219 | the rule list, in order: 5 rules with `css.modules` on, 7 with it off |
| WebpackConfig.RulesAt | packages/cli-service/config/webpack.config.js:154-219 | the rules by position: babel, css, then sass with `css.modules` on, or css module, sass, sass module with it off |
| WebpackConfig.ModuleRulesDropped | packages/cli-service/config/webpack.config.js:163-200 | with `css.modules` on no module-only rule is left and the general rules use modules; with it off they exclude module files |
| WebpackConfig.FirstMatch | packages/cli-service/config/webpack.config.js:154 | `oneOf` takes a rule the file meets, or none when it meets none |
| WebpackConfig.IsCodeName | packages/cli-service/config/webpack.config.js:214 | the names `file-loader` excludes; FileRuleTakesTheRest states what that leaves it |
| WebpackConfig.FileRuleTakesTheRest | packages/cli-service/config/webpack.config.js:209-218 | a file no other rule meets goes to `file-loader`, unless it is a script, page or JSON name, which no rule takes |
| WebpackConfig.Matches | packages/cli-service/config/webpack.config.js:155-218 | the `test`, `include` and `exclude` conditions of each rule; FirstMatch and the style-file lemmas state which rule a file reaches |
| WebpackConfig.FirstMatchAt | packages/cli-service/config/webpack.config.js:154 | it takes the first rule the file meets |
| WebpackConfig.MissesBeforeAll | packages/cli-service/config/webpack.config.js:154 | the step-by-step miss of the first k rules means that none of them matches |
| WebpackConfig.FirstMatchAfterMisses | packages/cli-service/config/webpack.config.js:154 | a rule the file meets, after rules it misses, is the one taken |
| WebpackConfig.SuffixAt | packages/cli-service/config/webpack.config.js:29-32 | the last characters of a name with a given suffix |
| WebpackConfig.CssIsNoScript | packages/cli-service/config/webpack.config.js:156-164 | a `.css` file never reaches `babel-loader` |
| WebpackConfig.ModuleCssIsCss | packages/cli-service/config/webpack.config.js:29-30 | a `.module.css` name is a `.css` name |
| WebpackConfig.ModuleCssUsesModules | packages/cli-service/config/webpack.config.js:163-175 | a `.module.css` file always gets CSS modules |
| WebpackConfig.PlainCssFollowsFlag | packages/cli-service/config/webpack.config.js:163-169 | any other `.css` file gets CSS modules iff `css.modules` |
| WebpackConfig.SassIsNoScriptOrCss | packages/cli-service/config/webpack.config.js:29-31 | a Sass file is neither script nor `.css` |
| WebpackConfig.ModuleSassIsSass | packages/cli-service/config/webpack.config.js:31-32 | a module Sass name is a Sass name |
| WebpackConfig.ModuleSassUsesModules | packages/cli-service/config/webpack.config.js:176-200 | a `.module.scss`/`.module.sass` file always gets CSS modules and the Sass loader |
| WebpackConfig.PlainSassFollowsFlag | packages/cli-service/config/webpack.config.js:176-188 | any other Sass file gets CSS modules iff `css.modules`, with the Sass loader |
| WebpackConfig.HtmlFilename | packages/cli-service/config/webpack.config.js:84-98 | `index.html` iff the chunk is an index page name, otherwise chunk plus `.html` |
| WebpackConfig.PagePlugin | packages/cli-service/config/webpack.config.js:98-111 | the page's own template when `public/` has it, else the default; only its own chunk |
| WebpackConfig.ExistingChunks | packages/cli-service/config/webpack.config.js:95-97 | exactly the pages whose entry exists, in the order of the page names: the names with the missing entries removed |
| WebpackConfig.PagePlugins | packages/cli-service/config/webpack.config.js:92-115 | the plugins the `reduce` accumulates; PagePluginsOfExisting states that there is one per page whose entry exists, in page order |
| WebpackConfig.PagePluginsOfExisting | packages/cli-service/config/webpack.config.js:92-115 | one plugin per page whose entry exists, in page order |
| WebpackConfig.HtmlWebpackPlugins | packages/cli-service/config/webpack.config.js:82-116 | without `pages` one default plugin; otherwise the plugins of the `reduce` over the page names |

## Left out

- Reading and writing `~/.hamalrc`, including ini parsing and the `HOME` path: the file's contents are the `file` field of `TemplateStore`.
- Console output, colours (chalk) and prompts: `add` and `del` return the outcome whose message they print.
- The I/O of `create`: package-name validation, conflict checks, the download, `git init`, `getAuthor`, removal of config files, and writing `package.json`. `didGitInit` and the author are parameters.
- `path.resolve` beyond the last segment: `ProjectName` is the last non-empty `/`-separated segment of the argument, as `path.basename(path.resolve(name))` gives for relative and absolute names. `.` and `..` segments are not resolved, and for an empty argument (or one made only of `/`) the model gives `""` where the source names the project after the working directory.
- The dotenv loading loop of `env.js`: the process environment is a parameter.
- Plugin and loader objects, `require.resolve`, `webpackMerge`, `configureWebpack` and the other configuration fields (mode, entry, output, optimization, devServer, resolve, the plugins list). Loaders are represented by the options the configuration gives them; postcss plugins are not modelled.
- Template paths are file names under `public/`; whether the entry path of a page and a template exist are predicates passed in.
- Loader option values are booleans or strings only.
- JSON numbers are integers; `package.json` is taken to be an object as read.
- Strings are sequences of Unicode scalar values, not UTF-16 code units. JSON escapes of lone surrogates are out of scope.
- Integer-like keys, which JavaScript objects enumerate first, are not ordered specially: every key keeps insertion order.
- Aliasing in `getAllTemplates`: the spread is shallow, so the source marks `custom` on the store's own record objects and `hasService` on the catalog's. The model returns new values and leaves the store and catalog unchanged. Marking is idempotent and the file is re-read on every call, so no later result differs.
- babel-preset, `cli.js`, the other bin and scripts files, and `configHelper` (its values are parameters with the defaults of webpack.config.js:16-27).
- Create.PatchManifest: states the fields and values of the result, not its key order.
- Create.SetField, Create.DeleteField and Create.Spread: state the values of the result, not its key order.
- WebpackConfig.StyleSourceMaps: requires that the user's Sass options have no `sourceMap` of their own, since those win over the computed flag.
- TemplateList.NamePads: for an empty registry `Math.max()` is `-Infinity`; no row is printed then, and the model uses 1.
- TemplateHelper.Registry: a store entry whose name `Object.prototype` provides (a hand-edited `[constructor]` section, say) becomes `{...templates[name]}` in the source, an empty record spread from the inherited function; the model keeps it as a custom-only entry marked `custom`. The tool itself never writes such a name: `add` refuses it and `WithoutBuiltins` drops it.
- TemplateHelper.RegistryAfterAdd, TemplateHelper.RegistryAfterAddNames, TemplateHelper.RegistryAfterAddKeeps, TemplateHelper.RegistryAfterDel and TemplateHelper.RegistryAfterDelKeeps: stated for a store without inherited names (`NoInheritedNames`), as every store the tool writes is; a hand-edited store that has one loses it on the next write.
- A top-level `key=value` line of `~/.hamalrc`, which ini parses to a string rather than a section, is not modelled: every stored entry is a record, so `custom[name]` is truthy exactly for the stored names.
- InterpolateHtml.PageReplaced, InterpolateHtml.PageFrom and InterpolateHtml.SinglePlaceholder: stated for keys that do not start with white space, values without `$`, and pages whose texts hold no `<%=` (so a placeholder of another key is not among them). For other values the replacement text is `Expand`, which models the `$$`, `$&`, `` $` `` and `$'` patterns; PlaceholderReplaced holds for any key and value, with only the stretch before the placeholder free of `<%=`.
