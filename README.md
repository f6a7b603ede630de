# jvdx build configuration, modelled in Dafny

`jvdx build` turns a package (its `package.json` manifest, its sources and
the command-line options) into one Rollup configuration per build step. This
project models how that configuration is decided, and proves properties of
it:

- **Option coercion.** `--compress`, `--sourcemap` and the entry list are coerced. `publishConfig` is spread over the manifest.
- **Library name.** `getName` chooses the library name. For the fallback it normalises the package name: the npm scope is stripped, the name is lower-cased and the characters that are not ES3 identifier characters are removed.
- **Formats.** The format list is split, `esm` is read as `es`, duplicates are dropped and `cjs` is sorted first. The build steps form an entry × format matrix, and only the first step writes metadata.
- **Paths.** `getInput`, `getOutput`, `getEntries` and `getDeclarationDir` resolve input globs, the output bundle, the entries and the declaration directory.
- **Output file.** `walkExports` and `getMain` pick the output file name for each format from the manifest's templates. The `.mjs` warning follows from that choice.
- **Externals.** The external list is built per entry. The external predicate is the anchored alternation of that list. The `external` callback is modelled, and so is the derived `globals` map.
- **Minify options and name cache.** The minify options and the terser name cache are chosen, loaded, merged and written back. `normalizeMinifyOptions` is modelled on its own.
- **Babel plugin.** The plugin's `config()` hook is modelled, with `mergeConfigItems` and `createConfigItems`.
- **Utility functions.** The command-line helpers of `src/utils.js` are modelled: scope removal, `parseArgs`, `arrify`, `--define` values, `key=value` lists, `isTruthy` and regexp escaping.
- **Small shared helpers.** These are the CSS-modules option handling, size reporting and the test tree printer.

The file system, glob expansion, `JSON.parse` / `JSON.stringify`, `require.resolve`, `camelCase`, `pretty-bytes`, the terminal colours and regular-expression matching of user-given patterns are not modelled as code. Each one is a function parameter. Properties hold for every such function, or for every one that satisfies a stated requirement.

JavaScript values are modelled by `JsValues.Value`. Truthiness, `Object.assign` and lodash `merge` are written out over it. Paths are `/`-separated strings, and `Paths.Resolve` joins a relative path onto its base.

## Model

| member | source | states |
|---|---|---|
| JsValues.Assign | src/actions/build.js:530-534 | `Object.assign` onto a map: the keys are the union, the source's own properties win, and the other target properties are kept |
| JsValues.MergeIncomingLeafWins | src/shared/babel-custom.js:26 | lodash's nested merge rule, which applies below the top level (and at the top once target and source are both objects or both arrays): every leaf that `b` has at a path is what the merged value has at that path |
| JsValues.MergeKeepsExisting | src/shared/babel-custom.js:26 | lodash's nested merge rule: wherever `b` says nothing along a path (it runs out, or has an object or array where `a` has one), the merged value holds what `a` holds |
| JsValues.ToObject | src/shared/babel-custom.js:26 | `Object(a)` as lodash takes the target: an object or array is itself; any other value gives an object |
| JsValues.MergeTop | src/shared/babel-custom.js:26 | the top-level call `merge(a, b)`: when `b` is not of the target's kind (`false`, a string, `undefined`, …) the result is `Object(a)` unchanged; the result is always of the target's kind |
| JsValues.MergeTopLeafWins | src/shared/babel-custom.js:26 | when `b` has the target's kind, every leaf that `b` has at a non-empty path is what `merge(a, b)` has there |
| JsValues.MergeTopKeepsExisting | src/shared/babel-custom.js:26 | wherever `b` says nothing along a path, `merge(a, b)` holds what `Object(a)` holds; this covers a `b` that is not an object at all |
| Seqs.JoinSplit | src/utils.js:303-304 | splitting on one character and joining with the same character gives the original string back |
| Seqs.SplitJoin | src/utils.js:324-325 | separator-free pieces joined by the separator split back into the same pieces |
| Seqs.SplitPieces | src/actions/build.js:114 | a split yields more than one piece exactly when the separator occurs |
| Seqs.DedupSpec | src/actions/build.js:282 | the `indexOf(item) === i` filter leaves no duplicates, keeps exactly the same elements, and keeps them in order of first occurrence |
| Seqs.DedupSnoc | src/actions/build.js:116 | appending an element to the input adds it to the deduplicated list only when it was not already present |
| BuildOptions.CoerceCompress | src/actions/build.js:53-61 | a boolean `compress` is kept; the strings "false" and "0" turn it off, and every other present value (any other string, a number, an object) turns it on; when `null` or absent it is on exactly when the target is not `node` |
| BuildOptions.CoerceSourcemap | src/actions/build.js:85-91 | the result is always "inline", true or false; only "inline" is kept and warned about; "false" and false give false; every other value gives true |
| BuildOptions.Entries | src/actions/build.js:52 | the explicit entries, as `arrify` gives them, come first, followed unchanged by the positional arguments |
| BuildOptions.PublishedPkg | src/actions/build.js:69-72 | `publishConfig` fields override the manifest's own fields, the other manifest fields are kept, and nothing else is added |
| BuildPaths.StripScopePrefix | src/actions/build.js:230 | the scope-removing replace only ever removes a prefix |
| BuildPaths.StripScopedName | src/actions/build.js:230 | `@scope/name` with a slash-free name loses exactly its `@scope/` prefix |
| BuildPaths.StripInvalidRest | src/actions/build.js:216 | the global removal of non-identifier characters and trailing non-alphanumerics keeps only `[\w.-]` characters of the input, ends in a letter or digit, and is empty exactly when the input has no letter or digit |
| BuildPaths.StripInvalid | src/actions/build.js:231 | the cleaned identifier is empty or starts with an ASCII letter, ends with a letter or digit, and holds only `[\w.-]` characters taken from the input |
| BuildPaths.KeepIdentChars | src/actions/build.js:216 | only `[\w.-]` characters are kept |
| BuildPaths.AlnumPrefixLen | src/actions/build.js:216 | the prefix ends in a letter or digit, and no letter or digit follows it |
| BuildPaths.AlnumPrefixLenUnique | src/actions/build.js:216 | those two properties determine the prefix length |
| BuildPaths.HasAlnumIff | src/actions/build.js:216 | a text has a letter or digit exactly when its prefix up to the last one is non-empty |
| BuildPaths.AlnumPrefixLenCons | src/actions/build.js:216 | how the prefix length of a text follows from that of its tail |
| BuildPaths.StripInvalidRestSpec | src/actions/build.js:216 | away from the start, the removal is exactly: keep the `[\w.-]` characters of the input up to its last letter or digit |
| BuildPaths.StripInvalidSpec | src/actions/build.js:216-231 | the removal is exactly: drop the leading non-letters, then keep the `[\w.-]` characters up to the last letter or digit |
| BuildPaths.StripInvalidIdempotent | src/actions/build.js:231 | cleaning an already cleaned identifier changes nothing |
| BuildPaths.PkgIdentifier | src/actions/build.js:229-231 | the normalised package name is a clean identifier with no upper-case letter |
| BuildPaths.PkgIdentifierSpec | src/actions/build.js:229-231 | the normalised name is exactly: the scope removed, the rest lower-cased, its leading non-letters dropped, then its `[\w.-]` characters kept up to its last letter or digit |
| BuildPaths.PkgIdentifierScoped | src/actions/build.js:229-231 | a scoped package normalises to the same identifier as its unscoped name |
| BuildPaths.GetName | src/actions/build.js:219-237 | the package name falls back to the basename of the working directory, with a warning exactly when a manifest exists; the final name is the `--name` option, else `amdName`, else the camel-cased normalised package name |
| BuildPaths.GetNameAsWrittenFails | src/actions/build.js:229-235 | as written, `getName` throws a TypeError exactly when neither a name nor an `amdName` is given, and otherwise agrees with `GetName` |
| BuildPaths.JsOrTs | src/utils.js:231-239 | the result is `<name>.ts` resolved against the directory when that file exists, else `<name>.tsx` when that one exists, else `<name>.js` |
| BuildPaths.InputPatterns | src/actions/build.js:244-255 | explicit entries win; then the `source` field (one path or a list) resolved against the working directory; otherwise the default entry under `src/` or the package root |
| BuildPaths.InputIgnoresModule | src/actions/build.js:251-254 | the `module` fallback is never reached, because the default entry is never empty |
| BuildPaths.GlobbedMembers | src/actions/build.js:256-257 | a file is an input exactly when some pattern's glob expansion contains it |
| BuildPaths.GetInput | src/actions/build.js:241-259 | the input list is the concatenation, in order, of the glob expansions of the selected patterns |
| BuildPaths.TrailingLower | src/actions/build.js:265 | measures the maximal run of lower-case letters at the end of a path, which the `\.[a-z]+$` test needs |
| BuildPaths.GetOutputSpec | src/actions/build.js:263-269 | the bundle starts from `--output`, else the manifest `main`, else `dist`; a start with a lower-case extension that is not a directory is the bundle; any other start is a directory, the bundle ends in `<unscoped package name>.js`, and for a normalised start and a slash-free name it lies directly inside that directory; either way the bundle has a lower-case extension |
| BuildPaths.GetEntries | src/actions/build.js:273-285 | the entries have no duplicates, are exactly the resolved inputs, and keep the order of first occurrence |
| BuildPaths.DeclarationsBesideTypes | src/actions/build.js:288-301 | declarations go to the directory of `types`, else of `typings`, resolved against the working directory, else of the output; the declared file lies directly inside that directory, and a clean relative `types` path inside a normalised working directory always qualifies |
| BuildPaths.ResolveNormalized | src/actions/build.js:295 | resolving a clean relative path (non-empty, no leading or trailing slash, no empty segment) against a normalised directory gives a normalised path |
| Paths.DirnameBasename | src/actions/build.js:298 | a normalised path (absolute, no empty segment, no trailing slash) other than the root is its basename resolved against its dirname |
| BuildFormats.AliasAll | src/actions/build.js:116 | after aliasing no format is `esm`: each `esm` becomes `es` in its place and every other format is kept where it was |
| BuildFormats.CjsFirstSpec | src/actions/build.js:118 | the sort moves `cjs` to the front of a duplicate-free list and permutes it (same multiset) |
| BuildFormats.FormatsSpec | src/actions/build.js:114-118 | the format list has no duplicates, never says `esm`, holds exactly the requested formats (as a permutation of their de-duplicated list), and starts with `cjs` when `cjs` was requested |
| BuildFormats.FormatsKeepOrder | src/actions/build.js:116-118 | apart from `cjs`, the formats keep the order in which they were first requested |
| BuildFormats.BuildSteps | src/actions/build.js:121-133 | the double loop produces the entry-major step list |
| BuildFormats.StepsMatrix | src/actions/build.js:121-133 | there are entries × formats steps; the step at `i·|formats|+j` builds entry `i` in format `j`; exactly the first step has `writeMeta` |
| BuildMain.WalkKey | src/actions/build.js:309-310 | the key descended into is `.` when truthy, else `import` when truthy, else `module` when truthy, else `default` when allowed and truthy; there is none exactly when none of those holds a truthy value |
| BuildMain.WalkExports | src/actions/build.js:306-312 | a falsy value gives nothing and a non-empty string is the result; on an object the walk continues into the key `WalkKey` picks and gives nothing when there is none |
| BuildMain.WalkExportsLeaf | src/actions/build.js:306-312 | a result is the string found by following only `.`, `import` and `module` keys (and `default` when allowed) from the root |
| BuildMain.WalkExportsDefaultExtends | src/actions/build.js:310 | allowing `default` never changes a result that was found without it |
| BuildMain.StripBuildExt | src/actions/build.js:334 | removing the build extension keeps a prefix of the path and removes only characters after its last `/`, so the directory is unchanged; a path without a script extension is unchanged |
| BuildMain.ScriptExtLen | src/actions/build.js:47 | the length of the `\.[cm]?[tj]sx?` ending of a path, and 0 exactly when no ending of 3, 4 or 5 characters is one |
| BuildMain.StripScriptExt | src/actions/build.js:47 | a script extension with no `.umd`/`.cjs`/`.es`/`.m` group before it is removed, and nothing else |
| BuildMain.StripGroupExt | src/actions/build.js:47 | a `.umd`/`.cjs`/`.es`/`.m` group followed by a script extension is removed as a whole, and nothing else |
| BuildMain.Template | src/actions/build.js:344-367 | a format other than `es`, `modern` and `umd` uses the `cjs` file name |
| BuildMain.FromFirstDot | src/actions/build.js:341 | `replace(/^[^.]+/, '')` removes the dot-free start of the basename: the kept suffix starts at the first dot, and it is empty exactly when there is no dot |
| BuildMain.GetMain | src/actions/build.js:316-323 | without `pkg-main` the output path is used unchanged |
| BuildMain.GetMainSuffix | src/actions/build.js:336-367 | with `pkg-main` the file is the output (or the sibling entry) with its build extension removed, followed by the template's extension from its first dot |
| BuildMain.GetMainInOutputDir | src/actions/build.js:325-342 | with `pkg-main`, every format's file is written to the output's directory |
| BuildMain.MainBaseDir | src/actions/build.js:326-333 | the base is absolute and in the output's directory; with several entries its file name is the entry's own for a non-index entry and the output's for an index entry; with one entry it is the output |
| BuildMain.EsSuffix | src/actions/build.js:345-348 | without `module` or `jsnext:main`, the `es` file ends in `.esm.js` for `"type": "module"` and in `.esm.mjs` otherwise |
| BuildMain.MjsWarningUnlessTypeModule | src/actions/build.js:544-555 | for an `es` build without `module` or `jsnext:main`, the `.mjs` warning is printed exactly when the package is not `"type": "module"` |
| BuildExternals.Names | src/actions/build.js:462-464 | module names become name externals one for one, and no pattern is added |
| BuildExternals.Patterns | src/actions/build.js:479 | every `--external` piece becomes a pattern external, and no name is added |
| BuildExternals.Siblings | src/actions/build.js:463 | the other entries are exactly the entries different from the current one |
| BuildExternals.ExternalList | src/actions/build.js:462-485 | the list starts with `dns`, `fs`, `path` and `url`. A module name is external exactly when it is a default, another entry, a builtin (node target), a peer dependency (unless `--external none`), or a dependency (no `--external`). A pattern is external exactly when it is `node:.*` (node target) or a piece of `--external` |
| BuildExternals.NameMatches | src/actions/build.js:516 | an escaped module name, as a regular expression, matches exactly that name |
| BuildExternals.ExternalPredicateNames | src/actions/build.js:513-519 | over module names, the predicate holds exactly when the id is a listed name or a path below one |
| BuildExternals.IsExternal | src/actions/build.js:567-581 | the async-helpers id is never external; `.` is external in a multi-entry build; aliased ids are bundled |
| BuildExternals.IsExternalOtherwise | src/actions/build.js:577-580 | since the list always holds the defaults, every other id is decided by the predicate alone |
| BuildExternals.DefaultsAreExternal | src/actions/build.js:513-519 | `dns`, `fs`, `path` and `url`, and any path below them, are always external |
| BuildExternals.Globals | src/actions/build.js:487-500 | the reduce over the externals followed by the user mapping computes the specified globals map |
| BuildExternals.DerivedSpec | src/actions/build.js:487-496 | a global is derived exactly for the identifier-like names and pattern sources in the list, and its value is the camel-cased name |
| BuildExternals.GlobalsSpec | src/actions/build.js:487-500 | a key is in the globals exactly when it is derived or given by `--globals`; the user's value wins, and a derived key keeps its camel-cased value |
| BuildExternals.GlobalsAsWrittenAlwaysFails | src/actions/build.js:487-496 | as written, computing the globals throws a TypeError for every configuration |
| BuildNameCache.RawMinify | src/actions/build.js:506 | `minify` when truthy, else `mangle` when truthy, else an empty object; the result is always truthy |
| BuildNameCache.InitialMinifyOptions | src/actions/build.js:507 | a string (a cache file name) contributes no options; any other value is the options |
| BuildNameCache.CachePathInCwd | src/actions/build.js:508-511 | in a normalised working directory and with a slash-free string value (or none), the name cache is the file of that name, else `mangle.json`, directly inside the working directory |
| BuildNameCache.MergeCacheMinify | src/actions/build.js:530-534 | the result is a new object with the union of the keys; the cache's `minify` fields win over the package's options |
| BuildNameCache.NameCache.constructor | src/actions/build.js:502-511 | the cache path and the initial options come from the manifest, and no cache is loaded |
| BuildNameCache.NameCache.FinalNameCache | src/actions/build.js:542 | an unloaded cache becomes null; a loaded one is kept |
| BuildNameCache.NameCache.Load | src/actions/build.js:522-538 | an unreadable file changes nothing. A readable one records whether it ends in a line ending. A parsable one becomes the cache, and its truthy `minify` is merged over the options. Parse failures change neither the cache nor the options |
| BuildNameCache.NameCache.WriteBundle | src/actions/build.js:713-757 | a write happens exactly for a `writeMeta` step, with compression on (the hook's plugin exists only then) and a loaded truthy cache; it goes to the cache path with the JSON and the recorded line ending |
| BuildNameCache.CacheRoundTrip | src/actions/build.js:749-754 | reading back a written cache gives the same cache and the same line-ending flag, whenever parsing inverts stringifying |
| BuildNameCache.LoadThenWrite | src/actions/build.js:749-754 | loading a cache file the hook wrote (with a truthy cache) and then running the first step's hook with compression on writes the same text back to the same file |
| BuildNameCache.OnlyFirstStepWritesCache | src/actions/build.js:713-757 | among all build steps, only the first can write the cache, and it does exactly when compression is on and a cache was loaded |
| Utils.ScopeMatch | src/utils.js:129 | a match of `@[a-z\d][\w-.]+/` at the start is at least four characters long, from `@` to `/` |
| Utils.RemovePkgScope | src/utils.js:130-133 | the result is never longer than the input (the lemmas below determine it: unmatched characters are kept, matched scopes are dropped) |
| Utils.RemovePkgScopeNoAt | src/utils.js:130-133 | a string without `@` is returned unchanged |
| Utils.RemovePkgScopeUnmatched | src/utils.js:130-133 | where no scope starts, the character (an `@` among them) is kept and the scan moves on by one |
| Utils.ScopeMatchSpec | src/utils.js:129 | an `@` starts a match exactly when a scope name (a letter or digit, then one or more of `[\w.-]`) and a `/` follow it |
| Utils.RemovePkgScopeDoubleAt | src/utils.js:130-133 | in `@@scope/rest` the first `@` is kept and the scope after it is removed |
| Utils.RemovePkgScopePrefix | src/utils.js:130-133 | an `@`-free prefix is kept, and the rest is handled on its own |
| Utils.RemovePkgScopeScoped | src/utils.js:129-133 | a leading `@scope/` with a valid scope name is removed |
| Utils.RemovePkgScopeInside | src/utils.js:129-133 | a valid scope after `@`-free text is removed as well, because the pattern is global and unanchored |
| Utils.Arrify | src/utils.js:208-226 | null and undefined give `[]`; arrays are returned as is; strings and plain values are wrapped; sets and maps are spread into their elements and entries |
| Utils.ParseArgs | src/utils.js:171-203 | the loop computes the specified argument list |
| Utils.FlagsConcat | src/utils.js:179-188 | the flags of two groups of options are the flags of each group, in order |
| Utils.FlagsSkipFiltered | src/utils.js:180 | a filtered-out key contributes no flag |
| Utils.AppendMissingSpec | src/utils.js:196-200 | the result is the arguments followed by the required arguments that are missing from them, de-duplicated, in `requiredArgs` order; so every required argument ends up present and only missing ones are added, each once |
| Utils.AppendMissingOrder | src/utils.js:196-200 | the appended part is the required arguments not already present, each at its first occurrence, in order |
| Utils.ParseArgsDefaults | src/utils.js:190-200 | the defaults head the result exactly when no option produced a flag; otherwise the flags do |
| Utils.JsonUnescapeEscape | src/utils.js:295 | the string escaping of `JSON.stringify` is undone by JSON unescaping |
| Utils.JsonQuoteRoundTrip | src/utils.js:281 | `JSON.stringify` of a string parses back to the same string |
| Utils.ToReplacementExpressionSpec | src/utils.js:277-296 | a quoted value becomes a JSON string literal of its inner text; an `@name` keeps the raw expression under the name without `@`; booleans and digit strings stay literals; anything else becomes a JSON string literal |
| Utils.ParseMappingArgument | src/utils.js:301-318 | the loop computes the specified mapping |
| Utils.MappingErrorPersists | src/utils.js:303-316 | once a segment throws, the whole call throws with that error |
| Utils.LastWriter | src/utils.js:315 | the index found is a segment that writes the key |
| Utils.MappingLastWins | src/utils.js:315 | a key is present exactly when some segment writes it, and it holds the value of the last such segment |
| Utils.MappingEntryError | src/utils.js:304-306 | a segment throws exactly when the `--define` processing is applied to a segment without `=` |
| Utils.MappingErrors | src/utils.js:301-318 | the call throws exactly when processing is on and some segment has no `=` |
| Utils.ParseAliasRoundTrip | src/utils.js:323-328 | aliases whose parts hold neither `,` nor `=` survive being written as `find=replacement,…` and parsed back |
| Utils.IsTruthy | src/utils.js:333-338 | true exactly for truthy values other than the empty plain object |
| Utils.EscapeStringRegexp | src/utils.js:398-404 | non-strings are returned unchanged; a string is escaped so that the pattern reads back as exactly that string |
| Utils.EscapeRoundTrip | src/utils.js:403 | the escaped text, read as a pattern, denotes exactly the original string |
| Terser.SetProp | src/shared/terser.js:13 | on an object, only that key changes; a primitive (and, in this model, an array) is left unchanged |
| Terser.ConcatReserved | src/shared/terser.js:27 | `[].concat(x \|\| [])` always gives an array: an array's items, nothing for a falsy value, and the value itself as the one item otherwise |
| Terser.MinifyOptions.constructor | src/shared/terser.js:3 | holds the options as given |
| Terser.MinifyOptions.Normalize | src/shared/terser.js:3-29 | the in-place normalisation leaves the options in the normalised state; only `mangle` changes |
| Terser.BooleanMangleUntouched | src/shared/terser.js:5 | a boolean `mangle` switches normalisation off, and nothing changes |
| Terser.NormalizedErrors | src/shared/terser.js:12-16 | the only failure is a truthy top-level `properties` with no `mangle.properties` to assign it onto |
| Terser.MangleBecomesObject | src/shared/terser.js:7 | an absent or falsy `mangle` becomes an object |
| Terser.PropertiesFalse | src/shared/terser.js:12-16 | `properties: false` at the top level disables property mangling when no legacy option re-creates it |
| Terser.OverrideFails | src/shared/terser.js:12-16 | the override step throws exactly when a truthy top-level `properties` meets a `null` or `undefined` `mangle.properties` |
| Terser.LegacyLinked | src/shared/terser.js:19-23 | after the legacy step, the local `properties` is still what `mangle.properties` holds |
| Terser.CompileShape | src/shared/terser.js:25-28 | the compile step gives an object `properties` the `[].concat` array of its `reserved`, compiles a truthy `regex`, keeps every other key, and leaves `mangle` alone when `properties` is falsy |
| Terser.PropertiesShape | src/shared/terser.js:25-28 | after a successful run, an object `mangle.properties` has as `reserved` the `[].concat` array of the `reserved` the earlier steps left, and no uncompiled string `regex` |
| Terser.LegacyOptionsFillOnly | src/shared/terser.js:19-28 | with a legacy `regex` or `reserved`, a falsy `properties` is created; its own truthy `regex` and `reserved` win over the legacy ones, which fill them otherwise; `regex` is then compiled and `reserved` arrayified; other keys are kept |
| Terser.LegacyFills | src/shared/terser.js:19-23 | the legacy step creates a falsy `properties` and fills its falsy `regex` and `reserved` from the legacy options |
| Terser.LegacyKeepsOthers | src/shared/terser.js:19-23 | the legacy step touches only `regex` and `reserved` of an object `properties` |
| Terser.PropertiesAssigned | src/shared/terser.js:12-16 | a top-level `properties` object is assigned onto an object `mangle.properties`: its keys win, the existing keys are kept, and only `regex` and `reserved` are rewritten afterwards |
| BabelCustom.FindIndex | src/shared/babel-custom.js:12-16 | the index of the first item with the key, or -1 exactly when no item has it |
| BabelCustom.MergeList | src/shared/babel-custom.js:11-32 | merging one more list into the merged items gives the merge of all lists so far followed by that list |
| BabelCustom.MergeConfigItems | src/shared/babel-custom.js:7-36 | the nested loops merge the lists in order into the specified result |
| BabelCustom.MergeItemKeys | src/shared/babel-custom.js:18-31 | for items keyed by their file (no name, or a name equal to the file): a new key is appended, and a known key keeps its slot |
| BabelCustom.MergeAllKeys | src/shared/babel-custom.js:7-36 | for items keyed by their file: the merged keys are the de-duplicated keys of the input, in order of first occurrence |
| BabelCustom.MergedKeysDistinct | src/shared/babel-custom.js:7-36 | for items keyed by their file: no two merged items share a key, and every input key survives |
| BabelCustom.MergedSlotDropsName | src/shared/babel-custom.js:23-31 | a collision rebuilds the slot without a name, so its key becomes its file |
| BabelCustom.NamedItemsCanShareKey | src/shared/babel-custom.js:7-36 | with named items the keys need not stay distinct: a named item, an unnamed item for the same file and the named item again leave two slots keyed by that file |
| BabelCustom.MergeCollision | src/shared/babel-custom.js:23-31 | on a key collision where the incoming options have the kind of `Object(existing)`: the slot keeps its file and position, takes the incoming options at every non-empty path where they hold a leaf, and every other slot is unchanged |
| BabelCustom.MergeCollisionPrimitive | src/shared/babel-custom.js:23-31 | on a key collision with incoming options that are not an object (`false`, a string, `undefined`, …): the slot keeps its file, its options become `Object(existing)` (the existing ones when they are an object), and every other slot is unchanged |
| BabelCustom.MergeCollisionKeeps | src/shared/babel-custom.js:23-31 | on any key collision the slot keeps its file and keeps what `Object(existing options)` holds wherever the incoming ones say nothing |
| BabelCustom.MergeAllFirst | src/shared/babel-custom.js:18-20 | the first item's file heads the merged list |
| BabelCustom.CreateConfigItems | src/shared/babel-custom.js:40-45 | one item per request: an explicit `value` pair as given, else the resolved name with the remaining options |
| BabelCustom.DefaultPlugins | src/shared/babel-custom.js:72-81 | the replace-expressions plugin, with the defines as its `replace` option, is present exactly when the defines are truthy |
| BabelCustom.PresetTargets | src/shared/babel-custom.js:99-101 | a modern build targets ES modules, else the given targets, else null |
| BabelCustom.AnnounceSpec | src/shared/babel-custom.js:84-92 | the announced files are new, distinct and non-empty; every such file is announced, and all non-empty files are remembered |
| BabelCustom.AnnouncedOnce | src/shared/babel-custom.js:84-92 | a file announced once is never announced again by the same factory |
| BabelCustom.BabelOptions.constructor | src/shared/babel-custom.js:66 | holds the given presets, plugins and generator options, with no caller flags set |
| BabelCustom.Factory.constructor | src/shared/babel-custom.js:50 | a new factory has announced no configuration file |
| BabelCustom.Factory.AnnounceFiles | src/shared/babel-custom.js:84-92 | the loop announces each new file once and remembers it |
| BabelCustom.Factory.Config | src/shared/babel-custom.js:65-123 | the caller flags are copied; presets are replaced by the default preset only without a file config; plugins become the defaults merged with the existing ones; `compress` turns on minified, compact output that prints only `@__PURE__`/`#__PURE__` comments |
| BabelCustom.DefaultPluginFirst | src/shared/babel-custom.js:108-113 | with defines, the replace-expressions plugin heads the merged plugin list |
| CssModules.ProcessCssModulesArgument | src/shared/css-modules.js:46-55 | "true" and true give true, "false" and false give false, "null" and null give null; anything else passes through; the result is never one of the three strings, so processing twice is processing once |
| CssModules.ShouldCssModules | src/shared/css-modules.js:1-11 | CSS modules apply exactly for true, "true", null and "null"; never for false, "false" or undefined |
| CssModules.CssModulesConfigOf | src/shared/css-modules.js:16-37 | disabled exactly for false or "false"; the default scoped name (the watch variant in watch mode) when CSS modules apply; otherwise the given option is the scoped name, so a string other than "true", "false" and "null" is used verbatim in watch mode or not |
| CompressedSize.NatToString | src/shared/compressed-size.js:7 | decimal digits, non-empty, with no leading zero |
| CompressedSize.NatToStringValue | src/shared/compressed-size.js:7 | the decimal text reads back as the number |
| CompressedSize.Band | src/shared/compressed-size.js:8 | green below 75000 bytes, red above 175000, yellow in between |
| CompressedSize.Pretty | src/shared/compressed-size.js:7 | sizes below 5000 print as `<n> B`, larger ones through pretty-bytes |
| CompressedSize.SmallSizeReadsBack | src/shared/compressed-size.js:7 | a small size's text ends in " B" and its digits read back as the size |
| CompressedSize.FormatSize | src/shared/compressed-size.js:6-12 | `<type>: <coloured size>` for a size-only line, else `<file><type> (<coloured size>)` |
| CompressedSize.GetSizeInfo | src/shared/compressed-size.js:14-27 | the base line is always present; a gzip or brotli line is present exactly when that size is available and non-zero |
| TestUtils.Indent | src/shared/test-utils.js:17 | two spaces per level |
| TestUtils.RenderConcat | src/shared/test-utils.js:27 | rendering joins the lines' renderings in order |
| TestUtils.PrintTreeRendersLines | src/shared/test-utils.js:16-28 | the printed tree is the rendering of its visible lines in pre-order |
| TestUtils.LinesVisible | src/shared/test-utils.js:19 | no printed line names a dot-file, and nested lines are indented at least as deep as their level |
| TestUtils.PrintTreeConcat | src/shared/test-utils.js:18-27 | printing a list of nodes is printing each part in turn |
| TestUtils.HiddenOmitted | src/shared/test-utils.js:19 | a dot-file or dot-directory, with all its children, is left out |
| TestUtils.PrintOneNode | src/shared/test-utils.js:21-25 | a visible node prints its indented name, followed by its children one level deeper when it is a directory |

## Left out

- File system, glob, `JSON.parse`/`JSON.stringify`, `require.resolve`, `builtinModules`, `camelCase`, pretty-bytes and kleur colours are parameters. Their behaviour is not modelled, and the gzip/brotli sizes are given values.
- Rollup, Babel and Terser plugin construction, watch mode, the compile loop, cleaning the output directory, `getConfigFromPkgJson`, the shebang cache, bundle writing and size printing are not modelled. They are I/O or calls into libraries.
- `String.prototype.toLowerCase` is modelled for ASCII letters only (`Utils.AsciiLower`). Non-ASCII case mapping is not modelled.
- The `--external` pieces and `node:.*` are regular expressions. Their matching is an opaque parameter. A piece that is not a valid regular expression (a SyntaxError in `new RegExp`) is not modelled. Neither is an unbalanced piece that changes the structure of the combined alternation.
- Manifest fields that are not strings (`module`, `jsnext:main`, `types` and so on) are read as the empty string. A non-string value would throw or be used as is.
- Object key order is not modelled. Objects are maps, so `Object.keys` order and the order in which `globals` are written are lost.
- Timing, floating-point sizes and stopwatch output are left out.
- A format named like an `Object.prototype` member (for example `constructor`) would be found in the formats object. This is not modelled: such a name falls back to `cjs`.
- BuildFormats.CjsFirstSpec: besides moving `cjs` first, the order of the other formats is V8's outcome for the comparator, not a language guarantee. CjsFirstSpec claims only the multiset and the position of `cjs`. `BuildFormats.FormatsKeepOrder` separately states V8's outcome (the other formats keep their order) as the model's choice.
- `Object.assign` with an array or string source copies indices as properties. The model copies only the properties of object sources.
- Paths are `/`-separated and `Paths.Resolve` does not normalise: `.` and `..` segments, repeated separators and a trailing separator of the relative part are kept, and `Resolve(base, "")` gives `base + "/"` where Node gives `base`.
- `normalizeMinifyOptions` is modelled on its own (Terser). It is not composed with the name-cache selection in `BuildNameCache`.
- BuildNameCache.NameCache.WriteBundle: models one call of the hook. The plugin's `options` hook, which calls `loadNameCache` again before each Rollup build of the step, is not modelled; `NameCache.Load` is the operation it would repeat.
- Terser.SetProp: arrays are treated like primitives. In JavaScript an array takes properties, so `properties: []` gets `regex` and `reserved` written onto it (src/shared/terser.js:21-27), and an array `mangle` gets `properties` attached; the model leaves the array unchanged. Likewise `Terser.AssignOnto` returns a fresh object for an array target where `Object.assign` returns the array itself. The value model has no properties on arrays.
- Terser.CompileShape: `new RegExp(properties.regex)` (src/shared/terser.js:26) throws a SyntaxError for an invalid pattern; the model compiles every string and has no such error path, because regular-expression syntax is not modelled.
- Terser.PropertiesShape: claims only that a string `regex` was compiled. A `regex` of any other truthy type is passed to `new RegExp` too, and what that produces is not modelled.
- `JsValues.Merge` is pure: lodash `merge` writes into `existing.options` in place, so objects shared with it (such as the `defines` object the replace plugin was created with) change too. That aliasing is not modelled.
- `JsValues.Merge` replaces an existing array by an incoming plain object. lodash keeps the array and writes the object's keys onto it, which the model does not do.
- JsValues.MergeTop: keeps the target unchanged whenever the source is not of the target's kind. lodash also writes the characters of a string source (as index keys), an array source onto an object target, an object source onto an array target, and sources onto RegExp, Set or Map targets; none of these is modelled. The wrapper object that `Object(a)` makes of a primitive target is modelled as `{}`.
- BabelCustom.Factory.Config: the `caller*` fields of `BabelOptions` stand for `babelOptions.caller`. The TypeError the hook throws when babel passes options without a `caller` object (src/shared/babel-custom.js:68) is not modelled; the hook always succeeds.
- BabelCustom.CreateConfigItems: `babel.createConfigItem` is modelled as keeping the file and options and dropping the name. Its `type` and validation are not modelled.
- BabelCustom.MergeConfigItems: every config item is modelled with a resolved file. Babel gives a plugin written as a value (an inline function or object) an item whose `file` is undefined; `mergedItem.file.resolved` or `item.file.resolved` (src/shared/babel-custom.js:14-15, 25) then throws a TypeError once such a nameless item is compared with another. The merge has no error path for it.
- The `external` callback's `aliasIds` come from the alias plugin options. They are given as a parameter.
- `getName` warnings and the `.mjs` warning are modelled as booleans. Printing is not modelled.

## Findings

| source | as written | input that shows it | evidently intended | confidence | as-written member | corrected member |
|---|---|---|---|---|---|---|
| src/actions/build.js:232 | `camelCase` is imported from the utilities module, which does not export it, so `normalizePkgName` calls `undefined` | a manifest without `amdName`, built without `--name` | the normalised package name is camel-cased into the library name | not executed | BuildPaths.GetNameAsWrittenFails | BuildPaths.GetName |
| src/actions/build.js:493 | the globals reduce calls the same undefined `camelCase` for every identifier-like external, and `dns` is always listed | any build: `dns` is identifier-like | each identifier-like external gets its camel-cased name as its global | not executed | BuildExternals.GlobalsAsWrittenAlwaysFails | BuildExternals.GlobalsSpec |
