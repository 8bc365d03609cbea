# Node-style module resolution for a TypeScript import resolver — a Dafny model

This project models the resolution core of the Rust crate behind
`eslint-import-resolver-typescript`. The core has two parts:

- **The engine** (src/node_resolve.rs). A `Resolver` carries a base
  directory, a list of file extensions, a list of `package.json` main fields
  and a symlink option. Given a `require()` argument it follows the Node.js
  "require(X)" algorithm:
  - a core module is returned by name;
  - otherwise X is tried as a file (X, then X + each extension);
  - then as a directory: the first main field of its `package.json` that is
    a string, else `index` + each extension;
  - then through every `node_modules` folder from the base directory up to
    the root, where a package's `exports` field (string, array or wildcard
    map) is also consulted;
  - the result is canonicalised, or normalised lexically when symlinks are
    preserved.
- **The entry point** (src/lib.rs). It strips a query string from the
  specifier and locates `tsconfig.json`. It then tries three strategies in
  order: the specifier as written, `@types/` + specifier, and each
  `compilerOptions.paths` alias whose single-`*` pattern matches, with the
  capture substituted into each destination. It reports `{found, path}`.

The file system is a value (`Host.FileSystem`): a set of files, a set of
directories, the parsed JSON of each parseable file, the result of
`canonicalize` for each path it succeeds on, and the set of built-in module
names. The parsed tsconfig files are a map from path to value, and the
current directory is a parameter. Paths are text, read as Unix paths.
`Paths` states what the code uses of `Path::components`, `Path::join`,
`Path::parent`, `PathBuf::pop`, `Path::strip_prefix`, `str::find`,
`str::replace` and the `substring` crate. `parent` and `strip_prefix` work
on components, as the standard library does: empty pieces (doubled or
trailing separators) and `.` pieces past the start are no components, and
the text they return is trimmed of them at the ends.

A panic of the source (an `unwrap` on a missing value) is modelled as an
outcome of its own. In the engine it is the error `Crashed`, which no
`or_else` fallback and no next `node_modules` folder gets past. At the entry
point it is `Panicked`. The walk between a directory and the `main` field
of its `package.json` can loop, so it is bounded by a `fuel` parameter.
Running out of fuel is the crash `DepthExhausted`; it stands for the stack
overflow the real program hits.

Modules, one per file:

- `Wrappers` (wrappers.dfy): `Option` and `Result`.
- `Paths` (paths.dfy): the standard-library path and string operations
  listed above.
- `PathProperties` (path_properties.dfy): what `Path::parent` and
  `Path::strip_prefix` return, stated against `Path::components` for every
  path.
- `Pattern` (pattern.dfy): `match_star` and its properties.
- `Normalize` (normalize.dfy): `normalize_path`, as an imperative method
  over a path being pushed and popped, proved equal to a specification
  function, with the properties of that function.
- `Host` (host.dfy): JSON values and the file system.
- `NodeResolve` (node_resolve.rs → node_resolve.dfy): the resolver and the
  engine.
- `ResolverProperties` (resolver_properties.dfy): lemmas about the engine.
- `Lib` (lib.dfy): the entry point, as a function and as an imperative
  method with the source's nested loops, proved equal.
- `LibProperties` (lib_properties.dfy): lemmas about the entry point.

Behaviour of the code that the model makes explicit:

- `match_star("*", "")` fails: the length guard comes before the `*` case.
- An exact match of a pattern that contains `*` gives the empty capture, not
  the text the `*` stands for.
- `baseUrl` is never consulted. The base directory is always the parent of
  the tsconfig path (the code reading `baseUrl` is commented out).
- The `node_modules` walk also runs for absolute specifiers. Joining an
  absolute specifier onto a `node_modules` folder gives the specifier back,
  so each folder re-probes the specifier itself. If the specifier names
  nothing and no `package.json` lies on its path, the parent-retry of
  `exports` climbs to `/` and unwraps the root's missing parent. So
  resolving such a specifier panics as soon as the walk meets a
  `node_modules` folder (`ResolverProperties.MissingAbsoluteTargetPanics`).
- An `exports` object is read in the order the JSON map iterates. A key
  that does not start with `./`, such as `"."`, panics when the scan
  reaches it. So does a matching key whose value is not a string.

src/lib.rs holds a copy of `match_star` (src/lib.rs:14-46) that is the same
as src/node_resolve.rs:449-481 statement for statement. Both are modelled by
the one function `Pattern.MatchStar`.

## Model

| member | source | states |
|---|---|---|
| Pattern.MatchStarEdgeCases | src/node_resolve.rs:449-465 | a search shorter than the pattern fails (so `match_star("*", "")` fails); `*` matches any non-empty search whole; a pattern matches itself with the empty capture; a `*`-free pattern matches nothing else |
| Pattern.MatchStarAnchoredBranch | src/node_resolve.rs:467-480 | the clamped `substring` slices of the anchored branch are the plain slices around the first `*`, and the branch succeeds exactly when both anchors agree |
| Pattern.MatchStarAnchors | src/node_resolve.rs:449-481 | for a pattern with a `*` and a search other than the pattern: a match exists iff the search is long enough and starts with the text before the first `*` and ends with the text after it; then prefix + capture + suffix = search and the capture is non-empty |
| Pattern.ReplaceSingleStar | src/lib.rs:173 | in a single-`*` pattern, `replace("*", c)` puts `c` between the text before and after the `*` |
| Pattern.MatchStarSubstitution | src/node_resolve.rs:449-481 | substituting a non-empty capture other than `*` into a single-`*` pattern and matching the result gives the capture back |
| Pattern.MatchStarRebuildsSearch | src/lib.rs:14-46 | for the copy in src/lib.rs (the same function): substituting the capture of a successful non-exact match into a single-`*` pattern rebuilds the search |
| Paths.FindChar | src/lib.rs:50 | `find` returns the index of the first occurrence, none before it, and none exactly when the character is absent |
| Paths.Substring | src/node_resolve.rs:467-480 | within bounds, `substring(start, end)` is the slice; clamped, it is never longer than the text |
| Paths.Join | src/node_resolve.rs:171 | joining an absolute child gives the child; otherwise the result starts with the base and ends with the child; an absolute base stays absolute |
| Paths.JoinSeparator | src/node_resolve.rs:171 | a relative child is appended directly to an empty base or one ending in `/`, and after a new `/` to any other base |
| Paths.Components | src/node_resolve.rs:376 | the root comes first for an absolute path and nowhere else; every name yielded is non-empty, not `.` or `..`, and holds no separator |
| Paths.Parent | src/node_resolve.rs:365-369 | a parent is a strictly shorter prefix of the path, absolute when the path is; an absolute path has none exactly when only the root is left once trailing `.` and empty pieces are trimmed, a relative one exactly when it is empty |
| Paths.ParentSkipsCurDir | src/lib.rs:92 | the parent of `dir/./name` is `dir`: a `.` component is not a level |
| Paths.ParentOfRootCurDir | src/node_resolve.rs:365-369 | `/.` is the root and has no parent |
| Paths.ParentSkipsTrailingSeparator | src/node_resolve.rs:365-369 | the parent of `pkg/sub/` is `pkg`: a trailing separator is not a level |
| Paths.StripPathPrefix | src/node_resolve.rs:312 | `strip_prefix` succeeds exactly when the components of the prefix begin those of the path; the remainder is no longer than the path and ends in no separator unless it is the root |
| Paths.StripPathPrefixBelowName | src/node_resolve.rs:312 | below a name `a`, the path `a/c/` leaves `c`, without the trailing separator |
| Paths.StripPathPrefixOtherName | src/node_resolve.rs:312 | a path whose first name differs from the prefix name is not below it |
| Paths.StripPathPrefixExample | src/node_resolve.rs:312 | `pkg/sub/` below `pkg` is `sub` |
| Paths.StripPathPrefixTextIsNotEnough | src/node_resolve.rs:312 | `pkg` is no prefix of `pkgx/a`, though it is a prefix of its text |
| PathProperties.ParentComponents | src/node_resolve.rs:365-369 | for every path, the components of the parent are those of the path without the last one; a path has no parent exactly when its components are none or the root alone |
| PathProperties.StripPathPrefixComponents | src/node_resolve.rs:312 | for every path and prefix, when `strip_prefix` succeeds, the components of the prefix followed by those of the remainder are the components of the path |
| Paths.ReplaceStarConcat | src/node_resolve.rs:321-324 | `replace("*", c)` distributes over concatenation |
| Paths.ReplaceStarNoStar | src/node_resolve.rs:321-324 | `replace("*", c)` leaves text without `*` unchanged |
| Normalize.NormalizePath | src/node_resolve.rs:374-396 | the loop that pushes names and pops on `..`, starting from `/`, computes `NormalizedPath` |
| Normalize.NormalizedPathIsClean | src/node_resolve.rs:374-396 | the result is absolute and its components after the root are plain names: no `.`, no `..` |
| Normalize.NormalizedPathIdempotent | src/node_resolve.rs:374-396 | normalising a normalised path changes nothing |
| Normalize.ParentDirAtRoot | src/node_resolve.rs:384-386 | a `..` right after the root is a no-op |
| Normalize.PopRender | src/node_resolve.rs:384-386 | `pop` on a built path drops its last name and leaves the root alone |
| Normalize.ComponentsOfRender | src/node_resolve.rs:375-394 | the components of a path built by pushing names are the root followed by those names |
| Host.Lookup | src/node_resolve.rs:248 | `pkg[name]` finds the first entry with that key, and none exactly when no entry has it |
| NodeResolve.Resolver.GetBasedir | src/node_resolve.rs:92-97 | the base directory if set, `MissingBasedir` otherwise |
| NodeResolve.Default | src/node_resolve.rs:71-84 | no base directory, extensions `.js`, `.json`, `.node`, symlinks not preserved, main field `main` |
| NodeResolve.Resolver.WithBasedir | src/node_resolve.rs:100-105 | sets the base directory and changes no other field |
| NodeResolve.Resolver.WithExtensions | src/node_resolve.rs:108-127 | same count and order, every extension starts with `.`, dotted entries unchanged, others get a `.` in front; no other field changes |
| NodeResolve.DotExtensionsKeepDotted | src/node_resolve.rs:116-122 | extensions that all start with `.` come out unchanged |
| NodeResolve.Resolver.WithMainFields | src/node_resolve.rs:130-142 | sets the main fields and changes no other field |
| NodeResolve.Resolver.PreserveSymlinks | src/node_resolve.rs:145-150 | sets the symlink option and changes no other field |
| NodeResolve.Resolver.Normalize | src/node_resolve.rs:186-192 | with symlinks preserved the result is the normalised path, which is absolute; otherwise it succeeds exactly when `canonicalize` does, with its result; the only error is an I/O error |
| NodeResolve.FirstFile | src/node_resolve.rs:206-215 | the probing loop succeeds iff some candidate is a file, returns the first such candidate, and otherwise fails with "not found" |
| NodeResolve.Resolver.ResolveAsFile | src/node_resolve.rs:196-216 | the result is the first file among the path itself and then path + each extension in order; "not found" when there is none |
| NodeResolve.Resolver.ResolveIndex | src/node_resolve.rs:336-348 | the result is the first file among path/`index` + each extension in order; "not found" when there is none |
| NodeResolve.ReadPackage | src/node_resolve.rs:239-240 | reading succeeds exactly for a file that parses; a directory or an unparsable file is a JSON error, a missing path an I/O error |
| NodeResolve.FirstStringField | src/node_resolve.rs:245-249 | the chosen main field is the first whose value is a string, none exactly when no field's value is a string |
| NodeResolve.FirstString | src/node_resolve.rs:296-306 | the first string of an `exports` array, none when it holds no string |
| NodeResolve.ScanExports | src/node_resolve.rs:310-330 | the scan stops at the first key that matches, or at the first key without `./`, having skipped only `./` keys that do not match; no match exactly when every key is such a key |
| NodeResolve.FirstSettled | src/node_resolve.rs:351-371 | the first result that settles (success or panic), preceded only by unsettled ones; "not found" when none settles |
| ResolverProperties.WithExtensionsIdempotent | src/node_resolve.rs:108-127 | normalising the extensions again changes nothing |
| ResolverProperties.ResolveAsFileFirstExtension | src/node_resolve.rs:196-216 | when the path is not a file, the file for the first extension that has one is returned |
| ResolverProperties.ResolveIndexFirstExtension | src/node_resolve.rs:336-348 | the index file of the first extension that has one is returned |
| ResolverProperties.FirstStringFieldAt | src/node_resolve.rs:245-249 | a string field preceded only by non-string fields is the one chosen |
| ResolverProperties.DirectoryFallsBackToIndex | src/node_resolve.rs:220-261 | a missing, unparsable or non-object `package.json`, or one with no string main field, makes the directory resolve to its index file |
| ResolverProperties.MainFieldPriority | src/node_resolve.rs:220-261 | the first string main field's target is tried as a file then a directory; if that does not settle the index file is used and no later field is tried |
| ResolverProperties.ExportsString | src/node_resolve.rs:290-294 | a string `exports` is resolved as a file below the package |
| ResolverProperties.ExportsArrayFirstString | src/node_resolve.rs:296-308 | an array `exports` resolves only its first string, with no fallback to a later one |
| ResolverProperties.ExportsArrayWithoutString | src/node_resolve.rs:296-333 | an array `exports` without a string finds nothing |
| ResolverProperties.ScanExportsAt | src/node_resolve.rs:310-330 | a matching `./` key preceded only by skipped keys is where the scan stops |
| ResolverProperties.ExportsObjectFirstMatch | src/node_resolve.rs:310-330 | the first matching key wins: its value with `*` replaced by the capture is resolved as a file, even when that file is missing |
| Paths.ReplaceStarLeavesNoStar | src/node_resolve.rs:321-324 | when the capture has no `*`, no `*` is left after substitution |
| ResolverProperties.ExportsClimbPanicsAtRoot | src/node_resolve.rs:270-281 | retrying at the parents of an absolute path with no `package.json` above it ends in the panic of unwrapping the root's parent |
| ResolverProperties.MissingAbsoluteTargetPanics | src/node_resolve.rs:153-184 | an absolute specifier that names nothing, with no `package.json` on its path, panics once the base directory has a `node_modules` folder |
| ResolverProperties.AncestorsChain | src/node_resolve.rs:365-369 | the walk visits the base directory, then each parent in turn, and stops at a directory without a parent |
| ResolverProperties.NodeModulesWalk | src/node_resolve.rs:351-371 | the walk returns the first settled probe from the base directory upward, and "not found" after the root |
| ResolverProperties.FirstSettledAt | src/node_resolve.rs:358-363 | a settled probe preceded only by unsettled ones is the answer of the search |
| ResolverProperties.ClosestNodeModulesWins | src/node_resolve.rs:351-371 | the closest directory whose `node_modules` probe settles gives the answer |
| ResolverProperties.WalkOutcome | src/node_resolve.rs:351-371 | the walk ends in a success, a panic or "not found" |
| ResolverProperties.ResolveCoreModule | src/node_resolve.rs:155-158 | a core module resolves to its own name |
| ResolverProperties.ResolveNeedsBasedir | src/node_resolve.rs:161-167 | a relative non-core specifier without a base directory fails with `MissingBasedir` |
| ResolverProperties.ResolveAbsoluteFile | src/node_resolve.rs:161-175 | an absolute specifier naming a file resolves from the root whatever the base directory: with symlinks preserved it yields its normalised path, otherwise (the mode of the entry point) the result of `canonicalize` on it, when that succeeds |
| ResolverProperties.ResolvedPathIsNormal | src/node_resolve.rs:153-192 | with symlinks preserved, every resolved non-core path is absolute and already normalised |
| ResolverProperties.ResolveFromHasBasedir | src/node_resolve.rs:444-446 | `resolve_from` never fails for want of a base directory |
| Lib.RemoveQueryString | src/lib.rs:49-55 | the result holds no `?`; without `?` the input is unchanged; with one, the result is the prefix before the first `?` |
| Lib.TsConfigPath | src/lib.rs:70-80 | an absolute `.json` path is used as is; another absolute path gets `tsconfig.json` appended, after a `/` unless it already ends with one; a relative path is appended to the current directory the same way; the result is absolute when the input or the current directory is |
| Lib.Configured | src/lib.rs:95-118 | the entry point's resolver: base directory set, the eight extensions and nine main fields in order, symlinks not preserved |
| Lib.FirstAttemptBase | src/lib.rs:120-133 | an absolute importer and a specifier starting with `.` give the importer's directory; otherwise the tsconfig directory; an absolute importer without a parent panics first |
| Lib.Report | src/lib.rs:135-153 | a success is reported as found with its path; another error as not found with the empty path; an engine panic as a panic |
| Lib.Resolve | src/lib.rs:64-195 | the imperative entry point, with its early returns and nested loops, computes `ResolveSpec` |
| Lib.ResolveAliases | src/lib.rs:164-189 | the nested loops over aliases and destinations compute `TryAliases` |
| LibProperties.RemoveQueryStringIdempotent | src/lib.rs:49-55 | removing the query string twice is removing it once |
| LibProperties.QueryStringIgnored | src/lib.rs:66-67 | a query string on the specifier makes no difference to the outcome |
| LibProperties.StrategyOrder | src/lib.rs:120-194 | the specifier as written, then `@types/` + specifier from the tsconfig directory, then the alias targets; the first that settles is reported; missing `compilerOptions` panics, missing `paths` is not found |
| LibProperties.TryAliasesInOrder | src/lib.rs:164-189 | the alias loops resolve exactly the alias targets, in order, and stop at the first that settles |
| LibProperties.TryDestinationsInOrder | src/lib.rs:172-187 | the destinations of a matching alias, with `*` replaced and joined onto the base directory, are tried in order |
| LibProperties.NoMatchingAliasNoTarget | src/lib.rs:166-170 | an alias whose pattern does not match contributes no target |
| LibProperties.FirstSettledConcat | src/lib.rs:164-189 | searching a concatenation searches the first part, then the second |
| LibProperties.BaseUrlIgnored | src/lib.rs:84-92 | changing `baseUrl` changes nothing |
| LibProperties.StrategiesReadOnlyPaths | src/lib.rs:155-165 | of the compiler options, only `paths` is read |
| LibProperties.NotFoundHasEmptyPath | src/lib.rs:157-162 | "not found" always carries the empty path |
| LibProperties.StrategiesNotFoundHasEmptyPath | src/lib.rs:191-194 | every "not found" the strategies report carries the empty path |

## Left out

- `is_core_module` reads the directory `./node_modules/@types/node` on every
  call and panics when it is missing. The model takes the set of built-in
  names as part of the file system value.
- `is_file`, `is_dir`, `File::open`, `serde_json::from_reader` and
  `canonicalize` are replaced by the file system value.
  `NodeResolve.Resolver.Normalize` does not model what canonicalisation
  computes: the map gives its result.
- Parsing `tsconfig.json` is replaced by a map from path to parsed value.
  A path absent from the map is a parse failure, which the source unwraps.
  `current_dir` is a parameter.
- Map iteration order is not modelled. The entries of an `exports` object
  and the `paths` of a tsconfig are sequences in whatever order the JSON and
  tsconfig crates iterate them. Duplicate keys are resolved by the parser
  before the model sees the value.
- `NodeResolve.Resolver.ResolveAsDirectory`: nesting of `main` fields is
  bounded by `fuel`. Beyond it the model reports `DepthExhausted`, where the
  source recurses further and, on a cycle, overflows its stack.
- `Pattern.MatchStar`: strings are sequences of characters taken to be
  ASCII. The source mixes byte lengths (`len`, `find`) with character
  indices (`substring`), which agree only on ASCII text.
- `Paths.Parent`: `Path::components`, `Path::parent` and `Path::strip_prefix`
  are modelled for Unix paths only, with no Windows prefixes. The `Prefix`
  case of `normalize_path` cannot occur.
- The file system value is keyed by path text. Two spellings of one path
  that differ by `.` or `..` components or doubled separators are different
  keys, where the operating system would find the same file. So a `main`
  field of `"."` or `"../pkg"` that leads back to the same package makes the
  source recurse (src/node_resolve.rs:252-255, then 222-224, since
  `/loop/./package.json` is `/loop/package.json` to the operating system)
  until its stack overflows. The model finds no file under the new spelling
  and falls back to the index file or "not found" instead of reporting
  `DepthExhausted`, unless the file system value lists every spelling.
- The napi binding, the `print!` of the `@types` attempt, and the
  `Display`/`Error` implementations of `ResolutionError` are left out. Error
  descriptions become constructors of `ResolutionError`.
- The "Invalid path" error of `resolve_as_file` (a path that is not UTF-8)
  cannot occur on ASCII paths.
