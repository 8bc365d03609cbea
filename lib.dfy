/** The entry point of src/lib.rs: resolving an import `source` written in
    the file `file` of a TypeScript project described by a `tsconfig.json`.
    The engine is tried with the specifier as written, then with
    `@types/` in front of it, then with each `compilerOptions.paths` alias
    whose pattern matches; the first success is reported.

    The tsconfig file is read through a map from its path to its parsed
    value (absent: the parse fails, and the source unwraps that failure);
    the current directory is a parameter. */
module Lib {
  import opened Wrappers
  import opened Paths
  import opened Pattern
  import opened Host
  import opened NodeResolve

  /** The extensions the entry point configures, in probing order. */
  const Extensions: seq<string> := [".js", ".json", ".node", ".mjs", ".cjs", ".ts", ".tsx", ".d.ts"]

  /** The `package.json` fields the entry point configures, in priority order. */
  const MainFields: seq<string> :=
    ["types", "typings", "fesm2020", "fesm2015", "esm2020", "es2020", "module", "jsnext:main", "main"]

  /** The part of `compilerOptions` the entry point reads; `paths` maps each
      alias pattern to its destinations, in the order the map iterates. */
  datatype CompilerOptions = CompilerOptions(baseUrl: Option<string>, paths: Option<seq<(string, seq<string>)>>)

  datatype TsConfig = TsConfig(compilerOptions: Option<CompilerOptions>)

  /** The answer: `path` is meaningful only when `found`. */
  datatype ResolveResult = ResolveResult(found: bool, path: string)

  /** The `unwrap`s of the entry point, and a panic of the engine. */
  datatype Panic =
    | UnparsableTsConfig
    | TsConfigWithoutParent
    | ImporterWithoutParent
    | MissingCompilerOptions
    | ResolverPanicked(crash: Crash)

  datatype Outcome = Returned(result: ResolveResult) | Panicked(panic: Panic)

  /** What the entry point reads besides its arguments. */
  datatype Environment = Environment(fs: FileSystem, cwd: Path, configs: map<Path, TsConfig>, fuel: nat)

  const NotFoundResult := ResolveResult(false, "")

  /** The file looked for in a tsconfig directory. */
  const TsConfigName: string := "tsconfig.json"

  /** `remove_query_string`: the text before the first `?`. */
  function RemoveQueryString(id: string): (r: string)
    ensures '?' !in r
    ensures '?' !in id ==> r == id
    ensures '?' in id ==> StartsWith(id, r) && id[|r|] == '?'
  {
    match FindChar(id, '?')
    case Some(i) => Substring(id, 0, i)
    case None => id
  }

  /** Removing the query string a second time changes nothing. */
  lemma RemoveQueryStringIdempotent(id: string)
    ensures RemoveQueryString(RemoveQueryString(id)) == RemoveQueryString(id)
  {
  }

  /** Where the tsconfig file is: an absolute `.json` path as given, any other
      absolute path as a directory holding `tsconfig.json`, a relative path
      below the current directory. */
  function TsConfigPath(tsConfigFile: string, cwd: Path): (r: Path)
    ensures StartsWith(tsConfigFile, "/") && EndsWith(tsConfigFile, ".json") ==> r == tsConfigFile
    ensures StartsWith(tsConfigFile, "/") && !EndsWith(tsConfigFile, ".json") ==>
              StartsWith(r, tsConfigFile) && EndsWith(r, "/" + TsConfigName)
    ensures StartsWith(tsConfigFile, "/") && !EndsWith(tsConfigFile, ".json") ==>
              r == tsConfigFile + (if tsConfigFile[|tsConfigFile| - 1] == '/' then "" else "/") + TsConfigName
    ensures !StartsWith(tsConfigFile, "/") ==> StartsWith(r, cwd) && EndsWith(r, tsConfigFile)
    ensures !StartsWith(tsConfigFile, "/") ==>
              r == cwd + (if cwd == [] || cwd[|cwd| - 1] == '/' then "" else "/") + tsConfigFile
    ensures StartsWith(tsConfigFile, "/") || IsAbsolute(cwd) ==> IsAbsolute(r)
  {
    if !StartsWith(tsConfigFile, "/") then
      assert !IsAbsolute(tsConfigFile);
      JoinSeparator(cwd, tsConfigFile);
      Join(cwd, tsConfigFile)
    else if EndsWith(tsConfigFile, ".json") then tsConfigFile
    else
      JoinEndsWithSlashName(tsConfigFile, TsConfigName);
      JoinSeparator(tsConfigFile, TsConfigName);
      Join(tsConfigFile, TsConfigName)
  }

  /** Joining a name that has no leading `/` onto an absolute base puts a
      separator right before the name. */
  lemma JoinEndsWithSlashName(base: Path, name: string)
    requires IsAbsolute(base) && |name| > 0 && name[0] != '/'
    ensures StartsWith(Join(base, name), base) && EndsWith(Join(base, name), "/" + name)
  {
    var r := Join(base, name);
    if base[|base| - 1] == '/' {
      assert r == base[..|base| - 1] + ("/" + name);
    } else {
      assert r == base + ("/" + name);
    }
  }

  /** The resolver of the entry point, based at `baseDir`. */
  function Configured(baseDir: Path): (r: Resolver)
    ensures r.basedir == Some(baseDir) && r.extensions == Extensions
    ensures r.mainFields == MainFields && !r.preserveSymlinks
  {
    DotExtensionsKeepDotted(Extensions);
    Default().WithExtensions(Extensions).WithBasedir(baseDir).WithMainFields(MainFields)
  }

  /** The base directory of the first attempt: the importer's directory for
      a specifier starting with `.` in an absolute importer, the tsconfig
      directory otherwise. `None` is the panic of an absolute importer
      without a parent, which comes before the specifier is looked at. */
  function FirstAttemptBase(file: string, source: string, baseDir: Path): (r: Option<Path>)
    ensures r.None? <==> StartsWith(file, "/") && Parent(file).None?
    ensures r.Some? && r.value != baseDir ==> StartsWith(file, "/") && StartsWith(source, ".")
                                               && Parent(file) == Some(r.value)
    ensures StartsWith(file, "/") && StartsWith(source, ".") && Parent(file).Some? ==> r == Parent(file)
  {
    if StartsWith(file, "/") then
      match Parent(file)
      case None => None
      case Some(fileDir) => Some(if !StartsWith(source, ".") then baseDir else fileDir)
    else Some(baseDir)
  }

  /** The destinations of one alias, with the capture for `*`, tried in
      order below the base directory. */
  function TryDestinations(fs: FileSystem, fuel: nat, resolver: Resolver, baseDir: Path, capture: string,
                           dests: seq<string>): Resolution
  {
    if dests == [] then Err(NotFound)
    else
      OrElse(resolver.WithBasedir(baseDir).Resolve(fs, Join(baseDir, ReplaceStar(dests[0], capture)), fuel),
             TryDestinations(fs, fuel, resolver, baseDir, capture, dests[1..]))
  }

  /** The aliases in order, each one skipped unless its pattern matches. */
  function TryAliases(fs: FileSystem, fuel: nat, resolver: Resolver, baseDir: Path, source: string,
                      paths: seq<(string, seq<string>)>): Resolution
  {
    if paths == [] then Err(NotFound)
    else
      match MatchStar(paths[0].0, source)
      case None => TryAliases(fs, fuel, resolver, baseDir, source, paths[1..])
      case Some(c) =>
        OrElse(TryDestinations(fs, fuel, resolver, baseDir, c, paths[0].1),
               TryAliases(fs, fuel, resolver, baseDir, source, paths[1..]))
  }

  /** What an engine result makes the entry point do. */
  function Report(r: Resolution): (o: Outcome)
    ensures o.Returned? <==> !(r.Err? && r.error.Crashed?)
    ensures o.Returned? ==> o.result.found == r.Ok?
    ensures o.Returned? && r.Ok? ==> o.result.path == r.value
    ensures o.Returned? && r.Err? ==> o.result == NotFoundResult
  {
    match r
    case Ok(p) => Returned(ResolveResult(true, p))
    case Err(Crashed(c)) => Panicked(ResolverPanicked(c))
    case Err(_) => Returned(NotFoundResult)
  }

  /** The entry point `resolve`, as a function of its inputs. */
  function ResolveSpec(env: Environment, sourceInput: string, file: string, tsConfigFile: string): Outcome {
    var source := RemoveQueryString(sourceInput);
    var tsPath := TsConfigPath(tsConfigFile, env.cwd);
    if tsPath !in env.configs then Panicked(UnparsableTsConfig)
    else
      match Parent(tsPath)
      case None => Panicked(TsConfigWithoutParent)
      case Some(baseDir) =>
        match FirstAttemptBase(file, source, baseDir)
        case None => Panicked(ImporterWithoutParent)
        case Some(firstBase) =>
          Strategies(env.fs, env.fuel, source, baseDir, firstBase, env.configs[tsPath].compilerOptions)
  }

  /** The three strategies, once the tsconfig file is read and the base
      directories are known. */
  function Strategies(fs: FileSystem, fuel: nat, source: string, baseDir: Path, firstBase: Path,
                      options: Option<CompilerOptions>): Outcome
  {
    var resolver := Configured(baseDir);
    var direct := OrElse(resolver.WithBasedir(firstBase).Resolve(fs, source, fuel),
                         resolver.WithBasedir(baseDir).Resolve(fs, "@types/" + source, fuel));
    if Settled(direct) then Report(direct)
    else
      match options
      case None => Panicked(MissingCompilerOptions)
      case Some(opts) =>
        match opts.paths
        case None => Returned(NotFoundResult)
        case Some(paths) => Report(TryAliases(fs, fuel, resolver, baseDir, source, paths))
  }

  /** The entry point `resolve`: one attempt after another, returning at the
      first success, with nested loops over the aliases and their
      destinations. */
  method Resolve(env: Environment, sourceInput: string, file: string, tsConfigFile: string)
    returns (outcome: Outcome)
    ensures outcome == ResolveSpec(env, sourceInput, file, tsConfigFile)
  {
    var source := RemoveQueryString(sourceInput);
    var tsPath := TsConfigPath(tsConfigFile, env.cwd);
    if tsPath !in env.configs {
      return Panicked(UnparsableTsConfig);
    }
    var config := env.configs[tsPath];
    var parent := Parent(tsPath);
    if parent.None? {
      return Panicked(TsConfigWithoutParent);
    }
    var baseDir := parent.value;
    var resolver := Configured(baseDir);

    var resolved: Resolution;
    if StartsWith(file, "/") {
      var fileParent := Parent(file);
      if fileParent.None? {
        return Panicked(ImporterWithoutParent);
      }
      if !StartsWith(source, ".") {
        resolved := resolver.Resolve(env.fs, source, env.fuel);
      } else {
        resolved := resolver.WithBasedir(fileParent.value).Resolve(env.fs, source, env.fuel);
      }
    } else {
      resolved := resolver.WithBasedir(baseDir).Resolve(env.fs, source, env.fuel);
    }
    if Settled(resolved) {
      return Report(resolved);
    }

    resolved := resolver.WithBasedir(baseDir).Resolve(env.fs, "@types/" + source, env.fuel);
    if Settled(resolved) {
      return Report(resolved);
    }

    if config.compilerOptions.None? {
      return Panicked(MissingCompilerOptions);
    }
    var pathsMap := config.compilerOptions.value.paths;
    if pathsMap.None? {
      return Returned(NotFoundResult);
    }
    resolved := ResolveAliases(env.fs, env.fuel, resolver, baseDir, source, pathsMap.value);
    return Report(resolved);
  }

  /** The loops over the aliases and their destinations, returning the first
      answer that settles. */
  method ResolveAliases(fs: FileSystem, fuel: nat, resolver: Resolver, baseDir: Path, source: string,
                        paths: seq<(string, seq<string>)>)
    returns (resolved: Resolution)
    ensures resolved == TryAliases(fs, fuel, resolver, baseDir, source, paths)
  {
    ghost var aliases := TryAliases(fs, fuel, resolver, baseDir, source, paths);
    for i := 0 to |paths|
      invariant aliases == TryAliases(fs, fuel, resolver, baseDir, source, paths[i..])
    {
      var (pattern, dests) := paths[i];
      assert paths[i..][1..] == paths[i + 1..];
      var starMatch := MatchStar(pattern, source);
      if starMatch.None? {
        continue;
      }
      ghost var rest := TryAliases(fs, fuel, resolver, baseDir, source, paths[i + 1..]);
      for j := 0 to |dests|
        invariant aliases == OrElse(TryDestinations(fs, fuel, resolver, baseDir, starMatch.value, dests[j..]), rest)
      {
        assert dests[j..][1..] == dests[j + 1..];
        var physicalPath := ReplaceStar(dests[j], starMatch.value);
        resolved := resolver.WithBasedir(baseDir).Resolve(fs, Join(baseDir, physicalPath), fuel);
        if Settled(resolved) {
          return resolved;
        }
      }
    }
    return Err(NotFound);
  }
}
