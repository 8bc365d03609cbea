/** What the entry point of src/lib.rs promises: the order of its
    strategies, the alias expansion, and what it ignores. */
module LibProperties {
  import opened Wrappers
  import opened Paths
  import opened Pattern
  import opened Host
  import opened NodeResolve
  import opened Lib

  /** The destinations of one alias with `*` replaced by the capture, each
      joined onto the base directory, in order. */
  function DestinationPaths(baseDir: Path, capture: string, dests: seq<string>): (ps: seq<Path>)
    ensures |ps| == |dests|
    ensures forall i :: 0 <= i < |dests| ==> ps[i] == Join(baseDir, ReplaceStar(dests[i], capture))
  {
    seq(|dests|, i requires 0 <= i < |dests| => Join(baseDir, ReplaceStar(dests[i], capture)))
  }

  /** Every path the aliases lead to, alias by alias: an alias whose pattern
      does not match the specifier contributes nothing. */
  function AliasTargets(baseDir: Path, source: string, paths: seq<(string, seq<string>)>): seq<Path> {
    if paths == [] then []
    else
      (match MatchStar(paths[0].0, source)
       case None => []
       case Some(c) => DestinationPaths(baseDir, c, paths[0].1))
      + AliasTargets(baseDir, source, paths[1..])
  }

  /** `f` applied to each of `xs`, in order. */
  function MapEach<T, U>(f: T -> U, xs: seq<T>): (ys: seq<U>)
    ensures |ys| == |xs|
    ensures forall i :: 0 <= i < |xs| ==> ys[i] == f(xs[i])
  {
    seq(|xs|, i requires 0 <= i < |xs| => f(xs[i]))
  }

  lemma MapEachConcat<T, U>(f: T -> U, a: seq<T>, b: seq<T>)
    ensures MapEach(f, a + b) == MapEach(f, a) + MapEach(f, b)
  {
    var whole, parts := MapEach(f, a + b), MapEach(f, a) + MapEach(f, b);
    forall i | 0 <= i < |whole|
      ensures whole[i] == parts[i]
    {
      if i < |a| {
        assert (a + b)[i] == a[i];
      } else {
        assert (a + b)[i] == b[i - |a|];
      }
    }
  }

  /** The engine's answer for each of `targets`. */
  function ResolveEach(env: Environment, resolver: Resolver, targets: seq<Path>): (rs: seq<Resolution>)
    ensures |rs| == |targets|
    ensures forall i :: 0 <= i < |targets| ==> rs[i] == resolver.Resolve(env.fs, targets[i], env.fuel)
  {
    MapEach(t => resolver.Resolve(env.fs, t, env.fuel), targets)
  }

  lemma ResolveEachConcat(env: Environment, resolver: Resolver, a: seq<Path>, b: seq<Path>)
    ensures ResolveEach(env, resolver, a + b) == ResolveEach(env, resolver, a) + ResolveEach(env, resolver, b)
  {
    MapEachConcat(t => resolver.Resolve(env.fs, t, env.fuel), a, b);
  }

  /** Searching a concatenation searches the first part, then the second. */
  lemma {:induction false} FirstSettledConcat(a: seq<Resolution>, b: seq<Resolution>)
    ensures FirstSettled(a + b) == OrElse(FirstSettled(a), FirstSettled(b))
  {
    if a != [] {
      assert (a + b)[1..] == a[1..] + b;
      FirstSettledConcat(a[1..], b);
    } else {
      assert a + b == b;
    }
  }

  /** The destinations of a matching alias are tried in list order and the
      first that settles is the answer. */
  lemma {:induction false} TryDestinationsInOrder(env: Environment, resolver: Resolver, baseDir: Path,
                                                  capture: string, dests: seq<string>)
    ensures TryDestinations(env.fs, env.fuel, resolver, baseDir, capture, dests) ==
              FirstSettled(ResolveEach(env, resolver.WithBasedir(baseDir), DestinationPaths(baseDir, capture, dests)))
  {
    if dests != [] {
      TryDestinationsInOrder(env, resolver, baseDir, capture, dests[1..]);
      var rs := ResolveEach(env, resolver.WithBasedir(baseDir), DestinationPaths(baseDir, capture, dests));
      assert rs[1..] == ResolveEach(env, resolver.WithBasedir(baseDir), DestinationPaths(baseDir, capture, dests[1..]));
    }
  }

  /** The alias loops try exactly the alias targets, in order, and stop at
      the first that settles. */
  lemma {:induction false} TryAliasesInOrder(env: Environment, resolver: Resolver, baseDir: Path, source: string,
                                             paths: seq<(string, seq<string>)>)
    ensures TryAliases(env.fs, env.fuel, resolver, baseDir, source, paths) ==
              FirstSettled(ResolveEach(env, resolver.WithBasedir(baseDir), AliasTargets(baseDir, source, paths)))
  {
    if paths != [] {
      var r := resolver.WithBasedir(baseDir);
      TryAliasesInOrder(env, resolver, baseDir, source, paths[1..]);
      var rest := AliasTargets(baseDir, source, paths[1..]);
      match MatchStar(paths[0].0, source)
      case None =>
        assert TryAliases(env.fs, env.fuel, resolver, baseDir, source, paths) == TryAliases(env.fs, env.fuel, resolver, baseDir, source, paths[1..]);
        assert AliasTargets(baseDir, source, paths) == [] + rest;
        assert [] + rest == rest;
      case Some(c) =>
        var mine := DestinationPaths(baseDir, c, paths[0].1);
        assert AliasTargets(baseDir, source, paths) == mine + rest;
        TryDestinationsInOrder(env, resolver, baseDir, c, paths[0].1);
        ResolveEachConcat(env, r, mine, rest);
        FirstSettledConcat(ResolveEach(env, r, mine), ResolveEach(env, r, rest));
    }
  }

  /** An alias whose pattern matches nothing adds no target: with no pattern
      matching, the aliases find nothing. */
  lemma {:induction false} NoMatchingAliasNoTarget(baseDir: Path, source: string, paths: seq<(string, seq<string>)>)
    requires forall i :: 0 <= i < |paths| ==> MatchStar(paths[i].0, source).None?
    ensures AliasTargets(baseDir, source, paths) == []
  {
    if paths != [] {
      assert MatchStar(paths[0].0, source).None?;
      NoMatchingAliasNoTarget(baseDir, source, paths[1..]);
    }
  }

  /** "Not found" always comes with the empty path. */
  lemma NotFoundHasEmptyPath(env: Environment, sourceInput: string, file: string, tsConfigFile: string)
    ensures var o := ResolveSpec(env, sourceInput, file, tsConfigFile);
            o.Returned? && !o.result.found ==> o.result.path == ""
  {
    var source := RemoveQueryString(sourceInput);
    var tsPath := TsConfigPath(tsConfigFile, env.cwd);
    if tsPath in env.configs && Parent(tsPath).Some? {
      var baseDir := Parent(tsPath).value;
      var firstBase := FirstAttemptBase(file, source, baseDir);
      if firstBase.Some? {
        StrategiesNotFoundHasEmptyPath(env.fs, env.fuel, source, baseDir, firstBase.value,
                                       env.configs[tsPath].compilerOptions);
      }
    }
  }

  lemma StrategiesNotFoundHasEmptyPath(fs: FileSystem, fuel: nat, source: string, baseDir: Path, firstBase: Path,
                                       options: Option<CompilerOptions>)
    ensures var o := Strategies(fs, fuel, source, baseDir, firstBase, options);
            o.Returned? && !o.result.found ==> o.result.path == ""
  {
    var resolver := Configured(baseDir);
    var direct := OrElse(resolver.WithBasedir(firstBase).Resolve(fs, source, fuel),
                         resolver.WithBasedir(baseDir).Resolve(fs, "@types/" + source, fuel));
    if !Settled(direct) && options.Some? && options.value.paths.Some? {
      var aliases := TryAliases(fs, fuel, resolver, baseDir, source, options.value.paths.value);
      assert Strategies(fs, fuel, source, baseDir, firstBase, options) == Report(aliases);
    }
  }

  /** The strategies run in a fixed order: the specifier as written (from
      the first-attempt base), then `@types/` + specifier (from the tsconfig
      directory, the parent of the tsconfig path), then the alias targets;
      the first that settles is reported. A missing `compilerOptions` is a
      panic; missing `paths` is "not found". */
  lemma StrategyOrder(env: Environment, sourceInput: string, file: string, tsConfigFile: string,
                      baseDir: Path, firstBase: Path)
    requires var tsPath := TsConfigPath(tsConfigFile, env.cwd);
             tsPath in env.configs && Parent(tsPath) == Some(baseDir)
    requires FirstAttemptBase(file, RemoveQueryString(sourceInput), baseDir) == Some(firstBase)
    ensures var source := RemoveQueryString(sourceInput);
            var first := Configured(firstBase).Resolve(env.fs, source, env.fuel);
            var types := Configured(baseDir).Resolve(env.fs, "@types/" + source, env.fuel);
            var o := ResolveSpec(env, sourceInput, file, tsConfigFile);
            var options := env.configs[TsConfigPath(tsConfigFile, env.cwd)].compilerOptions;
            (Settled(first) ==> o == Report(first))
            && (!Settled(first) && Settled(types) ==> o == Report(types))
            && (!Settled(first) && !Settled(types) ==>
                  o == if options.None? then Panicked(MissingCompilerOptions)
                       else if options.value.paths.None? then Returned(NotFoundResult)
                       else Report(FirstSettled(ResolveEach(env, Configured(baseDir),
                                      AliasTargets(baseDir, source, options.value.paths.value)))))
  {
    var source := RemoveQueryString(sourceInput);
    var options := env.configs[TsConfigPath(tsConfigFile, env.cwd)].compilerOptions;
    assert Configured(baseDir).WithBasedir(firstBase) == Configured(firstBase);
    assert Configured(baseDir).WithBasedir(baseDir) == Configured(baseDir);
    if options.Some? && options.value.paths.Some? {
      TryAliasesInOrder(env, Configured(baseDir), baseDir, source, options.value.paths.value);
    }
  }

  /** `baseUrl` is not consulted: changing it changes nothing. */
  lemma BaseUrlIgnored(env: Environment, sourceInput: string, file: string, tsConfigFile: string,
                       baseUrl: Option<string>)
    requires var tsPath := TsConfigPath(tsConfigFile, env.cwd);
             tsPath in env.configs && env.configs[tsPath].compilerOptions.Some?
    ensures var tsPath := TsConfigPath(tsConfigFile, env.cwd);
            var options := env.configs[tsPath].compilerOptions.value;
            var changed := env.(configs := env.configs[tsPath := TsConfig(Some(options.(baseUrl := baseUrl)))]);
            ResolveSpec(changed, sourceInput, file, tsConfigFile) == ResolveSpec(env, sourceInput, file, tsConfigFile)
  {
    var tsPath := TsConfigPath(tsConfigFile, env.cwd);
    var options := env.configs[tsPath].compilerOptions.value;
    var changed := env.(configs := env.configs[tsPath := TsConfig(Some(options.(baseUrl := baseUrl)))]);
    assert changed.fs == env.fs && changed.cwd == env.cwd && changed.fuel == env.fuel;
    assert changed.configs[tsPath].compilerOptions == Some(options.(baseUrl := baseUrl));
    var source := RemoveQueryString(sourceInput);
    match Parent(tsPath)
    case None =>
    case Some(baseDir) =>
      match FirstAttemptBase(file, source, baseDir)
      case None =>
      case Some(firstBase) =>
        StrategiesReadOnlyPaths(env.fs, env.fuel, source, baseDir, firstBase,
                                options, options.(baseUrl := baseUrl));
  }

  /** Of the compiler options, the strategies read only `paths`. */
  lemma StrategiesReadOnlyPaths(fs: FileSystem, fuel: nat, source: string, baseDir: Path, firstBase: Path,
                                a: CompilerOptions, b: CompilerOptions)
    requires a.paths == b.paths
    ensures Strategies(fs, fuel, source, baseDir, firstBase, Some(a)) ==
            Strategies(fs, fuel, source, baseDir, firstBase, Some(b))
  {
  }

  /** A query string on the specifier makes no difference. */
  lemma QueryStringIgnored(env: Environment, sourceInput: string, file: string, tsConfigFile: string)
    ensures ResolveSpec(env, RemoveQueryString(sourceInput), file, tsConfigFile) ==
            ResolveSpec(env, sourceInput, file, tsConfigFile)
  {
    RemoveQueryStringIdempotent(sourceInput);
  }
}
