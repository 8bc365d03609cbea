/** What the resolution engine promises: the builders, the priority of the
    `main` fields and the fallback to the index files, the forms of
    `exports`, the `node_modules` walk and the entry point `Resolve`. */
module ResolverProperties {
  import opened Wrappers
  import opened Paths
  import opened Pattern
  import opened Normalize
  import opened Host
  import opened NodeResolve

  /** Normalising the extensions twice is normalising them once. */
  lemma WithExtensionsIdempotent(r: Resolver, exts: seq<string>)
    ensures var once := r.WithExtensions(exts);
            once.WithExtensions(once.extensions) == once
  {
    var once := r.WithExtensions(exts);
    assert DotExtensions(once.extensions) == once.extensions;
  }

  /** The first of `candidates` that is a file is the one `FirstFile` finds. */
  lemma FirstFileAt(fs: FileSystem, candidates: seq<Path>, i: nat)
    requires i < |candidates| && candidates[i] in fs.files
    requires forall j :: 0 <= j < i ==> candidates[j] !in fs.files
    ensures FirstFile(fs, candidates) == Ok(candidates[i])
  {
  }

  /** `resolve_as_file` on a path that is not a file returns the first
      extension's file, so no file for an earlier extension exists. */
  lemma ResolveAsFileFirstExtension(r: Resolver, fs: FileSystem, path: Path, i: nat)
    requires path !in fs.files
    requires i < |r.extensions| && path + r.extensions[i] in fs.files
    requires forall j :: 0 <= j < i ==> path + r.extensions[j] !in fs.files
    ensures r.ResolveAsFile(fs, path) == Ok(path + r.extensions[i])
  {
    FirstFileAt(fs, ExtensionPaths(path, r.extensions), i);
  }

  /** `resolve_index` likewise returns the index file of the first extension
      that has one. */
  lemma ResolveIndexFirstExtension(r: Resolver, fs: FileSystem, path: Path, i: nat)
    requires i < |r.extensions| && Join(path, "index" + r.extensions[i]) in fs.files
    requires forall j :: 0 <= j < i ==> Join(path, "index" + r.extensions[j]) !in fs.files
    ensures r.ResolveIndex(fs, path) == Ok(Join(path, "index" + r.extensions[i]))
  {
    FirstFileAt(fs, IndexPaths(path, r.extensions), i);
  }

  /** The first of `fields` whose value is a string is the chosen one. */
  lemma {:induction false} FirstStringFieldAt(pkg: Json, fields: seq<string>, i: nat)
    requires i < |fields| && pkg.Get(fields[i]).JString?
    requires forall j :: 0 <= j < i ==> !pkg.Get(fields[j]).JString?
    ensures FirstStringField(pkg, fields) == Some(i)
  {
    if i > 0 {
      assert !pkg.Get(fields[0]).JString?;
      var rest := fields[1..];
      assert rest[i - 1] == fields[i];
      forall j | 0 <= j < i - 1
        ensures !pkg.Get(rest[j]).JString?
      {
        assert rest[j] == fields[j + 1];
      }
      FirstStringFieldAt(pkg, rest, i - 1);
    }
  }

  /** A directory whose package.json is missing, unreadable, not an object or
      without a string in any main field resolves to its index file. */
  lemma DirectoryFallsBackToIndex(r: Resolver, fs: FileSystem, path: Path, fuel: nat)
    requires var pkgPath := Join(path, "package.json");
             pkgPath !in fs.files || pkgPath !in fs.json || !fs.json[pkgPath].JObject?
             || forall i :: 0 <= i < |r.mainFields| ==> !fs.json[pkgPath].Get(r.mainFields[i]).JString?
    ensures r.ResolveAsDirectory(fs, path, fuel) == r.ResolveIndex(fs, path)
  {
  }

  /** The main field used is the first one, in the configured order, whose
      value is a string. Its target is tried as a file then as a directory;
      if that does not settle the index file is used and no later field is
      tried. */
  lemma MainFieldPriority(r: Resolver, fs: FileSystem, path: Path, fuel: nat, i: nat)
    requires var pkgPath := Join(path, "package.json");
             pkgPath in fs.files && pkgPath in fs.json && fs.json[pkgPath].JObject?
    requires var pkg := fs.json[Join(path, "package.json")];
             i < |r.mainFields| && pkg.Get(r.mainFields[i]).JString?
             && forall j :: 0 <= j < i ==> !pkg.Get(r.mainFields[j]).JString?
    ensures var pkgPath := Join(path, "package.json");
            var main := fs.json[pkgPath].Get(r.mainFields[i]).str;
            var result := r.ResolveMainTarget(fs, Join(Parent(pkgPath).GetOr("/"), main), fuel);
            r.ResolveAsDirectory(fs, path, fuel) ==
              if Settled(result) then result else r.ResolveIndex(fs, path)
  {
    FirstStringFieldAt(fs.json[Join(path, "package.json")], r.mainFields, i);
  }

  /** `package.json` of `pkgDir` holds the object `pkg`. */
  predicate PackageAt(fs: FileSystem, pkgDir: Path, pkg: Json) {
    var pkgPath := Join(pkgDir, "package.json");
    pkgPath in fs.files && pkgPath in fs.json && fs.json[pkgPath] == pkg && pkg.JObject?
  }

  /** A string `exports` is resolved as a file below the package. */
  lemma ExportsString(r: Resolver, fs: FileSystem, target: string, pkgDir: Path, recurseTarget: string, pkg: Json)
    requires PackageAt(fs, pkgDir, pkg) && pkg.Get("exports").JString?
    ensures r.ResolvePackageExports(fs, target, pkgDir, recurseTarget) ==
              r.ResolveAsFile(fs, Join(pkgDir, pkg.Get("exports").str))
  {
  }

  /** An array `exports` resolves its first string only: a later string is
      never tried, even when the first one names no file. */
  lemma ExportsArrayFirstString(r: Resolver, fs: FileSystem, target: string, pkgDir: Path, recurseTarget: string,
                                pkg: Json, i: nat)
    requires PackageAt(fs, pkgDir, pkg) && pkg.Get("exports").JArray?
    requires var items := pkg.Get("exports").items;
             i < |items| && items[i].JString? && forall j :: 0 <= j < i ==> !items[j].JString?
    ensures r.ResolvePackageExports(fs, target, pkgDir, recurseTarget) ==
              r.ResolveAsFile(fs, Join(pkgDir, pkg.Get("exports").items[i].str))
  {
    var items := pkg.Get("exports").items;
    var k := FirstString(items);
    assert k.Some?;
    assert !(k.value < i);
  }

  /** An array `exports` without a string finds nothing. */
  lemma ExportsArrayWithoutString(r: Resolver, fs: FileSystem, target: string, pkgDir: Path, recurseTarget: string,
                                  pkg: Json)
    requires PackageAt(fs, pkgDir, pkg) && pkg.Get("exports").JArray?
    requires forall j :: 0 <= j < |pkg.Get("exports").items| ==> !pkg.Get("exports").items[j].JString?
    ensures r.ResolvePackageExports(fs, target, pkgDir, recurseTarget) == Err(ExportsNotFound)
  {
  }

  /** The first key of an `exports` object (in the order the JSON map
      iterates) that matches the subpath decides: its value with every `*`
      replaced by the capture is resolved as a file, and no later key is
      tried even when that file does not exist. */
  lemma ExportsObjectFirstMatch(r: Resolver, fs: FileSystem, target: string, pkgDir: Path, recurseTarget: string,
                                pkg: Json, search: string, i: nat, capture: string)
    requires PackageAt(fs, pkgDir, pkg) && pkg.Get("exports").JObject?
    requires StripPathPrefix(target, recurseTarget) == Some(search)
    requires var entries := pkg.Get("exports").entries;
             i < |entries| && StartsWith(entries[i].0, "./")
             && MatchStar(entries[i].0[2..], search) == Some(capture)
             && entries[i].1.JString?
             && forall j :: 0 <= j < i ==> Skipped(entries, search, j)
    ensures r.ResolvePackageExports(fs, target, pkgDir, recurseTarget) ==
              r.ResolveAsFile(fs, Join(pkgDir, ReplaceStar(pkg.Get("exports").entries[i].1.str, capture)))
  {
    var exports := pkg.Get("exports");
    ScanExportsAt(exports.entries, search, i, capture);
    assert ReadPackage(fs, Join(pkgDir, "package.json")) == Ok(pkg);
    assert !exports.JString? && !exports.JArray?;
  }

  /** The scan of an `exports` object stops at the first matching key. */
  lemma {:induction false} ScanExportsAt(entries: seq<(string, Json)>, search: string, i: nat, capture: string)
    requires i < |entries| && StartsWith(entries[i].0, "./")
    requires MatchStar(entries[i].0[2..], search) == Some(capture)
    requires forall j :: 0 <= j < i ==> Skipped(entries, search, j)
    ensures ScanExports(entries, search) == Matched(i, capture)
  {
    if i > 0 {
      assert Skipped(entries, search, 0);
      forall j | 0 <= j < i - 1
        ensures Skipped(entries[1..], search, j)
      {
        assert Skipped(entries, search, j + 1);
        assert entries[1..][j] == entries[j + 1];
      }
      ScanExportsAt(entries[1..], search, i - 1, capture);
    }
  }

  /** No `package.json` exists in `p` or any of its ancestors. */
  predicate NoPackageJsonUpward(fs: FileSystem, p: Path)
    decreases |p|
  {
    Join(p, "package.json") !in fs.files
    && match Parent(p)
       case None => true
       case Some(q) => NoPackageJsonUpward(fs, q)
  }

  /** The parent-retry of `exports` climbs the package directory and the
      target together; when both are the same absolute path with no
      `package.json` anywhere above, the climb reaches `/`, whose parent is
      unwrapped: a panic. */
  lemma {:induction false} ExportsClimbPanicsAtRoot(r: Resolver, fs: FileSystem, target: string, p: Path)
    requires IsAbsolute(p) && NoPackageJsonUpward(fs, p)
    ensures r.ResolvePackageExports(fs, target, p, p) == Err(Crashed(ParentOfRoot))
    decreases |p|
  {
    assert p[0] in p;
    match Parent(p)
    case None =>
    case Some(q) =>
      ExportsClimbPanicsAtRoot(r, fs, target, q);
  }

  /** Consequently an absolute specifier that names nothing, with no
      `package.json` on its path, panics as soon as the walk meets a
      `node_modules` folder: joining an absolute specifier onto that folder
      gives the specifier back, and `exports` climbs it to the root. */
  lemma MissingAbsoluteTargetPanics(r: Resolver, fs: FileSystem, target: string, fuel: nat)
    requires IsAbsolute(target) && target !in fs.coreModules
    requires NoPackageJsonUpward(fs, target)
    requires r.ResolveAsFile(fs, target).Err? && r.ResolveIndex(fs, target).Err?
    requires r.basedir.Some? && Join(r.basedir.value, "node_modules") in fs.dirs
    ensures r.Resolve(fs, target, fuel) == Err(Crashed(ParentOfRoot))
  {
    ExportsClimbPanicsAtRoot(r, fs, target, target);
  }

  /** The directories the `node_modules` walk visits: `dir`, then each
      parent in turn, up to one that has none. */
  function Ancestors(dir: Path): (a: seq<Path>)
    ensures |a| >= 1 && a[0] == dir
    decreases |dir|
  {
    match Parent(dir)
    case None => [dir]
    case Some(p) => [dir] + Ancestors(p)
  }

  /** Each visited directory is the parent of the one before, and the last
      one is the root: it has no parent. */
  lemma {:induction false} AncestorsChain(dir: Path)
    ensures var a := Ancestors(dir);
            (forall i :: 0 <= i < |a| - 1 ==> Parent(a[i]) == Some(a[i + 1]))
            && Parent(a[|a| - 1]).None?
    decreases |dir|
  {
    match Parent(dir)
    case None =>
    case Some(p) =>
      AncestorsChain(p);
      var a := Ancestors(dir);
      assert a[1..] == Ancestors(p);
  }

  /** The probe at each directory of `dirs`. */
  function Probes(r: Resolver, fs: FileSystem, dirs: seq<Path>, target: string, fuel: nat): (ps: seq<Resolution>)
    ensures |ps| == |dirs|
    ensures forall i :: 0 <= i < |dirs| ==> ps[i] == r.ProbeAt(fs, dirs[i], target, fuel)
  {
    seq(|dirs|, i requires 0 <= i < |dirs| => r.ProbeAt(fs, dirs[i], target, fuel))
  }

  /** The walk returns the first probe, from `dir` upward, that settles, and
      "not found" once the root has been probed without success. */
  lemma {:induction false} NodeModulesWalk(r: Resolver, fs: FileSystem, dir: Path, target: string, fuel: nat)
    ensures r.WalkFrom(fs, dir, target, fuel) == FirstSettled(Probes(r, fs, Ancestors(dir), target, fuel))
    decreases |dir|
  {
    var ps := Probes(r, fs, Ancestors(dir), target, fuel);
    var probe := r.ProbeAt(fs, dir, target, fuel);
    assert ps[0] == probe;
    assert FirstSettled(ps) == if Settled(probe) then probe else FirstSettled(ps[1..]) by {
      FirstSettledCons(ps);
    }
    if !Settled(probe) {
      match Parent(dir)
      case None =>
        assert ps[1..] == [];
      case Some(p) =>
        assert ps[1..] == Probes(r, fs, Ancestors(p), target, fuel) by {
          ProbesAfterFirst(r, fs, dir, p, target, fuel);
        }
        NodeModulesWalk(r, fs, p, target, fuel);
    }
  }

  /** Past the first directory, the probes are those of its parent's walk. */
  lemma ProbesAfterFirst(r: Resolver, fs: FileSystem, dir: Path, p: Path, target: string, fuel: nat)
    requires Parent(dir) == Some(p)
    ensures Probes(r, fs, Ancestors(dir), target, fuel)[1..] == Probes(r, fs, Ancestors(p), target, fuel)
  {
    var a := Ancestors(dir);
    assert a[1..] == Ancestors(p);
    ProbesTail(r, fs, a, target, fuel);
  }

  /** Dropping the first directory drops the first probe. */
  lemma ProbesTail(r: Resolver, fs: FileSystem, dirs: seq<Path>, target: string, fuel: nat)
    requires dirs != []
    ensures Probes(r, fs, dirs, target, fuel)[1..] == Probes(r, fs, dirs[1..], target, fuel)
  {
    var ps, qs := Probes(r, fs, dirs, target, fuel)[1..], Probes(r, fs, dirs[1..], target, fuel);
    forall i | 0 <= i < |qs|
      ensures ps[i] == qs[i]
    {
      assert dirs[1..][i] == dirs[i + 1];
    }
  }

  /** The first settled result of a non-empty list: its head when that is
      settled, otherwise the first settled one of its tail. */
  lemma FirstSettledCons(results: seq<Resolution>)
    requires results != []
    ensures FirstSettled(results) == if Settled(results[0]) then results[0] else FirstSettled(results[1..])
  {
  }

  /** The closest `node_modules` folder with a settled probe wins. */
  lemma ClosestNodeModulesWins(r: Resolver, fs: FileSystem, dir: Path, target: string, fuel: nat, k: nat)
    requires k < |Ancestors(dir)|
    requires Settled(r.ProbeAt(fs, Ancestors(dir)[k], target, fuel))
    requires forall j :: 0 <= j < k ==> !Settled(r.ProbeAt(fs, Ancestors(dir)[j], target, fuel))
    ensures r.WalkFrom(fs, dir, target, fuel) == r.ProbeAt(fs, Ancestors(dir)[k], target, fuel)
  {
    NodeModulesWalk(r, fs, dir, target, fuel);
    var ps := Probes(r, fs, Ancestors(dir), target, fuel);
    forall j | 0 <= j < k
      ensures !Settled(ps[j])
    {
      assert ps[j] == r.ProbeAt(fs, Ancestors(dir)[j], target, fuel);
    }
    FirstSettledAt(ps, k);
  }

  /** A settled result preceded only by unsettled ones is the first settled. */
  lemma {:induction false} FirstSettledAt(results: seq<Resolution>, k: nat)
    requires k < |results| && Settled(results[k])
    requires forall j :: 0 <= j < k ==> !Settled(results[j])
    ensures FirstSettled(results) == results[k]
  {
    if k > 0 {
      assert !Settled(results[0]);
      var rest := results[1..];
      forall j | 0 <= j < k - 1
        ensures !Settled(rest[j])
      {
        assert rest[j] == results[j + 1];
      }
      FirstSettledAt(rest, k - 1);
    }
  }

  /** The walk ends in a success, a panic, or "not found". */
  lemma WalkOutcome(r: Resolver, fs: FileSystem, dir: Path, target: string, fuel: nat)
    ensures var w := r.WalkFrom(fs, dir, target, fuel);
            w.Ok? || w.error.Crashed? || w.error == NotFound
  {
    NodeModulesWalk(r, fs, dir, target, fuel);
  }

  /** A core module resolves to its own name. */
  lemma ResolveCoreModule(r: Resolver, fs: FileSystem, target: string, fuel: nat)
    requires target in fs.coreModules
    ensures r.Resolve(fs, target, fuel) == Ok(target)
  {
  }

  /** A relative specifier needs a base directory. */
  lemma ResolveNeedsBasedir(r: Resolver, fs: FileSystem, target: string, fuel: nat)
    requires r.basedir.None? && target !in fs.coreModules && !StartsWith(target, "/")
    ensures r.Resolve(fs, target, fuel) == Err(MissingBasedir)
  {
  }

  /** An absolute specifier is probed from the root, whatever the base
      directory (which may be unset): an existing file is the answer,
      normalised when symlinks are preserved and canonicalised otherwise. */
  lemma ResolveAbsoluteFile(r: Resolver, fs: FileSystem, target: string, fuel: nat)
    requires IsAbsolute(target) && target !in fs.coreModules && target in fs.files
    ensures r.preserveSymlinks ==> r.Resolve(fs, target, fuel) == Ok(NormalizedPath(target))
    ensures !r.preserveSymlinks && target in fs.canonical ==> r.Resolve(fs, target, fuel) == Ok(fs.canonical[target])
  {
  }

  /** With symlinks preserved, a resolved non-core path is absolute and
      already normalised. */
  lemma ResolvedPathIsNormal(r: Resolver, fs: FileSystem, target: string, fuel: nat)
    requires r.preserveSymlinks && target !in fs.coreModules
    requires r.Resolve(fs, target, fuel).Ok?
    ensures var p := r.Resolve(fs, target, fuel).value;
            IsAbsolute(p) && NormalizedPath(p) == p
  {
    var p := r.Resolve(fs, target, fuel).value;
    var q :| NormalizedPath(q) == p;
    NormalizedPathIdempotent(q);
  }

  /** `resolve_from` always has a base directory: it fails with a
      resolution error, never for want of one. */
  lemma ResolveFromHasBasedir(fs: FileSystem, target: string, basedir: Path, fuel: nat)
    ensures ResolveFrom(fs, target, basedir, fuel) != Err(MissingBasedir)
  {
    WalkOutcome(Default().WithBasedir(basedir), fs, basedir, target, fuel);
  }
}
