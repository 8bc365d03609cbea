/** The Node.js-style resolution engine of src/node_resolve.rs: a `Resolver`
    value with its options and builders, and the `require(X)` algorithm
    (LOAD_AS_FILE, LOAD_INDEX, LOAD_AS_DIRECTORY, LOAD_NODE_MODULES) plus the
    `exports` map of a `package.json`, over a `FileSystem` value.

    A panic of the source (an `unwrap` on a missing value) is the error
    `Crashed`: unlike every other error, no `or_else` fallback and no
    "try the next place" step gets past it. The mutual recursion between
    `ResolveAsDirectory` and `ResolvePackageMain` follows one `main` field per
    level; `fuel` bounds those levels, and running out of it is the crash
    `DepthExhausted`, which stands for the stack overflow of a `main` that
    leads back to its own directory. */
module NodeResolve {
  import opened Wrappers
  import opened Paths
  import opened Pattern
  import opened Normalize
  import opened Host

  /** The `unwrap`s of the source that can fail. */
  datatype Crash =
    | ExportsKeyWithoutDotSlash   // an `exports` key that does not start with `./`
    | ExportsTargetNotString      // the matching `exports` value is not a string
    | ParentOfRoot                // the parent-retry of `exports` goes above `/`
    | DepthExhausted              // `main` fields nested deeper than the fuel

  datatype ResolutionError =
    | NotFound
    | MissingBasedir
    | IoError
    | JsonParseError
    | NotAnObject
    | NoMainString
    | ExportsNotFound
    | Crashed(crash: Crash)

  type Resolution = Result<Path, ResolutionError>

  /** A result that ends the search: a success, or a panic that unwinds. */
  predicate Settled(r: Resolution) {
    r.Ok? || r.error.Crashed?
  }

  /** `first.or_else(|_| second)`, where a panic in `first` never reaches the
      fallback. */
  function OrElse(first: Resolution, second: Resolution): Resolution {
    if Settled(first) then first else second
  }

  /** The first result of `results` that settles; not found when none does. */
  function FirstSettled(results: seq<Resolution>): (r: Resolution)
    ensures Settled(r) <==> exists i :: 0 <= i < |results| && Settled(results[i])
    ensures Settled(r) ==> exists i :: 0 <= i < |results| && results[i] == r
                                       && forall j :: 0 <= j < i ==> !Settled(results[j])
    ensures !Settled(r) ==> r == Err(NotFound)
  {
    if results == [] then Err(NotFound)
    else if Settled(results[0]) then results[0]
    else
      var r := FirstSettled(results[1..]);
      assert Settled(r) ==> exists i :: 1 <= i < |results| && results[i] == r
                                       && forall j :: 0 <= j < i ==> !Settled(results[j]);
      r
  }

  /** `format!(".{}", ext)` unless `ext` already starts with a dot. */
  function DotExtension(ext: string): (r: string)
    ensures |r| > 0 && r[0] == '.'
    ensures StartsWith(ext, ".") ==> r == ext
    ensures !StartsWith(ext, ".") ==> r == "." + ext
  {
    if StartsWith(ext, ".") then ext else "." + ext
  }

  function DotExtensions(exts: seq<string>): (r: seq<string>)
    ensures |r| == |exts|
    ensures forall i :: 0 <= i < |exts| ==> r[i] == DotExtension(exts[i])
  {
    if exts == [] then [] else [DotExtension(exts[0])] + DotExtensions(exts[1..])
  }

  /** Extensions that already start with a dot come out unchanged. */
  lemma {:induction false} DotExtensionsKeepDotted(exts: seq<string>)
    requires forall i :: 0 <= i < |exts| ==> StartsWith(exts[i], ".")
    ensures DotExtensions(exts) == exts
  {
    if exts != [] {
      DotExtensionsKeepDotted(exts[1..]);
    }
  }

  /** The paths `path` + `ext`, one per extension, in order. */
  function ExtensionPaths(path: Path, exts: seq<string>): seq<Path> {
    seq(|exts|, i requires 0 <= i < |exts| => path + exts[i])
  }

  /** The paths `path`/index`ext`, one per extension, in order. */
  function IndexPaths(path: Path, exts: seq<string>): seq<Path> {
    seq(|exts|, i requires 0 <= i < |exts| => Join(path, "index" + exts[i]))
  }

  /** `p` is a file and is the first of `candidates` that is one. */
  predicate FirstFileIs(fs: FileSystem, candidates: seq<Path>, p: Path) {
    exists i :: 0 <= i < |candidates| && candidates[i] == p && p in fs.files
                && forall j :: 0 <= j < i ==> candidates[j] !in fs.files
  }

  /** The loop shared by `resolve_as_file` and `resolve_index`: the first
      candidate that is a file. */
  function FirstFile(fs: FileSystem, candidates: seq<Path>): (r: Resolution)
    ensures r.Ok? <==> exists i :: 0 <= i < |candidates| && candidates[i] in fs.files
    ensures r.Ok? ==> FirstFileIs(fs, candidates, r.value)
    ensures r.Err? ==> r.error == NotFound
  {
    if candidates == [] then Err(NotFound)
    else if candidates[0] in fs.files then Ok(candidates[0])
    else
      var r := FirstFile(fs, candidates[1..]);
      assert r.Ok? ==> candidates[0] !in fs.files && FirstFileIs(fs, candidates[1..], r.value);
      r
  }

  /** `File::open` then `serde_json::from_reader`: a missing path cannot be
      opened; a directory opens but cannot be read, which surfaces as a JSON
      error; a file that does not parse is a JSON error. */
  function ReadPackage(fs: FileSystem, p: Path): (r: Result<Json, ResolutionError>)
    ensures r.Ok? <==> p in fs.files && p in fs.json
    ensures r.Ok? ==> r.value == fs.json[p]
    ensures r.Err? ==> r.error == (if p in fs.files || p in fs.dirs then JsonParseError else IoError)
  {
    if p in fs.files then
      if p in fs.json then Ok(fs.json[p]) else Err(JsonParseError)
    else if p in fs.dirs then Err(JsonParseError)
    else Err(IoError)
  }

  /** The index of the first of `fields` whose value in `pkg` is a string. */
  function FirstStringField(pkg: Json, fields: seq<string>): (r: Option<nat>)
    ensures r.None? <==> forall i :: 0 <= i < |fields| ==> !pkg.Get(fields[i]).JString?
    ensures r.Some? ==> r.value < |fields| && pkg.Get(fields[r.value]).JString?
                        && forall j :: 0 <= j < r.value ==> !pkg.Get(fields[j]).JString?
  {
    if fields == [] then None
    else if pkg.Get(fields[0]).JString? then Some(0)
    else
      match FirstStringField(pkg, fields[1..])
      case None => None
      case Some(i) => Some(i + 1)
  }

  /** The index of the first string of an `exports` array. */
  function FirstString(items: seq<Json>): (r: Option<nat>)
    ensures r.None? <==> forall i :: 0 <= i < |items| ==> !items[i].JString?
    ensures r.Some? ==> r.value < |items| && items[r.value].JString?
                        && forall j :: 0 <= j < r.value ==> !items[j].JString?
  {
    if items == [] then None
    else if items[0].JString? then Some(0)
    else
      match FirstString(items[1..])
      case None => None
      case Some(i) => Some(i + 1)
  }

  /** Where the scan of an `exports` object stops. */
  datatype ExportScan =
    | NoMatch                         // every key was tried
    | Matched(index: nat, capture: string)  // this key matched the subpath
    | BadKey(index: nat)              // this key has no `./` to strip

  /** Entry `i` has a `./` key whose pattern does not match `search`. */
  predicate Skipped(entries: seq<(string, Json)>, search: string, i: int)
    requires 0 <= i < |entries|
  {
    StartsWith(entries[i].0, "./") && MatchStar(entries[i].0[2..], search).None?
  }

  /** The loop over the entries of an `exports` object: for each key,
      `strip_prefix("./").unwrap()` then `match_star` against the subpath,
      stopping at the first match. */
  function ScanExports(entries: seq<(string, Json)>, search: string): (r: ExportScan)
    ensures r.NoMatch? <==> forall i :: 0 <= i < |entries| ==> Skipped(entries, search, i)
    ensures r.Matched? ==> r.index < |entries| && StartsWith(entries[r.index].0, "./")
                           && MatchStar(entries[r.index].0[2..], search) == Some(r.capture)
                           && forall j :: 0 <= j < r.index ==> Skipped(entries, search, j)
    ensures r.BadKey? ==> r.index < |entries| && !StartsWith(entries[r.index].0, "./")
                          && forall j :: 0 <= j < r.index ==> Skipped(entries, search, j)
  {
    if entries == [] then NoMatch
    else if !StartsWith(entries[0].0, "./") then
      assert !Skipped(entries, search, 0);
      BadKey(0)
    else
      match MatchStar(entries[0].0[2..], search)
      case Some(c) =>
        assert !Skipped(entries, search, 0);
        Matched(0, c)
      case None =>
        var r := ScanExports(entries[1..], search);
        assert forall j :: 1 <= j < |entries| ==>
                 (Skipped(entries, search, j) <==> Skipped(entries[1..], search, j - 1));
        match r
        case NoMatch => NoMatch
        case Matched(i, c) =>
          assert !Skipped(entries[1..], search, i);
          assert !Skipped(entries, search, i + 1);
          Matched(i + 1, c)
        case BadKey(i) =>
          assert !Skipped(entries[1..], search, i);
          assert !Skipped(entries, search, i + 1);
          BadKey(i + 1)
  }

  /** A resolver: its options, as `Resolver` of the source. */
  datatype Resolver = Resolver(
    basedir: Option<Path>,
    extensions: seq<string>,
    preserveSymlinks: bool,
    mainFields: seq<string>)
  {
    function GetBasedir(): (r: Result<Path, ResolutionError>)
      ensures r.Ok? <==> basedir.Some?
      ensures r.Ok? ==> r.value == basedir.value
      ensures r.Err? ==> r.error == MissingBasedir
    {
      match basedir
      case Some(b) => Ok(b)
      case None => Err(MissingBasedir)
    }

    function WithBasedir(b: Path): (r: Resolver)
      ensures r.basedir == Some(b)
      ensures r.extensions == extensions && r.preserveSymlinks == preserveSymlinks
              && r.mainFields == mainFields
    {
      this.(basedir := Some(b))
    }

    /** Replaces the extensions, putting a dot in front of each one that
        lacks it. */
    function WithExtensions(exts: seq<string>): (r: Resolver)
      ensures |r.extensions| == |exts|
      ensures forall i :: 0 <= i < |exts| ==>
                StartsWith(r.extensions[i], ".")
                && (StartsWith(exts[i], ".") ==> r.extensions[i] == exts[i])
                && (!StartsWith(exts[i], ".") ==> r.extensions[i] == "." + exts[i])
      ensures r.basedir == basedir && r.preserveSymlinks == preserveSymlinks
              && r.mainFields == mainFields
    {
      this.(extensions := DotExtensions(exts))
    }

    function WithMainFields(fields: seq<string>): (r: Resolver)
      ensures r.mainFields == fields
      ensures r.basedir == basedir && r.extensions == extensions
              && r.preserveSymlinks == preserveSymlinks
    {
      this.(mainFields := fields)
    }

    function PreserveSymlinks(preserve: bool): (r: Resolver)
      ensures r.preserveSymlinks == preserve
      ensures r.basedir == basedir && r.extensions == extensions
              && r.mainFields == mainFields
    {
      this.(preserveSymlinks := preserve)
    }

    /** With symlinks preserved, the lexical `normalize_path`; otherwise the
        file system's `canonicalize`, which fails with an I/O error. */
    function Normalize(fs: FileSystem, p: Path): (r: Resolution)
      ensures preserveSymlinks ==> r == Ok(NormalizedPath(p)) && IsAbsolute(r.value)
      ensures !preserveSymlinks ==> (r.Ok? <==> p in fs.canonical)
      ensures !preserveSymlinks && p in fs.canonical ==> r == Ok(fs.canonical[p])
      ensures r.Err? ==> r.error == IoError
    {
      if preserveSymlinks then Ok(NormalizedPath(p))
      else if p in fs.canonical then Ok(fs.canonical[p])
      else Err(IoError)
    }

    /** `.and_then(|p| self.normalize(&p))`. */
    function NormalizeResult(fs: FileSystem, r: Resolution): Resolution {
      match r
      case Ok(p) => Normalize(fs, p)
      case Err(e) => Err(e)
    }

    /** LOAD_AS_FILE: `path` itself, then `path` + each extension in order. */
    function ResolveAsFile(fs: FileSystem, path: Path): (r: Resolution)
      ensures r.Ok? <==> exists i :: 0 <= i < |[path] + ExtensionPaths(path, extensions)|
                                     && ([path] + ExtensionPaths(path, extensions))[i] in fs.files
      ensures r.Ok? ==> FirstFileIs(fs, [path] + ExtensionPaths(path, extensions), r.value)
      ensures r.Err? ==> r.error == NotFound
    {
      if path in fs.files then
        assert ([path] + ExtensionPaths(path, extensions))[0] == path;
        Ok(path)
      else
        var r := FirstFile(fs, ExtensionPaths(path, extensions));
        assert ([path] + ExtensionPaths(path, extensions))[1..] == ExtensionPaths(path, extensions);
        r
    }

    /** LOAD_INDEX: `path`/index + each extension in order. */
    function ResolveIndex(fs: FileSystem, path: Path): (r: Resolution)
      ensures r.Ok? <==> exists i :: 0 <= i < |extensions|
                                     && IndexPaths(path, extensions)[i] in fs.files
      ensures r.Ok? ==> FirstFileIs(fs, IndexPaths(path, extensions), r.value)
      ensures r.Err? ==> r.error == NotFound
    {
      FirstFile(fs, IndexPaths(path, extensions))
    }

    /** LOAD_AS_DIRECTORY: the `main` of `path`/package.json when it is a
        file and that settles, the index files otherwise. */
    function ResolveAsDirectory(fs: FileSystem, path: Path, fuel: nat): Resolution
      decreases fuel, 2
    {
      var pkgPath := Join(path, "package.json");
      if pkgPath in fs.files then
        var main := ResolvePackageMain(fs, pkgPath, fuel);
        if Settled(main) then main else ResolveIndex(fs, path)
      else ResolveIndex(fs, path)
    }

    /** The target of the first of the main fields whose value is a string,
        resolved against the package's directory as a file, then as a
        directory. */
    function ResolvePackageMain(fs: FileSystem, pkgPath: Path, fuel: nat): Resolution
      decreases fuel, 1
    {
      var pkgDir := Parent(pkgPath).GetOr("/");
      match ReadPackage(fs, pkgPath)
      case Err(e) => Err(e)
      case Ok(pkg) =>
        if !pkg.JObject? then Err(NotAnObject)
        else
          match FirstStringField(pkg, mainFields)
          case None => Err(NoMainString)
          case Some(i) =>
            ResolveMainTarget(fs, Join(pkgDir, pkg.Get(mainFields[i]).str), fuel)
    }

    /** The path a main field names: as a file, then as a directory, one
        level deeper. */
    function ResolveMainTarget(fs: FileSystem, path: Path, fuel: nat): Resolution
      decreases fuel, 0
    {
      OrElse(ResolveAsFile(fs, path),
             if fuel == 0 then Err(Crashed(DepthExhausted))
             else ResolveAsDirectory(fs, path, fuel - 1))
    }

    /** The `exports` field of `pkgDir`/package.json. When that file is
        missing and `recurseTarget` still has a `/`, both the directory and
        the target lose their last component and the search retries. A
        string is resolved as a file; so is the first string of an array; an
        object is scanned for the first key matching the subpath of `target`
        below `recurseTarget`, whose value has every `*` replaced by the
        capture. */
    function ResolvePackageExports(fs: FileSystem, target: string, pkgDir: Path, recurseTarget: string): Resolution
      decreases |recurseTarget|
    {
      var pkgPath := Join(pkgDir, "package.json");
      if pkgPath !in fs.files && '/' in recurseTarget then
        match Parent(pkgDir)
        case None => Err(Crashed(ParentOfRoot))
        case Some(dir) =>
          match Parent(recurseTarget)
          case None => Err(Crashed(ParentOfRoot))
          case Some(t) => ResolvePackageExports(fs, target, dir, t)
      else
        match ReadPackage(fs, pkgPath)
        case Err(e) => Err(e)
        case Ok(pkg) =>
          if !pkg.JObject? then Err(NotAnObject)
          else
            var exports := pkg.Get("exports");
            if exports.JString? then ResolveAsFile(fs, Join(pkgDir, exports.str))
            else if exports.JArray? && FirstString(exports.items).Some? then
              ResolveAsFile(fs, Join(pkgDir, exports.items[FirstString(exports.items).value].str))
            else if exports.JObject? then
              match StripPathPrefix(target, recurseTarget)
              case None => Err(ExportsNotFound)
              case Some(search) =>
                match ScanExports(exports.entries, search)
                case NoMatch => Err(ExportsNotFound)
                case BadKey(_) => Err(Crashed(ExportsKeyWithoutDotSlash))
                case Matched(i, c) =>
                  var dest := exports.entries[i].1;
                  if dest.JString? then ResolveAsFile(fs, Join(pkgDir, ReplaceStar(dest.str, c)))
                  else Err(Crashed(ExportsTargetNotString))
            else Err(ExportsNotFound)
    }

    /** One step of LOAD_NODE_MODULES in the folder `nodeModules`: the target
        there as a file, as a directory, then through `exports`. */
    function NodeModulesProbe(fs: FileSystem, nodeModules: Path, target: string, fuel: nat): Resolution {
      var path := Join(nodeModules, target);
      OrElse(OrElse(ResolveAsFile(fs, path), ResolveAsDirectory(fs, path, fuel)),
             ResolvePackageExports(fs, target, path, target))
    }

    /** The probe of LOAD_NODE_MODULES at one directory: nothing unless
        `dir`/node_modules is a directory. */
    function ProbeAt(fs: FileSystem, dir: Path, target: string, fuel: nat): Resolution {
      var nodeModules := Join(dir, "node_modules");
      if nodeModules in fs.dirs then NodeModulesProbe(fs, nodeModules, target, fuel)
      else Err(NotFound)
    }

    /** The walk of LOAD_NODE_MODULES from `dir` up to the root, stopping at
        the first probe that settles. The source recurses on a copy of the
        resolver whose base directory is the parent; nothing else of the
        copy differs, and the base directory is read only as `dir` here. */
    function WalkFrom(fs: FileSystem, dir: Path, target: string, fuel: nat): Resolution
      decreases |dir|
    {
      var probe := ProbeAt(fs, dir, target, fuel);
      if Settled(probe) then probe
      else
        match Parent(dir)
        case Some(parent) => WalkFrom(fs, parent, target, fuel)
        case None => Err(NotFound)
    }

    /** LOAD_NODE_MODULES from the base directory. */
    function ResolveNodeModules(fs: FileSystem, target: string, fuel: nat): Resolution {
      match GetBasedir()
      case Err(e) => Err(e)
      case Ok(b) => WalkFrom(fs, b, target, fuel)
    }

    /** `require(X)`: a core module is its own name; otherwise X is tried as
        a file or directory below the root (absolute X) or the base directory,
        then through the `node_modules` folders; the result is normalised. */
    function Resolve(fs: FileSystem, target: string, fuel: nat): Resolution {
      if target in fs.coreModules then Ok(target)
      else
        var base := if StartsWith(target, "/") then Ok("/") else GetBasedir();
        match base
        case Err(e) => Err(e)
        case Ok(b) =>
          var path := Join(b, target);
          var local := NormalizeResult(fs, OrElse(ResolveAsFile(fs, path), ResolveAsDirectory(fs, path, fuel)));
          if Settled(local) then local
          else NormalizeResult(fs, ResolveNodeModules(fs, target, fuel))
    }
  }

  /** `Resolver::default()`. */
  function Default(): (r: Resolver)
    ensures r.basedir == None && r.extensions == [".js", ".json", ".node"]
    ensures !r.preserveSymlinks && r.mainFields == ["main"]
  {
    Resolver(None, [".js", ".json", ".node"], false, ["main"])
  }

  /** `resolve_from`: the default resolver with `basedir` set. */
  function ResolveFrom(fs: FileSystem, target: string, basedir: Path, fuel: nat): Resolution {
    Default().WithBasedir(basedir).Resolve(fs, target, fuel)
  }

  /** The free `resolve`: relative to the current directory `.`. */
  function ResolveInCwd(fs: FileSystem, target: string, fuel: nat): Resolution {
    ResolveFrom(fs, target, ".", fuel)
  }
}
